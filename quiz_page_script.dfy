/**
  The quiz page script of the server-rendered pages (LMS/static/js/quiz_page.js):
  a countdown that ticks once a second and calls its time-up action once,
  and the guards that make the per-question actions happen at most once
  (the timer of a timed question, the hidden copy of its chosen answer, the
  time-up message). Ticks are discrete steps; the clock is not modelled.
 */
module QuizPageScript {
  import opened Wrappers
  import opened Text

  // ---------------------------------------------------------------------
  // The countdown (`startTimer`)
  // ---------------------------------------------------------------------

  /** JavaScript's `t % 60`, whose sign follows `t`. */
  function JsRem60(t: int): (r: int)
    ensures t >= 0 ==> r == t % 60
    ensures -60 < r < 60
  {
    if t >= 0 then t % 60 else -((-t) % 60)
  }

  /** The seconds part of the display: zero-padded below 10. */
  function SecondsText(seconds: int): string {
    if seconds < 10 then "0" + IntToString(seconds) else IntToString(seconds)
  }

  /** The display text for `t` seconds left: `Math.floor(t / 60)`, a colon,
      and the padded seconds. */
  function Format(t: int): string {
    IntToString(t / 60) + ":" + SecondsText(JsRem60(t))
  }

  /** Splitting at a character the string does not contain gives the whole
      string back. */
  lemma SplitWithoutChar(s: string, c: char)
    requires forall j :: 0 <= j < |s| ==> s[j] != c
    ensures Split(s, [c]) == [s]
  {
    SplitCharCount(s, c);
    CountCharAbsent(s, c);
    JoinSplit(s, [c]);
  }

  /** The seconds of a non-negative time are always two digits. */
  lemma SecondsTwoDigits(seconds: nat)
    requires seconds < 60
    ensures |SecondsText(seconds)| == 2 && AllDigits(SecondsText(seconds))
    ensures ParseNat(SecondsText(seconds)) == seconds
  {
    var x := SecondsText(seconds);
    if seconds < 10 {
      assert x == ['0', DigitChar(seconds)];
      assert x[..1] == ['0'];
      assert ParseNat(['0']) == 0 by {
        assert ['0'][..0] == [];
      }
    } else {
      ParseNatToString(seconds);
      assert NatToString(seconds) == NatToString(seconds / 10) + [DigitChar(seconds % 10)];
    }
  }

  /** The display of a non-negative time reads back as that time: minutes,
      a colon and two digits of seconds. */
  lemma DisplayRoundTrip(t: nat)
    ensures var parts := Split(Format(t), ":");
      |parts| == 2 && AllDigits(parts[0]) && AllDigits(parts[1]) && |parts[1]| == 2 &&
      ParseNat(parts[0]) * 60 + ParseNat(parts[1]) == t
  {
    var minutes := NatToString(t / 60);
    var seconds := SecondsText(t % 60);
    SecondsTwoDigits(t % 60);
    assert Format(t) == minutes + [':'] + seconds;
    forall j | 0 <= j < |minutes| ensures minutes[j] != ':' {
      assert IsDigit(minutes[j]);
    }
    SplitAtFirstChar(minutes, ':', seconds);
    forall j | 0 <= j < |seconds| ensures seconds[j] != ':' {
      assert IsDigit(seconds[j]);
    }
    SplitWithoutChar(seconds, ':');
    ParseNatToString(t / 60);
  }

  /** A countdown's state: seconds left, whether its interval still fires,
      how often the time-up action ran, and the text last displayed. */
  datatype Timer = Timer(remaining: int, running: bool, timeUpCalls: nat, display: Option<string>)

  /** A countdown just started for `limitMinutes` minutes. */
  function Started(limitMinutes: int): Timer {
    Timer(limitMinutes * 60, true, 0, None)
  }

  /** One tick of the interval: the time is displayed (when the display
      element exists); at no time left the interval is cleared and the
      time-up action runs, otherwise one second is taken off. A cleared
      interval does not tick. */
  function Tick(t: Timer, displayPresent: bool): (r: Timer)
    ensures !t.running ==> r == t
    ensures t.running ==> r.display == (if displayPresent then Some(Format(t.remaining)) else t.display)
    ensures t.running && t.remaining > 0 ==>
      r.running && r.remaining == t.remaining - 1 && r.timeUpCalls == t.timeUpCalls
    ensures t.running && t.remaining <= 0 ==>
      !r.running && r.remaining == t.remaining && r.timeUpCalls == t.timeUpCalls + 1
  {
    if !t.running then t
    else
      var display := if displayPresent then Some(Format(t.remaining)) else t.display;
      if t.remaining <= 0 then Timer(t.remaining, false, t.timeUpCalls + 1, display)
      else Timer(t.remaining - 1, true, t.timeUpCalls, display)
  }

  /** `n` ticks with the display element present. */
  function Ticks(t: Timer, n: nat): Timer {
    if n == 0 then t else Tick(Ticks(t, n - 1), true)
  }

  /** From `r` seconds, the countdown runs `max(r, 0)` ticks, the next tick
      calls the time-up action, and it is never called again. */
  lemma {:induction false} TimeUpExactlyOnce(r: int, d: Option<string>, n: nat)
    ensures var last := if r > 0 then r else 0;
      var s := Ticks(Timer(r, true, 0, d), n);
      s.running == (n <= last) &&
      s.timeUpCalls == (if n <= last then 0 else 1) &&
      s.remaining == (if n <= last then r - n else if r > 0 then 0 else r)
  {
    if n > 0 {
      TimeUpExactlyOnce(r, d, n - 1);
    }
  }

  /** A started countdown: the interval that `startTimer` sets up. */
  class Countdown {
    var remaining: int
    var running: bool
    var timeUpCalls: nat
    var display: Option<string>

    function State(): Timer
      reads this
    {
      Timer(remaining, running, timeUpCalls, display)
    }

    /** `startTimer({timeLimitInMinutes, ...})`: `timeLimitInMinutes * 60`
        seconds left and nothing displayed yet. */
    constructor (limitMinutes: int)
      ensures State() == Started(limitMinutes)
      ensures remaining == limitMinutes * 60
    {
      remaining := limitMinutes * 60;
      running := true;
      timeUpCalls := 0;
      display := None;
    }

    /** One firing of the interval. */
    method Fire(displayPresent: bool)
      requires running
      modifies this
      ensures State() == Tick(old(State()), displayPresent)
    {
      if displayPresent {
        display := Some(Format(remaining));
      }
      if remaining <= 0 {
        running := false;
        timeUpCalls := timeUpCalls + 1;
      } else {
        remaining := remaining - 1;
      }
    }
  }

  // ---------------------------------------------------------------------
  // The per-question guards
  // ---------------------------------------------------------------------

  /** An input of a question box. */
  datatype Input = Input(name: string, value: string, checked: bool, disabled: bool)

  /** A question box: its inputs, the time-up messages it holds, and whether
      its timed prompt is hidden and its content shown. */
  datatype QuestionBox = QuestionBox(inputs: seq<Input>, timeUpMessages: nat, promptHidden: bool, contentShown: bool)

  /** `questionBox.querySelector('input:checked')`: the first checked input. */
  function FirstChecked(inputs: seq<Input>): (r: Option<Input>)
    ensures r.Some? ==> r.value in inputs && r.value.checked
    ensures r.Some? ==> exists k :: (0 <= k < |inputs| && inputs[k] == r.value &&
      forall j :: 0 <= j < k ==> !inputs[j].checked)
    ensures r.None? ==> forall k :: 0 <= k < |inputs| ==> !inputs[k].checked
  {
    if inputs == [] then None
    else if inputs[0].checked then Some(inputs[0])
    else
      var r := FirstChecked(inputs[1..]);
      assert r.Some? ==> exists k :: (1 <= k < |inputs| && inputs[k] == r.value &&
        forall j :: 0 <= j < k ==> !inputs[j].checked) by {
        if r.Some? {
          var k :| 0 <= k < |inputs[1..]| && inputs[1..][k] == r.value &&
            forall j :: 0 <= j < k ==> !inputs[1..][j].checked;
          assert inputs[k + 1] == r.value;
          forall j | 0 <= j < k + 1 ensures !inputs[j].checked {
            if j > 0 { assert inputs[j] == inputs[1..][j - 1]; }
          }
        }
      }
      r
  }

  /** A hidden input of the quiz form carries `name`. */
  predicate HasHidden(hidden: seq<(string, string)>, name: string) {
    exists k :: 0 <= k < |hidden| && hidden[k].0 == name
  }

  /** Every input disabled, nothing else changed. */
  function DisableAll(inputs: seq<Input>): (r: seq<Input>)
    ensures |r| == |inputs|
    ensures forall k :: 0 <= k < |inputs| ==> r[k] == inputs[k].(disabled := true)
  {
    seq(|inputs|, k requires 0 <= k < |inputs| => inputs[k].(disabled := true))
  }

  /** What `disableQuestionInputs` does to the hidden inputs of the form: the
      checked answer is copied into a hidden input, unless the form is
      missing or already has a hidden input with that name. */
  function MirrorChecked(inputs: seq<Input>, formPresent: bool, hidden: seq<(string, string)>): seq<(string, string)> {
    match FirstChecked(inputs)
    case None => hidden
    case Some(c) =>
      if formPresent && !HasHidden(hidden, c.name) then hidden + [(c.name, c.value)] else hidden
  }

  /** What `disableQuestionInputs` does to a question box that exists. */
  function DisabledBox(box: QuestionBox): QuestionBox {
    box.(inputs := DisableAll(box.inputs), timeUpMessages := if box.timeUpMessages == 0 then 1 else box.timeUpMessages)
  }

  /** The answer chosen before time ran out is still submitted: the form
      ends up with a hidden input of that name, and a hidden input is added
      only when none of that name was there. */
  lemma CheckedAnswerStillSubmitted(inputs: seq<Input>, hidden: seq<(string, string)>)
    requires FirstChecked(inputs).Some?
    ensures var c := FirstChecked(inputs).value; var h := MirrorChecked(inputs, true, hidden);
      HasHidden(h, c.name) &&
      (HasHidden(hidden, c.name) ==> h == hidden) &&
      (!HasHidden(hidden, c.name) ==> h == hidden + [(c.name, c.value)])
  {
    var c := FirstChecked(inputs).value;
    var h := MirrorChecked(inputs, true, hidden);
    if !HasHidden(hidden, c.name) {
      assert h[|hidden|].0 == c.name;
    }
  }

  /** Running out of time twice on a question changes nothing more: no
      second hidden input, no second time-up message. */
  lemma DisableTwiceIsDisableOnce(box: QuestionBox, formPresent: bool, hidden: seq<(string, string)>)
    ensures DisabledBox(DisabledBox(box)) == DisabledBox(box)
    ensures var once := MirrorChecked(box.inputs, formPresent, hidden);
      MirrorChecked(DisabledBox(box).inputs, formPresent, once) == once
    ensures DisabledBox(box).timeUpMessages >= 1
    ensures box.timeUpMessages == 0 ==> DisabledBox(box).timeUpMessages == 1
  {
    var once := MirrorChecked(box.inputs, formPresent, hidden);
    FirstCheckedOfDisabled(box.inputs);
    if FirstChecked(box.inputs).Some? && formPresent {
      CheckedAnswerStillSubmitted(box.inputs, hidden);
    }
    assert DisableAll(DisableAll(box.inputs)) == DisableAll(box.inputs);
  }

  /** Disabling keeps which input is checked first, up to its flag. */
  lemma {:induction false} FirstCheckedOfDisabled(inputs: seq<Input>)
    ensures FirstChecked(DisableAll(inputs)).Some? == FirstChecked(inputs).Some?
    ensures FirstChecked(inputs).Some? ==>
      FirstChecked(DisableAll(inputs)).value == FirstChecked(inputs).value.(disabled := true)
  {
    if inputs != [] && !inputs[0].checked {
      FirstCheckedOfDisabled(inputs[1..]);
      assert DisableAll(inputs)[1..] == DisableAll(inputs[1..]);
    }
  }

  /** `disableQuestionInputs` as written: it asks the box for its inputs
      before checking that the box exists, so a missing box throws a
      TypeError and the check below it never logs. A present box is handled
      as by `QuizPage.DisableQuestionInputs`. */
  function DisableAsWritten(boxes: map<string, QuestionBox>, questionId: string, formPresent: bool,
                            hidden: seq<(string, string)>): (r: Result<(map<string, QuestionBox>, seq<(string, string)>), string>)
    ensures questionId !in boxes ==> r.Failure?
    ensures questionId in boxes ==>
      r == Success((boxes[questionId := DisabledBox(boxes[questionId])], MirrorChecked(boxes[questionId].inputs, formPresent, hidden)))
  {
    if questionId !in boxes then Failure("TypeError: Cannot read properties of null (reading 'querySelectorAll')")
    else
      var box := boxes[questionId];
      Success((boxes[questionId := DisabledBox(box)], MirrorChecked(box.inputs, formPresent, hidden)))
  }

  /** A page without the box: the as-written handler throws instead of
      logging that no question box was found. */
  lemma DisableAsWrittenThrowsWithoutBox()
    ensures DisableAsWritten(map[], "7", true, []).Failure?
    ensures DisableAsWritten(map[], "7", true, []).error != MissingBoxMessage("7")
  {
    assert MissingBoxMessage("7")[0] == 'N';
  }

  /** The message the null check means to log. */
  function MissingBoxMessage(questionId: string): string {
    "No question box found for questionId \"" + questionId + "\""
  }

  /** The quiz page: its question boxes by `data-question-id`, the hidden
      inputs of the quiz form, the questions whose timer was started (and
      their markers), the submit button, and the messages shown. */
  class QuizPage {
    var boxes: map<string, QuestionBox>
    const formPresent: bool
    var hidden: seq<(string, string)>
    /** Ids with a `question-toggled-<id>` marker. */
    var toggled: set<string>
    /** Question timers started, as (question id, minutes), oldest first. */
    var timers: seq<(string, int)>
    var submitDisabled: bool
    var submitted: bool
    var alerts: seq<string>
    var errors: seq<string>

    /** Each started timer has its marker, and each marker its one timer. */
    ghost predicate Valid()
      reads this
    {
      (forall i, j :: 0 <= i < j < |timers| ==> timers[i].0 != timers[j].0) &&
      (forall i :: 0 <= i < |timers| ==> timers[i].0 in toggled) &&
      (forall q :: q in toggled ==> exists i :: 0 <= i < |timers| && timers[i].0 == q)
    }

    /** The page as loaded: no question opened, nothing submitted. */
    constructor (boxes: map<string, QuestionBox>, formPresent: bool)
      ensures Valid() && this.boxes == boxes && this.formPresent == formPresent
      ensures hidden == [] && toggled == {} && timers == [] && alerts == [] && errors == []
      ensures !submitDisabled && !submitted
    {
      this.boxes := boxes;
      this.formPresent := formPresent;
      hidden := [];
      toggled := {};
      timers := [];
      submitDisabled := false;
      submitted := false;
      alerts := [];
      errors := [];
    }

    /** `disableQuestionInputs`, with its null check taking effect: a missing
        box is logged and nothing changes; otherwise every input of the box
        is disabled, the checked answer is mirrored into a hidden input once,
        and the time-up message is added once. */
    method DisableQuestionInputs(questionId: string)
      modifies this
      ensures toggled == old(toggled) && timers == old(timers) && alerts == old(alerts)
      ensures submitDisabled == old(submitDisabled) && submitted == old(submitted)
      ensures questionId !in old(boxes) ==>
        (boxes == old(boxes) && hidden == old(hidden) && errors == old(errors) + [MissingBoxMessage(questionId)])
      ensures questionId in old(boxes) ==>
        (Success((boxes, hidden)) == DisableAsWritten(old(boxes), questionId, formPresent, old(hidden)) &&
         errors == old(errors))
      ensures old(Valid()) ==> Valid()
    {
      if questionId !in boxes {
        errors := errors + [MissingBoxMessage(questionId)];
        return;
      }
      var box := boxes[questionId];
      var inputs := box.inputs;
      var disabled: seq<Input> := [];
      for k := 0 to |inputs|
        invariant disabled == DisableAll(inputs[..k])
      {
        disabled := disabled + [inputs[k].(disabled := true)];
      }
      assert inputs[..|inputs|] == inputs;
      var checked := FirstChecked(inputs);
      if checked.Some? && formPresent && !HasHidden(hidden, checked.value.name) {
        hidden := hidden + [(checked.value.name, checked.value.value)];
      }
      var messages := if box.timeUpMessages == 0 then 1 else box.timeUpMessages;
      boxes := boxes[questionId := box.(inputs := disabled, timeUpMessages := messages)];
    }

    /** `handleViewQuestionClick` on the button of box `questionId`: a
        question already opened is ignored; a missing time limit is logged;
        otherwise, when the user confirms, the question's timer is started,
        its prompt hidden, its content shown and its marker added. */
    method ViewQuestion(questionId: string, limit: Option<int>, confirmed: bool)
      requires Valid() && questionId in boxes
      modifies this
      ensures Valid() && hidden == old(hidden) && alerts == old(alerts)
      ensures submitDisabled == old(submitDisabled) && submitted == old(submitted)
      ensures questionId in old(toggled) || limit.None? || !confirmed ==>
        (timers == old(timers) && toggled == old(toggled) && boxes == old(boxes))
      ensures questionId !in old(toggled) && limit.None? ==>
        errors == old(errors) + ["No element with id=\"question-time-limit-" + questionId + "\" found."]
      ensures !(questionId !in old(toggled) && limit.None?) ==> errors == old(errors)
      ensures questionId !in old(toggled) && limit.Some? && confirmed ==>
        (timers == old(timers) + [(questionId, limit.value)] && toggled == old(toggled) + {questionId} &&
         boxes == old(boxes)[questionId := old(boxes)[questionId].(promptHidden := true, contentShown := true)])
    {
      if questionId in toggled {
        return;
      }
      if limit.None? {
        errors := errors + ["No element with id=\"question-time-limit-" + questionId + "\" found."];
        return;
      }
      if !confirmed {
        return;
      }
      assert forall i :: 0 <= i < |timers| ==> timers[i].0 != questionId;
      timers := timers + [(questionId, limit.value)];
      var box := boxes[questionId];
      boxes := boxes[questionId := box.(promptHidden := true, contentShown := true)];
      toggled := toggled + {questionId};
      forall q | q in toggled
        ensures exists i :: 0 <= i < |timers| && timers[i].0 == q
      {
        if q == questionId {
          assert timers[|timers| - 1].0 == q;
        } else {
          var i :| 0 <= i < |old(timers)| && old(timers)[i].0 == q;
          assert timers[i] == old(timers)[i];
        }
      }
    }

    /** The time-up action of the whole quiz: the submit button (when there
        is one) is disabled, the user told, and the form (when there is one)
        submitted. */
    method QuizTimeUp(submitButtonPresent: bool)
      modifies this
      ensures submitDisabled == (old(submitDisabled) || submitButtonPresent)
      ensures alerts == old(alerts) + ["Time's up! Your answers have been submitted."]
      ensures submitted == (old(submitted) || formPresent)
      ensures boxes == old(boxes) && hidden == old(hidden) && toggled == old(toggled) && timers == old(timers)
      ensures errors == old(errors)
    {
      if submitButtonPresent {
        submitDisabled := true;
      }
      alerts := alerts + ["Time's up! Your answers have been submitted."];
      if formPresent {
        submitted := true;
      }
    }
  }
}
