/**
  The flashcard deck of the server-rendered pages (LMS/static/js/flashcard.js).
  Unlike the React page it never wraps round: the index is clamped to the
  deck and the arrow buttons are disabled at the ends. Each card box keeps
  its own state: whether it is hidden (`d-none`), whether it is flipped,
  and the inline display of its question and answer sides.
 */
module FlashcardScript {

  /** An element's inline `style.display`: not set yet, "block" or "none". */
  datatype Display = Unset | Block | NoneShown

  /** The clamped step forward of `nextFlashcard`. */
  function Forward(index: int, count: nat): (r: int)
    ensures index < count - 1 ==> r == index + 1
    ensures index >= count - 1 ==> r == index
  {
    if index < count - 1 then index + 1 else index
  }

  /** The clamped step back of `previousFlashcard`. */
  function Back(index: int): (r: int)
    ensures index > 0 ==> r == index - 1
    ensures index <= 0 ==> r == index
  {
    if index > 0 then index - 1 else index
  }

  /** Clamped navigation stays on the deck, never wraps, and going back
      undoes a step forward that moved. */
  lemma ClampedNavigation(index: int, count: nat)
    requires 0 <= index < count
    ensures 0 <= Forward(index, count) < count && 0 <= Back(index) < count
    ensures Forward(index, count) >= index && Back(index) <= index
    ensures index < count - 1 ==> Back(Forward(index, count)) == index
    ensures index > 0 ==> Forward(Back(index), count) == index
  {
  }

  /** `k` presses of the next button from `index` reach card
      `min(index + k, count - 1)`: the last card, and no further. */
  function ForwardTimes(index: int, count: nat, k: nat): int {
    if k == 0 then index else Forward(ForwardTimes(index, count, k - 1), count)
  }

  lemma {:induction false} ForwardTimesClamps(index: int, count: nat, k: nat)
    requires 0 <= index < count
    ensures ForwardTimes(index, count, k) == if index + k < count - 1 then index + k else count - 1
  {
    if k > 0 {
      ForwardTimesClamps(index, count, k - 1);
    }
  }

  class Deck {
    /** The number of card boxes on the page. */
    const count: nat
    /** `flashcardIndex`. */
    var index: int
    var previousDisabled: bool
    var nextDisabled: bool
    /** Per box: `d-none` in its class list. */
    const hidden: array<bool>
    /** Per box: `flipped` in its class list. */
    const flipped: array<bool>
    /** Per box: the inline display of its question and answer sides. */
    const questionDisplay: array<Display>
    const answerDisplay: array<Display>

    ghost predicate Valid()
      reads this
    {
      hidden.Length == count && flipped.Length == count &&
      questionDisplay.Length == count && answerDisplay.Length == count &&
      hidden != flipped && questionDisplay != answerDisplay
    }

    /** The state the script keeps once loaded: the index is on the deck
        (0 for an empty one), each arrow is disabled exactly at its end,
        and exactly the current box is shown. */
    ghost predicate Consistent()
      reads this, hidden
    {
      Valid() &&
      0 <= index && (count == 0 ==> index == 0) && (count > 0 ==> index < count) &&
      previousDisabled == (index == 0) && nextDisabled == (index >= count - 1) &&
      forall k :: 0 <= k < count ==> hidden[k] == (k != index)
    }

    /** Every box shows its question side and is not flipped. */
    ghost predicate AllOnQuestionSide()
      reads this, flipped, questionDisplay, answerDisplay
      requires Valid()
    {
      forall k :: 0 <= k < count ==>
        !flipped[k] && questionDisplay[k] == Block && answerDisplay[k] == NoneShown
    }

    /** The `DOMContentLoaded` handler: only the first box is shown, the
        previous button is disabled, and so is the next button on a deck of
        at most one card (otherwise it keeps its state from the page).
        `flippedAtLoad` gives the boxes as the page renders them. */
    constructor (flippedAtLoad: seq<bool>, nextDisabledAtLoad: bool)
      ensures Valid() && count == |flippedAtLoad| && index == 0 && previousDisabled
      ensures nextDisabled == (count <= 1 || nextDisabledAtLoad)
      ensures forall k :: 0 <= k < count ==> hidden[k] == (k != 0)
      ensures flipped[..] == flippedAtLoad
      ensures forall k :: 0 <= k < count ==> questionDisplay[k] == Unset && answerDisplay[k] == Unset
      ensures !nextDisabledAtLoad ==> Consistent()
      ensures fresh(hidden) && fresh(flipped) && fresh(questionDisplay) && fresh(answerDisplay)
    {
      count := |flippedAtLoad|;
      index := 0;
      previousDisabled := false;
      nextDisabled := nextDisabledAtLoad;
      hidden := new bool[|flippedAtLoad|](_ => false);
      flipped := new bool[|flippedAtLoad|](k requires 0 <= k < |flippedAtLoad| => flippedAtLoad[k]);
      questionDisplay := new Display[|flippedAtLoad|](_ => Unset);
      answerDisplay := new Display[|flippedAtLoad|](_ => Unset);
      new;
      HideAllExcept(0);
      previousDisabled := true;
      if count <= 1 {
        nextDisabled := true;
      }
    }

    /** `hideAllFlashcardsExcept(i)`: box `i` alone loses `d-none`. */
    method HideAllExcept(i: int)
      requires Valid()
      modifies hidden
      ensures forall k :: 0 <= k < count ==> hidden[k] == (k != i)
    {
      for k := 0 to count
        invariant forall j :: 0 <= j < k ==> hidden[j] == (j != i)
      {
        hidden[k] := k != i;
      }
    }

    /** `flipAllFlashCardsToQuestion`: every box back on its question side. */
    method FlipAllToQuestion()
      requires Valid()
      modifies flipped, questionDisplay, answerDisplay
      ensures AllOnQuestionSide()
    {
      for k := 0 to count
        invariant forall j :: 0 <= j < k ==>
          !flipped[j] && questionDisplay[j] == Block && answerDisplay[j] == NoneShown
      {
        questionDisplay[k] := Block;
        answerDisplay[k] := NoneShown;
        flipped[k] := false;
      }
    }

    /** `nextFlashcard`: a clamped step forward; moving enables the previous
        button, landing on the last card disables the next one; then only
        the current box is shown, on its question side. */
    method Next()
      requires Valid()
      modifies this, hidden, flipped, questionDisplay, answerDisplay
      ensures Valid() && index == Forward(old(index), count)
      ensures previousDisabled == (if old(index) < count - 1 then false else old(previousDisabled))
      ensures nextDisabled == (old(nextDisabled) || index == count - 1)
      ensures forall k :: 0 <= k < count ==> hidden[k] == (k != index)
      ensures AllOnQuestionSide()
      ensures old(Consistent()) ==> Consistent()
    {
      if index < count - 1 {
        index := index + 1;
        previousDisabled := false;
      }
      if index == count - 1 {
        nextDisabled := true;
      }
      HideAllExcept(index);
      FlipAllToQuestion();
    }

    /** `previousFlashcard`: a clamped step back; moving enables the next
        button, landing on the first card disables the previous one; then
        only the current box is shown, on its question side. */
    method Previous()
      requires Valid()
      modifies this, hidden, flipped, questionDisplay, answerDisplay
      ensures Valid() && index == Back(old(index))
      ensures nextDisabled == (if old(index) > 0 then false else old(nextDisabled))
      ensures previousDisabled == (old(previousDisabled) || index == 0)
      ensures forall k :: 0 <= k < count ==> hidden[k] == (k != index)
      ensures AllOnQuestionSide()
      ensures old(Consistent()) ==> Consistent()
    {
      if index > 0 {
        index := index - 1;
        nextDisabled := false;
      }
      if index == 0 {
        previousDisabled := true;
      }
      HideAllExcept(index);
      FlipAllToQuestion();
    }

    /** A click on box `i`: ignored unless it hit the question or the answer
        side; otherwise the box flips, and the answer side is shown exactly
        when it is flipped. */
    method Click(i: nat, onCardSide: bool)
      requires Valid() && i < count
      modifies flipped, questionDisplay, answerDisplay
      ensures !onCardSide ==>
        (flipped[..] == old(flipped[..]) && questionDisplay[..] == old(questionDisplay[..]) &&
         answerDisplay[..] == old(answerDisplay[..]))
      ensures onCardSide ==>
        (flipped[..] == old(flipped[..])[i := !old(flipped[i])] &&
         questionDisplay[..] == old(questionDisplay[..])[i := if flipped[i] then NoneShown else Block] &&
         answerDisplay[..] == old(answerDisplay[..])[i := if flipped[i] then Block else NoneShown])
    {
      if !onCardSide {
        return;
      }
      flipped[i] := !flipped[i];
      if flipped[i] {
        questionDisplay[i] := NoneShown;
        answerDisplay[i] := Block;
      } else {
        questionDisplay[i] := Block;
        answerDisplay[i] := NoneShown;
      }
    }
  }
}
