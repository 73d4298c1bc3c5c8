/**
  The quiz-taking page (frontend/src/components/coursePage/modules/quiz/QuizPage.tsx):
  the list of chosen answers, kept with at most one entry per question, and
  the options a question offers.
 */
module QuizPage {
  import opened Wrappers

  /** One chosen answer: `{question_id, answer_text}`. */
  datatype Answer = Answer(questionId: int, answerText: string)

  /** `answers.findIndex(a => a.question_id === questionId)`. */
  function FindIndex(answers: seq<Answer>, questionId: int): (r: int)
    ensures -1 <= r < |answers|
    ensures r >= 0 ==> answers[r].questionId == questionId
    ensures forall k :: 0 <= k < |answers| && (r == -1 || k < r) ==> answers[k].questionId != questionId
  {
    if answers == [] then -1
    else if answers[0].questionId == questionId then 0
    else
      var r := FindIndex(answers[1..], questionId);
      if r == -1 then -1 else r + 1
  }

  /** The state update of `handleAnswerChange`: the entry of the question, if
      any, gets the new text; otherwise a new entry is appended. */
  function UpsertAnswer(answers: seq<Answer>, questionId: int, value: string): seq<Answer> {
    var existing := FindIndex(answers, questionId);
    if existing != -1 then
      seq(|answers|, k requires 0 <= k < |answers| =>
        if k == existing then answers[k].(answerText := value) else answers[k])
    else answers + [Answer(questionId, value)]
  }

  /** At most one entry per question. */
  predicate UniqueQuestions(answers: seq<Answer>) {
    forall i, j :: 0 <= i < j < |answers| ==> answers[i].questionId != answers[j].questionId
  }

  /** The text chosen for a question: that of its first entry. */
  function AnswerFor(answers: seq<Answer>, questionId: int): (r: Option<string>)
    ensures r.None? <==> forall k :: 0 <= k < |answers| ==> answers[k].questionId != questionId
  {
    var i := FindIndex(answers, questionId);
    if i == -1 then None else Some(answers[i].answerText)
  }

  /** Changing the answer of a question that has an entry rewrites only that
      entry's text: the length, the other entries and their positions stay. */
  lemma UpsertExisting(answers: seq<Answer>, questionId: int, value: string)
    requires exists k :: 0 <= k < |answers| && answers[k].questionId == questionId
    ensures var r := UpsertAnswer(answers, questionId, value);
      var i := FindIndex(answers, questionId);
      |r| == |answers| && 0 <= i < |answers| &&
      r[i] == Answer(questionId, value) &&
      forall k :: 0 <= k < |answers| && k != i ==> r[k] == answers[k]
  {
  }

  /** Answering a question without an entry appends one at the end. */
  lemma UpsertNew(answers: seq<Answer>, questionId: int, value: string)
    requires forall k :: 0 <= k < |answers| ==> answers[k].questionId != questionId
    ensures UpsertAnswer(answers, questionId, value) == answers + [Answer(questionId, value)]
  {
  }

  /** The update keeps at most one entry per question. */
  lemma UpsertKeepsUnique(answers: seq<Answer>, questionId: int, value: string)
    requires UniqueQuestions(answers)
    ensures UniqueQuestions(UpsertAnswer(answers, questionId, value))
  {
  }

  /** Read as a map from question to text, the update sets the question's
      answer and leaves every other question's answer as it was. */
  lemma UpsertIsMapUpdate(answers: seq<Answer>, questionId: int, value: string, other: int)
    requires other != questionId
    ensures AnswerFor(UpsertAnswer(answers, questionId, value), questionId) == Some(value)
    ensures AnswerFor(UpsertAnswer(answers, questionId, value), other) == AnswerFor(answers, other)
  {
    var r := UpsertAnswer(answers, questionId, value);
    var i := FindIndex(answers, questionId);
    var j := FindIndex(answers, other);
    var ri := FindIndex(r, questionId);
    var rj := FindIndex(r, other);
    if i == -1 {
      assert r == answers + [Answer(questionId, value)];
      assert r[|answers|].questionId == questionId;
      assert ri == |answers|;
      if j != -1 {
        assert r[j] == answers[j];
        assert rj == j;
      } else {
        assert rj == -1;
      }
    } else {
      assert r[i].questionId == questionId;
      assert ri == i;
      if j != -1 {
        assert r[j] == answers[j];
        assert rj == j;
      } else {
        assert forall k :: 0 <= k < |r| ==> r[k].questionId == answers[k].questionId;
      }
    }
  }

  /** `handleSubmit`: the list is emptied only when the submission succeeded. */
  function AfterSubmit(answers: seq<Answer>, succeeded: bool): (r: seq<Answer>)
    ensures succeeded ==> r == []
    ensures !succeeded ==> r == answers
  {
    if succeeded then [] else answers
  }

  /** After a successful submit no question has an answer, so the next
      answer given starts a list of one entry; after a failure every
      question's answer is still there. */
  lemma AfterSubmitForgetsAnswers(answers: seq<Answer>, succeeded: bool, q: int, value: string)
    ensures succeeded ==> AnswerFor(AfterSubmit(answers, succeeded), q).None?
    ensures succeeded ==> UpsertAnswer(AfterSubmit(answers, succeeded), q, value) == [Answer(q, value)]
    ensures !succeeded ==> AnswerFor(AfterSubmit(answers, succeeded), q) == AnswerFor(answers, q)
  {
  }

  /** A question as the page renders it. */
  datatype Question = Question(id: nat, questionType: string, choices: seq<string>)

  /** The values the page lets a student pick for a question: the choices of
      an "MCQ" question, "True" and "False" for any other type. */
  function AnswerOptions(q: Question): (options: seq<string>)
    ensures q.questionType == "MCQ" ==> options == q.choices
    ensures q.questionType != "MCQ" ==> options == ["True", "False"]
  {
    if q.questionType == "MCQ" then q.choices else ["True", "False"]
  }

  /** A question that is not an MCQ offers two distinct options, the same
      whatever its stored choices hold. */
  lemma TrueFalseIgnoresChoices(q: Question, choices: seq<string>)
    requires q.questionType != "MCQ"
    ensures var options := AnswerOptions(q);
      |options| == 2 && options[0] != options[1] &&
      options == AnswerOptions(q.(choices := choices))
  {
  }
}
