/**
  The quiz store of the React client (frontend/src/context/QuizContext.tsx):
  the list of quizzes of a module, the viewer's role flags as the server
  reported them, a loading flag, an error text and the alerts shown.
 */
module QuizContext {
  import opened Wrappers
  import opened Text
  import opened KeyedLists
  import opened QuizDrafts
  import opened Http

  /** A quiz as the server returns it (the creator's name is not modelled). */
  datatype Quiz = Quiz(
    id: int, title: string, description: string,
    totalMark: int, timeLimit: int, attemptsAllowed: int)

  function QuizId(q: Quiz): int { q.id }

  /** The body of `GET /quizzes/<module>`; an absent key is `None`. */
  datatype QuizList = QuizList(quizzes: Option<seq<Quiz>>, isStaff: Option<bool>, isInstructor: Option<bool>)

  /** The form `addQuiz` posts. `stringify` stands for `JSON.stringify`. */
  function QuizForm(data: QuizFormData, stringify: seq<QuestionValue> -> string): (form: FormData)
    ensures |form| >= 4 && form[|form| - 1] == ("questions", stringify(data.questions))
  {
    var h := data.header;
    [("module_id", IntToString(h.moduleId)), ("quiz_title", h.title), ("quiz_description", h.description)]
    + AppendIf(Truthy(h.totalMark), "total_mark", ScalarToString(h.totalMark))
    + AppendIf(Truthy(h.timeLimit), "time_limit", ScalarToString(h.timeLimit))
    + AppendIf(Truthy(h.attemptsAllowed), "attempts_allowed", ScalarToString(h.attemptsAllowed))
    + [("questions", stringify(data.questions))]
  }

  /** What the server receives: the module, title and description always;
      the total mark, the time limit and the number of attempts only when
      they are truthy, so a 0, an empty text or a null is not sent at all;
      and the questions as JSON. */
  lemma QuizFormFields(data: QuizFormData, stringify: seq<QuestionValue> -> string)
    ensures var form := QuizForm(data, stringify); var h := data.header;
      Get(form, "module_id") == Some(IntToString(h.moduleId)) &&
      Get(form, "quiz_title") == Some(h.title) &&
      Get(form, "quiz_description") == Some(h.description) &&
      Get(form, "total_mark") == (if Truthy(h.totalMark) then Some(ScalarToString(h.totalMark)) else None) &&
      Get(form, "time_limit") == (if Truthy(h.timeLimit) then Some(ScalarToString(h.timeLimit)) else None) &&
      Get(form, "attempts_allowed") == (if Truthy(h.attemptsAllowed) then Some(ScalarToString(h.attemptsAllowed)) else None) &&
      Get(form, "questions") == Some(stringify(data.questions))
  {
    var h := data.header;
    var a := [("module_id", IntToString(h.moduleId)), ("quiz_title", h.title), ("quiz_description", h.description)];
    var b := AppendIf(Truthy(h.totalMark), "total_mark", ScalarToString(h.totalMark));
    var c := AppendIf(Truthy(h.timeLimit), "time_limit", ScalarToString(h.timeLimit));
    var d := AppendIf(Truthy(h.attemptsAllowed), "attempts_allowed", ScalarToString(h.attemptsAllowed));
    var e := [("questions", stringify(data.questions))];
    var form := a + b + c + d + e;
    assert form == QuizForm(data, stringify);
    assert Get(form, "module_id") == Some(IntToString(h.moduleId)) by {
      GetInFive(a, b, c, d, e, "module_id");
    }
    assert Get(form, "quiz_title") == Some(h.title) by {
      GetInFive(a, b, c, d, e, "quiz_title");
    }
    assert Get(form, "quiz_description") == Some(h.description) by {
      assert a[1..][1..] == [("quiz_description", h.description)];
      assert Get(a[1..][1..], "quiz_description") == Some(h.description);
      assert Get(a[1..], "quiz_description") == Some(h.description);
      GetInFive(a, b, c, d, e, "quiz_description");
    }
    assert Get(form, "total_mark") == (if Truthy(h.totalMark) then Some(ScalarToString(h.totalMark)) else None) by {
      GetMissing(a, "total_mark");
      GetInFive(a, b, c, d, e, "total_mark");
    }
    assert Get(form, "time_limit") == (if Truthy(h.timeLimit) then Some(ScalarToString(h.timeLimit)) else None) by {
      GetMissing(a, "time_limit");
      GetInFive(a, b, c, d, e, "time_limit");
    }
    assert Get(form, "attempts_allowed") == (if Truthy(h.attemptsAllowed) then Some(ScalarToString(h.attemptsAllowed)) else None) by {
      GetMissing(a, "attempts_allowed");
      GetInFive(a, b, c, d, e, "attempts_allowed");
    }
    assert Get(form, "questions") == Some(stringify(data.questions)) by {
      GetMissing(a, "questions");
      GetMissing(b, "questions");
      GetMissing(c, "questions");
      GetMissing(d, "questions");
      GetInFive(a, b, c, d, e, "questions");
    }
  }

  /** Looking a name up in five forms appended together. */
  lemma GetInFive(a: FormData, b: FormData, c: FormData, d: FormData, e: FormData, name: string)
    ensures Get(a + b + c + d + e, name) ==
      if Get(a, name).Some? then Get(a, name)
      else if Get(b, name).Some? then Get(b, name)
      else if Get(c, name).Some? then Get(c, name)
      else if Get(d, name).Some? then Get(d, name)
      else Get(e, name)
  {
    GetAppend(a + b + c + d, e, name);
    GetAppend(a + b + c, d, name);
    GetAppend(a + b, c, name);
    GetAppend(a, b, name);
  }

  class QuizStore {
    var quizzes: seq<Quiz>
    var loading: bool
    var error: Option<string>
    /** `None` when the last response did not carry the flag. */
    var isStaff: Option<bool>
    var isInstructor: Option<bool>
    /** The `alert` messages shown, oldest first. */
    var alerts: seq<string>

    constructor ()
      ensures quizzes == [] && !loading && error.None? && alerts == []
      ensures isStaff == Some(false) && isInstructor == Some(false)
    {
      quizzes := [];
      loading := false;
      error := None;
      isStaff := Some(false);
      isInstructor := Some(false);
      alerts := [];
    }

    /** `fetchQuizzes`: without a token only the error is set and nothing is
        requested; a reply replaces the list (an absent list reads as empty)
        and the role flags; a failure sets the error and keeps the list. */
    method FetchQuizzes(token: Option<string>, reply: Reply<QuizList>) returns (requested: bool)
      modifies this
      ensures requested == HasToken(token) && alerts == old(alerts)
      ensures !requested ==>
        (error == Some("No access token available") && quizzes == old(quizzes) && loading == old(loading) &&
         isStaff == old(isStaff) && isInstructor == old(isInstructor))
      ensures requested ==> !loading
      ensures requested && reply.Ok? ==>
        (quizzes == OrEmpty(reply.body.quizzes) && error == old(error) &&
         isStaff == reply.body.isStaff && isInstructor == reply.body.isInstructor)
      ensures requested && reply.Failed? ==>
        (quizzes == old(quizzes) && error == Some("Failed to fetch quizzes") &&
         isStaff == old(isStaff) && isInstructor == old(isInstructor))
    {
      if !HasToken(token) {
        error := Some("No access token available");
        return false;
      }
      requested := true;
      loading := true;
      match reply {
        case Ok(body) =>
          quizzes := OrEmpty(body.quizzes);
          isStaff := body.isStaff;
          isInstructor := body.isInstructor;
        case Failed(_) =>
          error := Some("Failed to fetch quizzes");
      }
      loading := false;
    }

    /** `addQuiz`: posts `QuizForm(data)`; the returned quiz is appended at
        the end; a failure only raises an alert. The error is never rethrown. */
    method AddQuiz(data: QuizFormData, stringify: seq<QuestionValue> -> string, reply: Reply<Quiz>)
      returns (sent: FormData)
      modifies this
      ensures sent == QuizForm(data, stringify)
      ensures !loading && error == old(error) && isStaff == old(isStaff) && isInstructor == old(isInstructor)
      ensures reply.Ok? ==> quizzes == old(quizzes) + [reply.body] && alerts == old(alerts)
      ensures reply.Failed? ==>
        (quizzes == old(quizzes) &&
         alerts == old(alerts) + ["An error occurred while adding the quiz: " + OrUnknown(reply.message)])
    {
      loading := true;
      sent := QuizForm(data, stringify);
      match reply {
        case Ok(quiz) =>
          quizzes := quizzes + [quiz];
        case Failed(message) =>
          alerts := alerts + ["An error occurred while adding the quiz: " + OrUnknown(message)];
      }
      loading := false;
    }

    /** `deleteQuiz`: an id not in the list only raises "Quiz not found"; a
        successful request removes every quiz with that id; a failed one
        raises an alert and keeps the list. */
    method DeleteQuiz(id: int, succeeded: bool) returns (requested: bool)
      modifies this
      ensures requested == HasId(old(quizzes), id, QuizId)
      ensures loading == old(loading) && error == old(error)
      ensures isStaff == old(isStaff) && isInstructor == old(isInstructor)
      ensures !requested ==> quizzes == old(quizzes) && alerts == old(alerts) + ["Quiz not found"]
      ensures requested && succeeded ==> quizzes == RemoveId(old(quizzes), id, QuizId) && alerts == old(alerts)
      ensures requested && !succeeded ==>
        (quizzes == old(quizzes) &&
         alerts == old(alerts) + ["An error occurred while deleting the quiz. Please try again."])
    {
      if !HasId(quizzes, id, QuizId) {
        alerts := alerts + ["Quiz not found"];
        return false;
      }
      requested := true;
      if succeeded {
        quizzes := RemoveId(quizzes, id, QuizId);
      } else {
        alerts := alerts + ["An error occurred while deleting the quiz. Please try again."];
      }
    }
  }
}
