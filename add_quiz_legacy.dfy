/**
  The older quiz builder (frontend/src/components/coursePages/modules/quiz/AddQuiz.tsx).

  It differs from the current one in three ways: editing the choices leaves
  the correct answer alone, a question type is normalised to "TF" or "MCQ",
  and new questions start with the type "".
 */
module AddQuizLegacy {
  import opened Wrappers
  import opened Text
  import opened KeyedLists
  import opened QuizDrafts

  /** `"TF"` stays `"TF"`; every other type is stored as `"MCQ"`. */
  function NormalizeType(value: string): (t: string)
    ensures t == "TF" || t == "MCQ"
    ensures t == "TF" <==> value == "TF"
  {
    if value == "TF" then "TF" else "MCQ"
  }

  /** The effect of this version's `handleQuestionChange` on the edited question. */
  function EditQuestion(q: QuestionValue, key: Field, value: string): (r: QuestionValue)
    ensures key == Choices ==> r == q.(choices := ParseChoices(value))
    ensures key == QuestionType ==> r == q.(questionType := NormalizeType(value))
    ensures key != Choices && key != QuestionType ==> r == SetField(q, key, value)
  {
    if key == Choices then q.(choices := ParseChoices(value))
    else
      var r := SetField(q, key, value);
      if key == QuestionType then r.(questionType := NormalizeType(value)) else r
  }

  /** Every edit leaves the question type either as it was or normalised,
      so a question whose type was ever edited has type "TF" or "MCQ". */
  lemma EditedTypeIsNormal(q: QuestionValue, key: Field, value: string)
    requires q.questionType == "TF" || q.questionType == "MCQ" || key == QuestionType
    ensures EditQuestion(q, key, value).questionType in {"TF", "MCQ"}
  {
  }

  /** Editing the choices never touches the correct answer, so it can stop
      being one of the choices. */
  lemma ChoicesEditKeepsCorrectAnswer(q: QuestionValue, value: string)
    ensures EditQuestion(q, Choices, value).correctAnswer == q.correctAnswer
    ensures EditQuestion(q, Choices, value).choices == ParseChoices(value)
  {
  }

  /** Since the correct answer is kept, it is offered after a choices edit
      only when the new pieces happen to hold it: one that is not among them
      is dropped from the choices, and one holding a comma or surrounding
      white space can never be offered again, whatever is typed. */
  lemma ChoicesEditCanDropCorrectAnswer(q: QuestionValue, value: string)
    ensures var r := EditQuestion(q, Choices, value);
      (q.correctAnswer !in ParseChoices(value) ==> r.correctAnswer !in r.choices) &&
      (',' in q.correctAnswer || Trim(q.correctAnswer) != q.correctAnswer ==> r.correctAnswer !in r.choices)
  {
    var r := EditQuestion(q, Choices, value);
    ParseChoicesShape(value);
    if r.correctAnswer in r.choices {
      var k :| 0 <= k < |r.choices| && r.choices[k] == r.correctAnswer;
      assert ',' !in r.choices[k] && Trim(r.choices[k]) == r.choices[k];
    }
  }

  class QuizForm {
    /** The module id from the page's route. */
    const routeModuleId: int
    var header: QuizHeader
    var questions: seq<QuestionDraft>
    var loading: bool
    var error: Option<string>

    /** No question object appears twice in the list. */
    ghost predicate Valid()
      reads this
    {
      forall i, j :: 0 <= i < j < |questions| ==> questions[i] != questions[j]
    }

    /** What `addQuiz` is handed on submit. */
    function Data(): QuizFormData
      reads this, questions
    {
      QuizFormData(header, DraftValues(questions))
    }

    /** The initial form: a blank header and one blank question of type "". */
    constructor (moduleId: int)
      ensures Valid() && !loading && error.None?
      ensures header == BlankHeader(moduleId) && DraftValues(questions) == [Blank("")]
    {
      routeModuleId := moduleId;
      header := BlankHeader(moduleId);
      var q := new QuestionDraft(Blank(""));
      questions := [q];
      loading := false;
      error := None;
    }

    /** `handleQuestionChange(index, e)` for the input named `key`: the
        choices are replaced in the existing object, any other field by a
        fresh copy (whose type is then normalised). */
    method HandleQuestionChange(index: nat, key: Field, value: string)
      requires Valid() && index < |questions|
      modifies this, questions[index]
      ensures Valid() && header == old(header) && loading == old(loading) && error == old(error)
      ensures DraftValues(questions) == old(DraftValues(questions))[index := EditQuestion(old(DraftValues(questions))[index], key, value)]
      ensures key == Choices ==> questions == old(questions)
      ensures key != Choices ==>
        (|questions| == |old(questions)| && fresh(questions[index]) &&
         forall k :: 0 <= k < |questions| && k != index ==> questions[k] == old(questions[k]))
    {
      var q := questions[index];
      ghost var before := DraftValues(questions);
      if key == Choices {
        q.choices := ParseChoices(value);
      } else {
        var copy := new QuestionDraft(SetField(q.Value(), key, value));
        questions := questions[index := copy];
      }
      if key == QuestionType {
        questions[index].questionType := NormalizeType(value);
      }
      assert questions[index].Value() == EditQuestion(before[index], key, value);
      forall k | 0 <= k < |questions| && k != index
        ensures questions[k] == old(questions[k]) && questions[k].Value() == before[k]
      {
      }
    }

    /** `addQuestion`: one blank question of type "" is appended. */
    method AddQuestion()
      requires Valid()
      modifies this
      ensures Valid() && header == old(header) && loading == old(loading) && error == old(error)
      ensures DraftValues(questions) == old(DraftValues(questions)) + [Blank("")]
      ensures |questions| == |old(questions)| + 1 && questions[..|old(questions)|] == old(questions)
      ensures fresh(questions[|questions| - 1])
    {
      var q := new QuestionDraft(Blank(""));
      questions := questions + [q];
    }

    /** `removeQuestion(index)`: the question at `index` is dropped. */
    method RemoveQuestion(index: int)
      requires Valid()
      modifies this
      ensures Valid() && header == old(header) && loading == old(loading) && error == old(error)
      ensures questions == RemoveIndex(old(questions), index)
      ensures DraftValues(questions) == RemoveIndex(old(DraftValues(questions)), index)
    {
      ghost var before := DraftValues(questions);
      questions := RemoveIndex(questions, index);
      if 0 <= index < |old(questions)| {
        forall k | 0 <= k < |questions|
          ensures questions[k] == old(questions)[if k < index then k else k + 1]
          ensures DraftValues(questions)[k] == RemoveIndex(before, index)[k]
        {
        }
        assert DraftValues(questions) == RemoveIndex(before, index);
      }
    }

    /** `handleSubmit`: on success the form is reset to a blank header and
        one blank question; on failure the error is set and the form kept. */
    method Submit(succeeded: bool) returns (sent: QuizFormData)
      requires Valid()
      modifies this
      ensures Valid() && !loading
      ensures sent == old(Data())
      ensures succeeded ==> header == BlankHeader(routeModuleId) && DraftValues(questions) == [Blank("")] && error == old(error)
      ensures !succeeded ==>
        (header == old(header) && questions == old(questions) && error == Some("Failed to add quiz"))
    {
      loading := true;
      sent := Data();
      if succeeded {
        header := BlankHeader(routeModuleId);
        var q := new QuestionDraft(Blank(""));
        questions := [q];
      } else {
        error := Some("Failed to add quiz");
      }
      loading := false;
    }
  }
}
