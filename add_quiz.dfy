/**
  The quiz builder (frontend/src/components/coursePage/modules/quiz/AddQuiz.tsx).

  The form state is a header and a list of question objects. As in the
  component, editing the choices of a question, or one of its choices,
  changes that question object in place, while editing any other field
  replaces it with a fresh copy.
 */
module AddQuiz {
  import opened Wrappers
  import opened Text
  import opened KeyedLists
  import opened QuizDrafts

  /** The effect of `handleQuestionChange` on the edited question. Editing
      the choices stores the parsed choices and makes the first of them the
      correct answer; editing another input stores its text under its name. */
  function EditQuestion(q: QuestionValue, key: Field, value: string): (r: QuestionValue)
    ensures key == Choices ==> r.choices == ParseChoices(value) && r.correctAnswer == r.choices[0]
    ensures key != Choices ==> r == SetField(q, key, value)
  {
    if key == Choices then
      var choices := ParseChoices(value);
      q.(choices := choices, correctAnswer := choices[0])
    else SetField(q, key, value)
  }

  /** Editing one input leaves every other field of the question as it was
      (editing the choices also rewrites the correct answer). */
  lemma EditQuestionKeepsOtherFields(q: QuestionValue, key: Field, value: string, f: Field)
    requires f != key && (key == Choices ==> f != CorrectAnswer)
    ensures FieldOf(EditQuestion(q, key, value), f) == FieldOf(q, f)
  {
  }

  /** After editing the choices, the correct answer is one of them: the
      trimmed text before the first comma. */
  lemma EditedCorrectAnswerIsFirstChoice(q: QuestionValue, value: string)
    ensures var r := EditQuestion(q, Choices, value);
      r.correctAnswer in r.choices && r.correctAnswer == Trim(Split(value, ",")[0]) &&
      ',' !in r.correctAnswer
  {
    ParseChoicesShape(value);
  }

  class QuizForm {
    /** The module id from the page's route. */
    const routeModuleId: int
    var header: QuizHeader
    var questions: seq<QuestionDraft>
    var loading: bool
    var error: Option<string>

    /** No question object appears twice in the list. */
    ghost predicate Valid()
      reads this
    {
      forall i, j :: 0 <= i < j < |questions| ==> questions[i] != questions[j]
    }

    /** What `addQuiz` is handed on submit. */
    function Data(): QuizFormData
      reads this, questions
    {
      QuizFormData(header, DraftValues(questions))
    }

    /** The initial form: a blank header and one blank "MCQ" question. */
    constructor (moduleId: int)
      ensures Valid() && !loading && error.None?
      ensures header == BlankHeader(moduleId) && DraftValues(questions) == [Blank("MCQ")]
    {
      routeModuleId := moduleId;
      header := BlankHeader(moduleId);
      var q := new QuestionDraft(Blank("MCQ"));
      questions := [q];
      loading := false;
      error := None;
    }

    /** `handleQuestionChange(index, e)` for the input named `key`. */
    method HandleQuestionChange(index: nat, key: Field, value: string)
      requires Valid() && index < |questions|
      modifies this, questions[index]
      ensures Valid() && header == old(header) && loading == old(loading) && error == old(error)
      ensures DraftValues(questions) == old(DraftValues(questions))[index := EditQuestion(old(DraftValues(questions))[index], key, value)]
      ensures key == Choices ==> questions == old(questions)
      ensures key != Choices ==>
        (|questions| == |old(questions)| && fresh(questions[index]) &&
         forall k :: 0 <= k < |questions| && k != index ==> questions[k] == old(questions[k]))
    {
      var edited := EditQuestion(questions[index].Value(), key, value);
      if key == Choices {
        SetChoices(index, edited.choices, edited.correctAnswer);
      } else {
        ReplaceQuestion(index, edited);
      }
    }

    /** `newQuestions[index].choices = choices` followed by
        `newQuestions[index].correct_answer = ...`: the question object at
        `index` is changed in place. */
    method SetChoices(index: nat, choices: seq<string>, correctAnswer: string)
      requires Valid() && index < |questions|
      modifies questions[index]
      ensures Valid()
      ensures DraftValues(questions) == old(DraftValues(questions))[index := old(DraftValues(questions))[index].(choices := choices, correctAnswer := correctAnswer)]
    {
      var q := questions[index];
      q.choices := choices;
      q.correctAnswer := correctAnswer;
    }

    /** `newQuestions[index] = {...}`: a fresh question object holding `v`
        takes the place of the one at `index`. */
    method ReplaceQuestion(index: nat, v: QuestionValue)
      requires Valid() && index < |questions|
      modifies this
      ensures Valid() && header == old(header) && loading == old(loading) && error == old(error)
      ensures DraftValues(questions) == old(DraftValues(questions))[index := v]
      ensures |questions| == |old(questions)| && fresh(questions[index])
      ensures forall k :: 0 <= k < |questions| && k != index ==> questions[k] == old(questions[k])
    {
      ghost var before := DraftValues(questions);
      var copy := new QuestionDraft(v);
      ReplaceWithNewKeepsDistinct(questions, index, copy);
      questions := questions[index := copy];
      forall k | 0 <= k < |questions| && k != index
        ensures questions[k] == old(questions[k]) && questions[k].Value() == before[k]
      {
      }
      SameExceptAt(before, DraftValues(questions), index, v);
    }

    /** `addQuestion`: one blank "MCQ" question is appended. */
    method AddQuestion()
      requires Valid()
      modifies this
      ensures Valid() && header == old(header) && loading == old(loading) && error == old(error)
      ensures DraftValues(questions) == old(DraftValues(questions)) + [Blank("MCQ")]
      ensures |questions| == |old(questions)| + 1 && questions[..|old(questions)|] == old(questions)
      ensures fresh(questions[|questions| - 1])
    {
      var q := new QuestionDraft(Blank("MCQ"));
      questions := questions + [q];
    }

    /** `removeQuestion(index)`: the question at `index` is dropped. */
    method RemoveQuestion(index: int)
      requires Valid()
      modifies this
      ensures Valid() && header == old(header) && loading == old(loading) && error == old(error)
      ensures questions == RemoveIndex(old(questions), index)
      ensures DraftValues(questions) == RemoveIndex(old(DraftValues(questions)), index)
    {
      ghost var before := DraftValues(questions);
      questions := RemoveIndex(questions, index);
      if 0 <= index < |old(questions)| {
        forall k | 0 <= k < |questions|
          ensures questions[k] == old(questions)[if k < index then k else k + 1]
          ensures DraftValues(questions)[k] == RemoveIndex(before, index)[k]
        {
        }
        assert DraftValues(questions) == RemoveIndex(before, index);
      }
    }

    /** The change handler of choice input `i`: that choice takes the text. */
    method EditChoice(index: nat, i: nat, value: string)
      requires Valid() && index < |questions| && i < |questions[index].choices|
      modifies questions[index]
      ensures Valid()
      ensures DraftValues(questions) == old(DraftValues(questions))[index := old(DraftValues(questions))[index].(choices := old(DraftValues(questions))[index].choices[i := value])]
    {
      var q := questions[index];
      q.choices := q.choices[i := value];
    }

    /** The delete mark of choice `i`: exactly that choice is removed. */
    method DeleteChoice(index: nat, i: int)
      requires Valid() && index < |questions|
      modifies questions[index]
      ensures Valid()
      ensures DraftValues(questions) == old(DraftValues(questions))[index := old(DraftValues(questions))[index].(choices := RemoveIndex(old(DraftValues(questions))[index].choices, i))]
    {
      var q := questions[index];
      q.choices := RemoveIndex(q.choices, i);
    }

    /** "Add Choice": an empty choice is appended. */
    method AddChoice(index: nat)
      requires Valid() && index < |questions|
      modifies questions[index]
      ensures Valid()
      ensures DraftValues(questions) == old(DraftValues(questions))[index := old(DraftValues(questions))[index].(choices := old(DraftValues(questions))[index].choices + [""])]
    {
      var q := questions[index];
      q.choices := q.choices + [""];
    }

    /** `handleSubmit`: the form is handed to `addQuiz`; when that succeeds the
        form is reset to a blank header and one blank question whose type is
        "" (not the initial "MCQ"); when it fails the error is set and the
        form kept. */
    method Submit(succeeded: bool) returns (sent: QuizFormData)
      requires Valid()
      modifies this
      ensures Valid() && !loading
      ensures sent == old(Data())
      ensures succeeded ==> header == BlankHeader(routeModuleId) && DraftValues(questions) == [Blank("")] && error == old(error)
      ensures !succeeded ==>
        (header == old(header) && questions == old(questions) && error == Some("Failed to add quiz"))
    {
      loading := true;
      sent := Data();
      if succeeded {
        header := BlankHeader(routeModuleId);
        var q := new QuestionDraft(Blank(""));
        questions := [q];
      } else {
        error := Some("Failed to add quiz");
      }
      loading := false;
    }
  }
}
