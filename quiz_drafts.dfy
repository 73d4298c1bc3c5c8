/**
  What the two quiz-builder forms and the quiz context share: the question
  being drafted, the form values (a number the form starts with, or the
  string an input produced), and the comma-separated choices parser.
 */
module QuizDrafts {
  import opened Wrappers
  import opened Text

  /** A form value: the number the form was initialised with, the text an
      input wrote into it, or null. */
  datatype Scalar = Num(n: int) | Str(s: string) | Null

  /** JavaScript truthiness of a form value: 0, "" and null are falsy, while
      the text "0" is truthy. */
  predicate Truthy(v: Scalar) {
    match v
    case Num(n) => n != 0
    case Str(s) => s != ""
    case Null => false
  }

  /** `String(v)`. */
  function ScalarToString(v: Scalar): string {
    match v
    case Num(n) => IntToString(n)
    case Str(s) => s
    case Null => "null"
  }

  /** One question of the form. */
  datatype QuestionValue = QuestionValue(
    questionText: string, questionType: string, correctAnswer: string,
    questionPoint: Scalar, questionTimeLimit: Scalar, choices: seq<string>)

  /** The input names a question's inputs write to. */
  datatype Field = QuestionText | QuestionType | CorrectAnswer | QuestionPoint | QuestionTimeLimit | Choices

  /** A blank question of the given type, with the one empty choice. */
  function Blank(questionType: string): QuestionValue {
    QuestionValue("", questionType, "", Num(0), Num(0), [""])
  }

  /** A field of a question, read uniformly. */
  datatype FieldValue = TextValue(text: string) | NumberValue(number: Scalar) | ListValue(list: seq<string>)

  function FieldOf(q: QuestionValue, f: Field): FieldValue {
    match f
    case QuestionText => TextValue(q.questionText)
    case QuestionType => TextValue(q.questionType)
    case CorrectAnswer => TextValue(q.correctAnswer)
    case QuestionPoint => NumberValue(q.questionPoint)
    case QuestionTimeLimit => NumberValue(q.questionTimeLimit)
    case Choices => ListValue(q.choices)
  }

  /** `{...q, [key]: value}`: the input's text is stored under its name, as
      text even for the numeric fields. */
  function SetField(q: QuestionValue, key: Field, value: string): (r: QuestionValue)
    requires key != Choices
    ensures FieldOf(r, key) == if key == QuestionPoint || key == QuestionTimeLimit then NumberValue(Str(value)) else TextValue(value)
    ensures forall f :: f != key ==> FieldOf(r, f) == FieldOf(q, f)
  {
    match key
    case QuestionText => q.(questionText := value)
    case QuestionType => q.(questionType := value)
    case CorrectAnswer => q.(correctAnswer := value)
    case QuestionPoint => q.(questionPoint := Str(value))
    case QuestionTimeLimit => q.(questionTimeLimit := Str(value))
  }

  /** `value.split(",").map((choice) => choice.trim())`. */
  function ParseChoices(value: string): (choices: seq<string>)
    ensures |choices| == |Split(value, ",")|
    ensures forall k :: 0 <= k < |choices| ==> choices[k] == Trim(Split(value, ",")[k])
  {
    var pieces := Split(value, ",");
    seq(|pieces|, k requires 0 <= k < |pieces| => Trim(pieces[k]))
  }

  /** A choice never contains a comma and is already trimmed. */
  lemma TrimmedPieceShape(piece: string)
    requires !Contains(piece, ",")
    ensures ',' !in Trim(piece) && Trim(Trim(piece)) == Trim(piece)
  {
    forall j | 0 <= j < |piece| ensures piece[j] != ',' {
      if piece[j] == ',' {
        assert piece[j..j + 1] == ",";
        assert OccursAt(piece, ",", j);
      }
    }
    TrimKeepsAbsentChar(piece, ',');
    TrimIdempotent(piece);
  }

  /** There is one choice more than the input has commas, and every choice
      is free of commas and of surrounding whitespace. */
  lemma ParseChoicesShape(value: string)
    ensures |ParseChoices(value)| == CountChar(value, ',') + 1
    ensures forall k :: 0 <= k < |ParseChoices(value)| ==>
      ',' !in ParseChoices(value)[k] && Trim(ParseChoices(value)[k]) == ParseChoices(value)[k]
  {
    SplitCharCount(value, ',');
    var pieces := Split(value, ",");
    var choices := ParseChoices(value);
    SplitPiecesAvoidSeparator(value, ",");
    forall k | 0 <= k < |choices|
      ensures ',' !in choices[k] && Trim(choices[k]) == choices[k]
    {
      TrimmedPieceShape(pieces[k]);
    }
  }

  /** The choices are the trimmed pieces of the input cut at every comma:
      joined back with commas, the untrimmed pieces give the input. */
  lemma ParseChoicesPieces(value: string)
    ensures exists pieces: seq<string> ::
      Join(pieces, ",") == value && |pieces| == |ParseChoices(value)| &&
      (forall k :: 0 <= k < |pieces| ==> !Contains(pieces[k], ",")) &&
      (forall k :: 0 <= k < |pieces| ==> ParseChoices(value)[k] == Trim(pieces[k]))
  {
    JoinSplit(value, ",");
    SplitPiecesAvoidSeparator(value, ",");
    var pieces := Split(value, ",");
    assert Join(pieces, ",") == value;
  }

  /** The first choice is the trimmed text before the first comma (the whole
      trimmed input when there is no comma). */
  lemma FirstChoice(value: string)
    ensures var p := Split(value, ",")[0];
      ParseChoices(value)[0] == Trim(p) && StartsWith(value, p) && ',' !in p &&
      (|p| == |value| || value[|p|] == ',')
  {
    SplitFirstPiece(value, ',');
  }

  /** A question object of the form; the forms edit these objects in place. */
  class QuestionDraft {
    var questionText: string
    var questionType: string
    var correctAnswer: string
    var questionPoint: Scalar
    var questionTimeLimit: Scalar
    var choices: seq<string>

    constructor (v: QuestionValue)
      ensures Value() == v
    {
      questionText := v.questionText;
      questionType := v.questionType;
      correctAnswer := v.correctAnswer;
      questionPoint := v.questionPoint;
      questionTimeLimit := v.questionTimeLimit;
      choices := v.choices;
    }

    function Value(): QuestionValue
      reads this
    {
      QuestionValue(questionText, questionType, correctAnswer, questionPoint, questionTimeLimit, choices)
    }
  }

  /** The question objects of a form, read as values, in order. */
  function DraftValues(drafts: seq<QuestionDraft>): (vs: seq<QuestionValue>)
    reads drafts
    ensures |vs| == |drafts|
    ensures forall k :: 0 <= k < |drafts| ==> vs[k] == drafts[k].Value()
  {
    seq(|drafts|, k requires 0 <= k < |drafts| reads drafts => drafts[k].Value())
  }

  /** The quiz-level fields of a form. */
  datatype QuizHeader = QuizHeader(
    moduleId: int, title: string, description: string,
    totalMark: Scalar, timeLimit: Scalar, attemptsAllowed: Scalar)

  /** A fresh form header for the module of the page. */
  function BlankHeader(moduleId: int): QuizHeader {
    QuizHeader(moduleId, "", "", Num(0), Num(0), Num(0))
  }

  /** The form data handed to the quiz context's `addQuiz`. */
  datatype QuizFormData = QuizFormData(header: QuizHeader, questions: seq<QuestionValue>)
}
