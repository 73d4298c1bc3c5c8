/**
  The serializers that write several rows at once (main/serializers.py):
  grading a quiz submission (`SubmitAnswerSerializer`), creating a quiz with
  its questions (`QuizSerializer.create`) and a comment with its images
  (`CommentSerializer.create`).

  The rows the ORM reads are inputs: the questions the grading can look up are
  a map from question id to the two columns it reads.
 */
module Serializers {
  import opened Wrappers
  import opened Models

  // ---------------------------------------------------------------------
  // Grading
  // ---------------------------------------------------------------------

  /** One element of the submitted `answers` list; `answerText` may be null. */
  datatype SubmittedAnswer = SubmittedAnswer(questionId: int, answerText: Option<string>)

  /** What grading reads of a question: `correct_answer` and `question_point`. */
  datatype AnswerKey = AnswerKey(correctAnswer: string, questionPoint: int)

  /** `SubmitAnswerSerializer.validate`: data without `answers` is refused. */
  function Validate(answers: Option<seq<SubmittedAnswer>>): (r: Result<seq<SubmittedAnswer>, string>)
    ensures r.Success? <==> answers.Some?
    ensures r.Success? ==> r.value == answers.value
    ensures r.Failure? ==> r.error == "Missing 'answers' field"
  {
    if answers.None? then Failure("Missing 'answers' field") else Success(answers.value)
  }

  /** Every submitted question id names a stored question. */
  predicate AllKnown(subs: seq<SubmittedAnswer>, keys: map<int, AnswerKey>) {
    forall i :: 0 <= i < |subs| ==> subs[i].questionId in keys
  }

  /** An answer is correct when its text is exactly the stored correct
      answer; a null answer is never correct. */
  predicate IsCorrect(a: SubmittedAnswer, key: AnswerKey) {
    a.answerText == Some(key.correctAnswer)
  }

  /** The points one answer earns. */
  function Earned(a: SubmittedAnswer, keys: map<int, AnswerKey>): int
    requires a.questionId in keys
  {
    if IsCorrect(a, keys[a.questionId]) then keys[a.questionId].questionPoint else 0
  }

  /** The score of a submission: the points of its correct answers. */
  function Score(subs: seq<SubmittedAnswer>, keys: map<int, AnswerKey>): int
    requires AllKnown(subs, keys)
  {
    if subs == [] then 0
    else Score(subs[..|subs| - 1], keys) + Earned(subs[|subs| - 1], keys)
  }

  /** The points of all answered questions, correct or not. */
  function MaxScore(subs: seq<SubmittedAnswer>, keys: map<int, AnswerKey>): int
    requires AllKnown(subs, keys)
  {
    if subs == [] then 0
    else MaxScore(subs[..|subs| - 1], keys) + keys[subs[|subs| - 1].questionId].questionPoint
  }

  /** The Answer row stored for one submitted answer. */
  function GradedRow(a: SubmittedAnswer, keys: map<int, AnswerKey>, attemptId: nat): AnswerRow
    requires a.questionId in keys
  {
    AnswerRow(a.answerText, IsCorrect(a, keys[a.questionId]), a.questionId, attemptId)
  }

  function GradedRows(subs: seq<SubmittedAnswer>, keys: map<int, AnswerKey>, attemptId: nat): seq<AnswerRow>
    requires AllKnown(subs, keys)
  {
    seq(|subs|, i requires 0 <= i < |subs| => GradedRow(subs[i], keys, attemptId))
  }

  /** The answers of a graded submission and its score. */
  datatype Graded = Graded(answers: seq<AnswerRow>, score: int)

  /** The grading loop of `SubmitAnswerSerializer.create`: one Answer per
      submitted answer, in order, tied to the attempt, with `is_correct` set
      exactly when the text matches; the score adds the points of the correct
      ones. The first unknown question id aborts with "Invalid question id". */
  method GradeAnswers(subs: seq<SubmittedAnswer>, keys: map<int, AnswerKey>, attemptId: nat)
    returns (r: Result<Graded, string>)
    ensures r.Success? <==> AllKnown(subs, keys)
    ensures r.Failure? ==> r.error == "Invalid question id"
    ensures r.Success? ==> r.value.score == Score(subs, keys)
    ensures r.Success? ==> r.value.answers == GradedRows(subs, keys, attemptId)
    ensures r.Success? ==>
      (|r.value.answers| == |subs| &&
       forall i :: 0 <= i < |subs| ==>
         r.value.answers[i].answerText == subs[i].answerText &&
         r.value.answers[i].questionId == subs[i].questionId &&
         r.value.answers[i].attemptId == attemptId &&
         (r.value.answers[i].isCorrect <==> subs[i].answerText == Some(keys[subs[i].questionId].correctAnswer)))
  {
    var answers: seq<AnswerRow> := [];
    var score := 0;
    var i := 0;
    while i < |subs|
      invariant 0 <= i <= |subs|
      invariant AllKnown(subs[..i], keys)
      invariant score == Score(subs[..i], keys)
      invariant answers == GradedRows(subs[..i], keys, attemptId)
    {
      var a := subs[i];
      if a.questionId !in keys {
        assert !AllKnown(subs, keys);
        return Failure("Invalid question id");
      }
      var key := keys[a.questionId];
      var isCorrect := a.answerText == Some(key.correctAnswer);
      if isCorrect {
        score := score + key.questionPoint;
      }
      answers := answers + [AnswerRow(a.answerText, isCorrect, a.questionId, attemptId)];
      assert subs[..i + 1][..i] == subs[..i];
      i := i + 1;
    }
    assert subs[..i] == subs;
    return Success(Graded(answers, score));
  }

  /** The score of two submissions joined is the sum of their scores. */
  lemma {:induction false} ScoreAppend(xs: seq<SubmittedAnswer>, ys: seq<SubmittedAnswer>, keys: map<int, AnswerKey>)
    requires AllKnown(xs, keys) && AllKnown(ys, keys)
    ensures AllKnown(xs + ys, keys)
    ensures Score(xs + ys, keys) == Score(xs, keys) + Score(ys, keys)
  {
    assert forall i :: 0 <= i < |xs + ys| ==> (xs + ys)[i] == if i < |xs| then xs[i] else ys[i - |xs|];
    if ys == [] {
      assert xs + ys == xs;
    } else {
      var ys' := ys[..|ys| - 1];
      assert AllKnown(ys', keys);
      assert (xs + ys)[..|xs + ys| - 1] == xs + ys';
      ScoreAppend(xs, ys', keys);
    }
  }

  /** Incorrect answers add nothing: a submission without a correct answer scores 0. */
  lemma {:induction false} NoCorrectAnswerScoresZero(subs: seq<SubmittedAnswer>, keys: map<int, AnswerKey>)
    requires AllKnown(subs, keys)
    requires forall i :: 0 <= i < |subs| ==> !IsCorrect(subs[i], keys[subs[i].questionId])
    ensures Score(subs, keys) == 0
  {
    if subs != [] {
      var front := subs[..|subs| - 1];
      assert AllKnown(front, keys);
      assert forall i :: 0 <= i < |front| ==> front[i] == subs[i];
      NoCorrectAnswerScoresZero(front, keys);
    }
  }

  /** With non-negative points the score lies between 0 and the points of
      all answered questions. */
  lemma {:induction false} ScoreBounds(subs: seq<SubmittedAnswer>, keys: map<int, AnswerKey>)
    requires AllKnown(subs, keys)
    requires forall i :: 0 <= i < |subs| ==> keys[subs[i].questionId].questionPoint >= 0
    ensures 0 <= Score(subs, keys) <= MaxScore(subs, keys)
  {
    if subs != [] {
      var front := subs[..|subs| - 1];
      assert AllKnown(front, keys);
      assert forall i :: 0 <= i < |front| ==> front[i] == subs[i];
      ScoreBounds(front, keys);
    }
  }

  /** With positive points, a submission reaches the full score exactly when
      every answer is correct. */
  lemma {:induction false} FullScoreIffAllCorrect(subs: seq<SubmittedAnswer>, keys: map<int, AnswerKey>)
    requires AllKnown(subs, keys)
    requires forall i :: 0 <= i < |subs| ==> keys[subs[i].questionId].questionPoint > 0
    ensures Score(subs, keys) == MaxScore(subs, keys) <==>
            forall i :: 0 <= i < |subs| ==> IsCorrect(subs[i], keys[subs[i].questionId])
  {
    if subs != [] {
      var front := subs[..|subs| - 1];
      var last := subs[|subs| - 1];
      assert AllKnown(front, keys);
      assert forall i :: 0 <= i < |front| ==> front[i] == subs[i];
      FullScoreIffAllCorrect(front, keys);
      ScoreBounds(front, keys);
      if Score(subs, keys) == MaxScore(subs, keys) {
        assert IsCorrect(last, keys[last.questionId]);
        assert Score(front, keys) == MaxScore(front, keys);
      }
    }
  }

  // ---------------------------------------------------------------------
  // Attempt numbering
  // ---------------------------------------------------------------------

  /** The number of attempts of `user` on `quiz` among `attempts`. */
  function CountAttempts(attempts: seq<AttemptRow>, user: nat, quiz: nat): (n: nat)
    ensures n <= |attempts|
  {
    if attempts == [] then 0
    else
      var last := attempts[|attempts| - 1];
      CountAttempts(attempts[..|attempts| - 1], user, quiz) +
        (if last.takenBy == user && last.quizId == quiz then 1 else 0)
  }

  /** Every attempt is numbered by how many attempts the same user had made
      on the same quiz up to and including it. */
  ghost predicate NumberedInOrder(attempts: seq<AttemptRow>) {
    forall i :: 0 <= i < |attempts| ==>
      attempts[i].totalAttempts == CountAttempts(attempts[..i + 1], attempts[i].takenBy, attempts[i].quizId)
  }

  /** Appending an attempt numbered "earlier attempts + 1" keeps the numbering. */
  lemma NumberingPreserved(attempts: seq<AttemptRow>, a: AttemptRow)
    requires NumberedInOrder(attempts)
    requires a.totalAttempts == CountAttempts(attempts, a.takenBy, a.quizId) + 1
    ensures NumberedInOrder(attempts + [a])
  {
    var all := attempts + [a];
    forall i | 0 <= i < |all|
      ensures all[i].totalAttempts == CountAttempts(all[..i + 1], all[i].takenBy, all[i].quizId)
    {
      if i < |attempts| {
        assert all[i] == attempts[i];
        assert all[..i + 1] == attempts[..i + 1];
      } else {
        assert all[i] == a;
        assert all[..i + 1] == all;
        CountAttemptsSnocOwn(attempts, a);
      }
    }
  }

  /** An attempt appended at the end counts once more for its own user and
      quiz. */
  lemma CountAttemptsSnocOwn(attempts: seq<AttemptRow>, a: AttemptRow)
    ensures CountAttempts(attempts + [a], a.takenBy, a.quizId) == CountAttempts(attempts, a.takenBy, a.quizId) + 1
  {
    assert (attempts + [a])[..|attempts + [a]| - 1] == attempts;
  }

  /** Counting over a longer prefix never gives less. */
  lemma {:induction false} CountAttemptsMonotone(attempts: seq<AttemptRow>, j: nat, k: nat, user: nat, quiz: nat)
    requires j <= k <= |attempts|
    ensures CountAttempts(attempts[..j], user, quiz) <= CountAttempts(attempts[..k], user, quiz)
  {
    if j < k {
      assert attempts[..k][..k - 1] == attempts[..k - 1];
      CountAttemptsMonotone(attempts, j, k - 1, user, quiz);
    }
  }

  /** Under the numbering, two attempts of the same user on the same quiz
      carry strictly increasing numbers, so no number is used twice. */
  lemma AttemptNumbersIncrease(attempts: seq<AttemptRow>, i: nat, j: nat)
    requires NumberedInOrder(attempts)
    requires i < j < |attempts|
    requires attempts[i].takenBy == attempts[j].takenBy && attempts[i].quizId == attempts[j].quizId
    ensures attempts[i].totalAttempts < attempts[j].totalAttempts
  {
    var user, quiz := attempts[j].takenBy, attempts[j].quizId;
    CountAttemptsMonotone(attempts, i + 1, j, user, quiz);
    assert attempts[..j + 1][..j] == attempts[..j];
  }

  /** `SubmitAnswerSerializer.create`. The attempt row is created (with score 0)
      before the answers are graded, so a submission that fails on an unknown
      question id leaves that attempt behind with score 0 and stores no answer.
      On success the answers are stored, the score is written to the attempt
      and the result is exactly {"id": <attempt id>}. */
  method SubmitAnswers(attempts: Log<AttemptRow>, answers: Log<AnswerRow>, user: nat, quizId: nat,
                       data: Option<seq<SubmittedAnswer>>, keys: map<int, AnswerKey>)
    returns (r: Result<map<string, nat>, string>)
    requires NumberedInOrder(attempts.rows)
    modifies attempts, answers
    ensures NumberedInOrder(attempts.rows)
    ensures Validate(data).Failure? ==>
      (r.Failure? && attempts.rows == old(attempts.rows) && answers.rows == old(answers.rows))
    ensures Validate(data).Success? ==> |attempts.rows| == |old(attempts.rows)| + 1
    ensures data.None? ==>
      (r == Failure("Key 'answers' is missing in validated_data") &&
       attempts.rows == old(attempts.rows) && answers.rows == old(answers.rows))
    ensures data.Some? ==> r.Success? == AllKnown(data.value, keys)
    ensures data.Some? ==>
      (|attempts.rows| == |old(attempts.rows)| + 1 &&
       attempts.rows[..|attempts.rows| - 1] == old(attempts.rows) &&
       attempts.rows[|attempts.rows| - 1] == AttemptRow(quizId, user,
         CountAttempts(old(attempts.rows), user, quizId) + 1,
         if r.Success? then Score(data.value, keys) else 0))
    ensures data.Some? && r.Failure? ==> r.error == "Invalid question id" && answers.rows == old(answers.rows)
    ensures r.Success? ==>
      (r.value == map["id" := |attempts.rows|] &&
       answers.rows == old(answers.rows) + GradedRows(data.value, keys, |attempts.rows|))
  {
    if data.None? {
      return Failure("Key 'answers' is missing in validated_data");
    }
    var prev := CountAttempts(attempts.rows, user, quizId);
    var row := AttemptRow(quizId, user, prev + 1, 0);
    NumberingPreserved(attempts.rows, row);
    var attemptId := attempts.Create(row);
    var graded := GradeAnswers(data.value, keys, attemptId);
    if graded.Failure? {
      return Failure(graded.error);
    }
    answers.BulkCreate(graded.value.answers);
    NumberingPreserved(old(attempts.rows), row.(score := graded.value.score));
    attempts.Update(attemptId, row.(score := graded.value.score));
    assert attempts.rows == old(attempts.rows) + [row.(score := graded.value.score)];
    return Success(map["id" := attemptId]);
  }

  // ---------------------------------------------------------------------
  // Quiz creation
  // ---------------------------------------------------------------------

  /** The validated data of `QuizSerializer`; `questions` is None when the
      key is absent. */
  datatype QuizData = QuizData(
    moduleId: nat, title: string, description: string, totalMark: int,
    timeLimit: Option<nat>, attemptsAllowed: Option<nat>, questions: Option<seq<QuestionFields>>)

  /** `QuizSerializer.create`: 404 for an unknown module; otherwise the quiz
      is created and one Question per submitted question (none when the key
      is absent) is stored, in order, each tied to the new quiz. */
  method CreateQuiz(quizzes: Table<QuizRow>, questions: Log<QuestionRow>, user: nat,
                    modules: set<nat>, data: QuizData)
    returns (r: Result<nat, string>)
    requires quizzes.Valid()
    modifies quizzes, questions
    ensures quizzes.Valid()
    ensures r.Failure? <==> data.moduleId !in modules
    ensures r.Failure? ==>
      (r.error == "Not found." &&
       quizzes.rows == old(quizzes.rows) && questions.rows == old(questions.rows))
    ensures r.Success? ==>
      (r.value !in old(quizzes.rows) &&
       quizzes.rows == old(quizzes.rows)[r.value := QuizRow(user, data.moduleId, data.title, data.description,
                                                            data.totalMark, data.timeLimit, data.attemptsAllowed)])
    ensures r.Success? ==> var qs := if data.questions.Some? then data.questions.value else [];
      |questions.rows| == |old(questions.rows)| + |qs| &&
      questions.rows[..|old(questions.rows)|] == old(questions.rows) &&
      forall k :: 0 <= k < |qs| ==> questions.rows[|old(questions.rows)| + k] == QuestionRow(r.value, qs[k])
  {
    var qs := if data.questions.Some? then data.questions.value else [];
    if data.moduleId !in modules {
      return Failure("Not found.");
    }
    var quizId := quizzes.Save(None, QuizRow(user, data.moduleId, data.title, data.description,
                                             data.totalMark, data.timeLimit, data.attemptsAllowed));
    var questionList: seq<QuestionRow> := [];
    for i := 0 to |qs|
      invariant |questionList| == i
      invariant forall k :: 0 <= k < i ==> questionList[k] == QuestionRow(quizId, qs[k])
    {
      questionList := questionList + [QuestionRow(quizId, qs[i])];
    }
    questions.BulkCreate(questionList);
    return Success(quizId);
  }

  // ---------------------------------------------------------------------
  // Comment creation
  // ---------------------------------------------------------------------

  /** `CommentSerializer.create`: the comment is stored as a top-level comment
      of the lesson by the requesting user, and one CommentImage per uploaded
      image (none when the key is absent) is stored, in order, tied to it. */
  method CreateComment(comments: Table<CommentRow>, images: Log<CommentImageRow>, user: nat,
                       lessonId: nat, text: string, uploaded: Option<seq<string>>)
    returns (commentId: nat)
    requires comments.Valid()
    modifies comments, images
    ensures comments.Valid()
    ensures commentId !in old(comments.rows) &&
      comments.rows == old(comments.rows)[commentId := CommentRow(user, lessonId, text, None)]
    ensures var imgs := if uploaded.Some? then uploaded.value else [];
      |images.rows| == |old(images.rows)| + |imgs| &&
      images.rows[..|old(images.rows)|] == old(images.rows) &&
      forall k :: 0 <= k < |imgs| ==> images.rows[|old(images.rows)| + k] == CommentImageRow(commentId, imgs[k])
  {
    var imgs := if uploaded.Some? then uploaded.value else [];
    commentId := comments.Save(None, CommentRow(user, lessonId, text, None));
    var imageList: seq<CommentImageRow> := [];
    for i := 0 to |imgs|
      invariant |imageList| == i
      invariant forall k :: 0 <= k < i ==> imageList[k] == CommentImageRow(commentId, imgs[k])
    {
      imageList := imageList + [CommentImageRow(commentId, imgs[i])];
    }
    images.BulkCreate(imageList);
  }
}
