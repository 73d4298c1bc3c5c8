/**
  The request handlers of main/views.py that hold logic of their own: which
  comments of a lesson a user receives, the `is_instructor` flag of the user
  responses, course creation with self-enrolment, and the delete endpoints
  with their missing-id guard.
 */
module Views {
  import opened Wrappers
  import opened Models
  import opened Permissions
  import opened KeyedLists

  // ---------------------------------------------------------------------
  // User responses
  // ---------------------------------------------------------------------

  /** The two flags the login and current-user responses add to the user. */
  datatype UserFlags = UserFlags(isStaff: bool, isInstructor: bool)

  /** `is_staff` and `is_instructor` of the login and current-user responses. */
  function UserData(u: User): (d: UserFlags)
    ensures d.isStaff == u.isStaff
    ensures d.isInstructor <==> "Instructors" in u.groups
  {
    UserFlags(u.isStaff, IsInstructor(u))
  }

  /** The flags a client receives say "staff or instructor" exactly when the
      backend permission admits that user. */
  lemma UserDataMatchesPermission(u: User)
    ensures UserData(u).isStaff || UserData(u).isInstructor <==> HasPermission(Some(u))
  {
  }

  // ---------------------------------------------------------------------
  // Comment visibility
  // ---------------------------------------------------------------------

  /** A stored comment with its primary key. */
  datatype Comment = Comment(id: nat, row: CommentRow)

  /** Staff and instructors: every comment of the lesson. */
  function LessonComments(all: seq<Comment>, lessonId: nat): seq<Comment> {
    Filter(all, (c: Comment) => c.row.lessonId == lessonId)
  }

  /** Students: the comments of the lesson that they wrote or that are replies. */
  function StudentFetched(all: seq<Comment>, lessonId: nat, userId: nat): seq<Comment> {
    Filter(all, (c: Comment) => c.row.lessonId == lessonId && (c.row.commentor == userId || c.row.replyTo.Some?))
  }

  /** A comment the student wrote that answers no other comment. */
  predicate OwnTopLevel(c: Comment, userId: nat) {
    c.row.commentor == userId && c.row.replyTo.None?
  }

  function Own(fetched: seq<Comment>, userId: nat): seq<Comment> {
    Filter(fetched, (c: Comment) => OwnTopLevel(c, userId))
  }

  function Others(fetched: seq<Comment>, userId: nat): seq<Comment> {
    Filter(fetched, (c: Comment) => !OwnTopLevel(c, userId))
  }

  /** The replies among `others` that answer comment `c`. */
  function RepliesTo(others: seq<Comment>, c: Comment): seq<Comment> {
    Filter(others, (r: Comment) => r.row.replyTo == Some(c.id))
  }

  /** The replies attached to each of the student's comments, one comment after the other. */
  function Attached(own: seq<Comment>, others: seq<Comment>): seq<Comment> {
    if own == [] then []
    else Attached(own[..|own| - 1], others) + RepliesTo(others, own[|own| - 1])
  }

  /** What a student receives: the fetched comments in order, followed by the attached replies. */
  function StudentView(all: seq<Comment>, lessonId: nat, userId: nat): (view: seq<Comment>)
    ensures var fetched := StudentFetched(all, lessonId, userId);
      |view| == |fetched| + |Attached(Own(fetched, userId), Others(fetched, userId))|
  {
    var fetched := StudentFetched(all, lessonId, userId);
    fetched + Attached(Own(fetched, userId), Others(fetched, userId))
  }

  /** `GetCommentsView.get`. */
  method GetComments(viewer: User, lessonId: nat, all: seq<Comment>) returns (combined: seq<Comment>)
    ensures viewer.isStaff || IsInstructor(viewer) ==> combined == LessonComments(all, lessonId)
    ensures !(viewer.isStaff || IsInstructor(viewer)) ==> combined == StudentView(all, lessonId, viewer.id)
  {
    if viewer.isStaff || IsInstructor(viewer) {
      return LessonComments(all, lessonId);
    }
    var comments := StudentFetched(all, lessonId, viewer.id);
    var studentComments: seq<Comment> := [];
    var replies: seq<Comment> := [];
    var strictStudentReplies: seq<Comment> := [];
    for i := 0 to |comments|
      invariant studentComments == Own(comments[..i], viewer.id)
      invariant replies == Others(comments[..i], viewer.id)
    {
      assert comments[..i + 1][..i] == comments[..i];
      var comment := comments[i];
      if comment.row.commentor == viewer.id && comment.row.replyTo.None? {
        studentComments := studentComments + [comment];
      } else {
        replies := replies + [comment];
      }
    }
    assert comments[..|comments|] == comments;
    for j := 0 to |studentComments|
      invariant strictStudentReplies == Attached(studentComments[..j], replies)
    {
      assert studentComments[..j + 1][..j] == studentComments[..j];
      var commentReplies := Filter(replies, (r: Comment) => r.row.replyTo == Some(studentComments[j].id));
      strictStudentReplies := strictStudentReplies + commentReplies;
    }
    assert studentComments[..|studentComments|] == studentComments;
    combined := comments + strictStudentReplies;
  }

  /** Staff and instructors receive exactly the comments of the lesson, all of them. */
  lemma LessonCommentsComplete(all: seq<Comment>, lessonId: nat, c: Comment)
    requires c in all
    ensures c in LessonComments(all, lessonId) <==> c.row.lessonId == lessonId
  {
    var k :| 0 <= k < |all| && all[k] == c;
  }

  /** Each fetched comment goes to exactly one of the student's own top-level
      comments and the others. */
  lemma StudentPartition(fetched: seq<Comment>, userId: nat)
    ensures |Own(fetched, userId)| + |Others(fetched, userId)| == |fetched|
    ensures multiset(Own(fetched, userId)) + multiset(Others(fetched, userId)) == multiset(fetched)
  {
    FilterPartition(fetched, (c: Comment) => OwnTopLevel(c, userId), (c: Comment) => !OwnTopLevel(c, userId));
  }

  /** The replies to `c` are exactly the other comments answering it. */
  lemma RepliesToIff(others: seq<Comment>, c: Comment, x: Comment)
    ensures x in RepliesTo(others, c) <==> x in others && x.row.replyTo == Some(c.id)
  {
    if x in others && x.row.replyTo == Some(c.id) {
      var k :| 0 <= k < |others| && others[k] == x;
    }
    var rs := RepliesTo(others, c);
    if x in rs {
      var k :| 0 <= k < |rs| && rs[k] == x;
    }
  }

  /** `x` answers one of the comments in `own`. */
  ghost predicate AnswersOneOf(x: Comment, own: seq<Comment>) {
    exists k :: 0 <= k < |own| && x.row.replyTo == Some(own[k].id)
  }

  /** The attached replies are exactly the other comments that answer one of
      the student's comments. */
  lemma {:induction false} AttachedIff(own: seq<Comment>, others: seq<Comment>, x: Comment)
    ensures x in Attached(own, others) <==> x in others && AnswersOneOf(x, own)
  {
    if own != [] {
      var front := own[..|own| - 1];
      var last := own[|own| - 1];
      AttachedIff(front, others, x);
      RepliesToIff(others, last, x);
      assert Attached(own, others) == Attached(front, others) + RepliesTo(others, last);
      assert AnswersOneOf(x, own) <==> AnswersOneOf(x, front) || x.row.replyTo == Some(last.id) by {
        if AnswersOneOf(x, own) {
          var k :| 0 <= k < |own| && x.row.replyTo == Some(own[k].id);
          if k < |front| {
            assert front[k] == own[k];
          }
        }
        if AnswersOneOf(x, front) {
          var k :| 0 <= k < |front| && x.row.replyTo == Some(front[k].id);
          assert own[k] == front[k];
        }
      }
    }
  }

  /** A student receives only comments of the lesson that they wrote or that are replies. */
  lemma StudentViewVisibility(all: seq<Comment>, lessonId: nat, userId: nat, c: Comment)
    requires c in StudentView(all, lessonId, userId)
    ensures c in all && c.row.lessonId == lessonId && (c.row.commentor == userId || c.row.replyTo.Some?)
  {
    var fetched := StudentFetched(all, lessonId, userId);
    if c !in fetched {
      AttachedIff(Own(fetched, userId), Others(fetched, userId), c);
    }
  }

  /** Every attached reply is also among the fetched comments, so it appears
      twice in what the student receives. */
  lemma AttachedRepliesAppearTwice(all: seq<Comment>, lessonId: nat, userId: nat, x: Comment)
    requires var fetched := StudentFetched(all, lessonId, userId);
      x in Attached(Own(fetched, userId), Others(fetched, userId))
    ensures multiset(StudentView(all, lessonId, userId))[x] >= 2
  {
    var fetched := StudentFetched(all, lessonId, userId);
    var att := Attached(Own(fetched, userId), Others(fetched, userId));
    AttachedIff(Own(fetched, userId), Others(fetched, userId), x);
    assert x in fetched;
    assert multiset(fetched + att) == multiset(fetched) + multiset(att);
  }

  // ---------------------------------------------------------------------
  // Course creation
  // ---------------------------------------------------------------------

  /** `AddCourseView.post`: a valid course is created by the requesting user,
      who is then enrolled in it, enrolled by themself (201); invalid data is
      answered with 400 and writes nothing. */
  method AddCourse(courses: Table<CourseRow>, enrollments: Table<EnrollmentRow>, user: nat,
                   valid: bool, title: string, description: string, slugify: string -> string)
    returns (status: nat, courseId: Option<nat>)
    requires courses.Valid() && enrollments.Valid()
    modifies courses, enrollments
    ensures courses.Valid() && enrollments.Valid()
    ensures !valid ==>
      (status == 400 && courseId.None? &&
       courses.rows == old(courses.rows) && enrollments.rows == old(enrollments.rows))
    ensures valid ==>
      (status == 201 && courseId.Some? && courseId.value !in old(courses.rows) &&
       courses.rows == old(courses.rows)[courseId.value :=
         CourseRow(Some(user), title, description, DerivedSlug(slugify, title, courseId.value))])
    ensures valid ==>
      exists e: nat :: e !in old(enrollments.rows) &&
        enrollments.rows == old(enrollments.rows)[e := EnrollmentRow(user, user, courseId.value)]
  {
    if !valid {
      return 400, None;
    }
    var course := new Course(Some(user), title, description);
    course.Save(courses, slugify);
    var e := enrollments.Save(None, EnrollmentRow(user, user, course.id.value));
    return 201, course.id;
  }

  // ---------------------------------------------------------------------
  // Delete endpoints
  // ---------------------------------------------------------------------

  /** A JSON response: status and its one message. */
  datatype Response = Response(status: nat, message: string)

  /** Python's `not x` on an optional positive-integer URL argument: a
      missing argument and 0 both count as missing. */
  predicate Missing(id: Option<nat>) {
    id.None? || id.value == 0
  }

  /** The kinds of object the single-object delete endpoints remove. */
  datatype Kind = CourseKind | ModuleKind | FlashcardKind | LinkKind | QuizKind | EnrollmentKind

  /** The model name `delete_object` reports and the two error messages of each endpoint. */
  function ModelName(k: Kind): string {
    match k
    case CourseKind => "Course"
    case ModuleKind => "Module"
    case FlashcardKind => "Flashcard"
    case LinkKind => "ExternalLink"
    case QuizKind => "Quiz"
    case EnrollmentKind => "CourseEnrollment"
  }

  function RequiredMessage(k: Kind): string {
    match k
    case CourseKind => "Course ID is required."
    case ModuleKind => "Module ID is required."
    case FlashcardKind => "Flashcard ID is required."
    case LinkKind => "Link ID is required."
    case QuizKind => "Quiz ID is required"
    case EnrollmentKind => "Enrollment ID is required"
  }

  function NotFoundMessage(k: Kind): string {
    match k
    case CourseKind => "Course not found."
    case ModuleKind => "Module not found."
    case FlashcardKind => "Flashcard not found."
    case LinkKind => "Link not found."
    case QuizKind => "Quiz not found."
    case EnrollmentKind => "Enrollment not found"
  }

  /** The delete views for courses, modules, flashcards, links, quizzes and
      enrollments: 400 without touching data when the id is missing, 404 when
      no row has it, otherwise the row is deleted (`delete_object`, 200). */
  method DeleteObject<R>(table: Table<R>, kind: Kind, id: Option<nat>) returns (resp: Response)
    requires table.Valid()
    modifies table
    ensures table.Valid()
    ensures Missing(id) ==> resp == Response(400, RequiredMessage(kind)) && table.rows == old(table.rows)
    ensures !Missing(id) && id.value !in old(table.rows) ==>
      resp == Response(404, NotFoundMessage(kind)) && table.rows == old(table.rows)
    ensures !Missing(id) && id.value in old(table.rows) ==>
      resp == Response(200, ModelName(kind) + " successduly deleted") &&
      table.rows == old(table.rows) - {id.value}
  {
    if id.None? || id.value == 0 {
      return Response(400, RequiredMessage(kind));
    }
    if id.value !in table.rows {
      return Response(404, NotFoundMessage(kind));
    }
    table.Delete(id.value);
    return Response(200, ModelName(kind) + " successduly deleted");
  }

  /** `DeleteLessonFlashcardsView.delete`: 400 for a missing lesson id;
      otherwise every flashcard of the lesson is deleted, and the answer is
      200 even when there was none. */
  method DeleteLessonFlashcards(flashcards: Table<FlashcardRow>, lessonId: Option<nat>) returns (resp: Response)
    requires flashcards.Valid()
    modifies flashcards
    ensures flashcards.Valid()
    ensures Missing(lessonId) ==>
      (resp == Response(400, "Lesson ID is required.") &&
       flashcards.rows == old(flashcards.rows))
    ensures !Missing(lessonId) ==> resp == Response(200, "Flashcard successduly deleted")
    ensures !Missing(lessonId) ==> forall k :: k in flashcards.rows <==>
      k in old(flashcards.rows) && old(flashcards.rows)[k].lessonId != lessonId.value
    ensures forall k :: k in flashcards.rows ==> flashcards.rows[k] == old(flashcards.rows)[k]
  {
    if lessonId.None? || lessonId.value == 0 {
      return Response(400, "Lesson ID is required.");
    }
    flashcards.DeleteWhere((f: FlashcardRow) => f.lessonId == lessonId.value);
    return Response(200, "Flashcard successduly deleted");
  }

  /** `DeleteCommentView.delete`: 400 for a missing id, 404 for an unknown
      one, 403 when the object permission (the commentor, or staff and
      instructors) refuses, otherwise the comment is deleted (204). */
  method DeleteComment(comments: Table<CommentRow>, id: Option<nat>, allowed: CommentRow -> bool)
    returns (resp: Response)
    requires comments.Valid()
    modifies comments
    ensures comments.Valid()
    ensures Missing(id) ==> resp == Response(400, "Comment ID is required") && comments.rows == old(comments.rows)
    ensures !Missing(id) && id.value !in old(comments.rows) ==>
      resp == Response(404, "Comment not found.") && comments.rows == old(comments.rows)
    ensures !Missing(id) && id.value in old(comments.rows) && !allowed(old(comments.rows)[id.value]) ==>
      resp.status == 403 && comments.rows == old(comments.rows)
    ensures !Missing(id) && id.value in old(comments.rows) && allowed(old(comments.rows)[id.value]) ==>
      resp == Response(204, "Comment deleted successfully") && comments.rows == old(comments.rows) - {id.value}
  {
    if id.None? || id.value == 0 {
      return Response(400, "Comment ID is required");
    }
    if id.value !in comments.rows {
      return Response(404, "Comment not found.");
    }
    if !allowed(comments.rows[id.value]) {
      return Response(403, "You do not have permission to perform this action.");
    }
    comments.Delete(id.value);
    return Response(204, "Comment deleted successfully");
  }
}
