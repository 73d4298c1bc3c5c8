/**
  The Django models of the learning-management backend (main/models.py):
  the user manager, and the `save` rules that derive a user's username and
  the slugs of courses and modules from a name and the database id.

  A database table is a `Table` object mapping primary keys to rows; Django's
  `Model.save()` is `Table.Save`: an INSERT that allocates the next key when
  the object has no id yet, an UPDATE of the row with that key otherwise.
  Django's `slugify` and `normalize_email` are library code and are passed
  in as functions.
 */
module Models {
  import opened Wrappers
  import opened Text

  // ---------------------------------------------------------------------
  // Tables
  // ---------------------------------------------------------------------

  /** A database table with an auto-incrementing primary key. */
  class Table<R> {
    var rows: map<nat, R>
    var nextId: nat

    ghost predicate Valid()
      reads this
    {
      0 < nextId && forall k :: k in rows ==> k < nextId
    }

    constructor ()
      ensures Valid() && rows == map[]
    {
      rows := map[];
      nextId := 1;
    }

    /** `Model.save()`: INSERT with a fresh key when `id` is None, otherwise
        UPDATE (or INSERT) the row under that key. Returns the key used. */
    method Save(id: Option<nat>, row: R) returns (key: nat)
      requires Valid()
      modifies this
      ensures Valid()
      ensures rows == old(rows)[key := row]
      ensures id.Some? ==> key == id.value
      ensures id.None? ==> key !in old(rows)
    {
      if id.None? {
        key := nextId;
        nextId := nextId + 1;
      } else {
        key := id.value;
        if nextId <= key {
          nextId := key + 1;
        }
      }
      rows := rows[key := row];
    }

    /** `Model.delete()` of the row with key `id`. */
    method Delete(id: nat)
      requires Valid() && id in rows
      modifies this
      ensures Valid()
      ensures rows == old(rows) - {id} && nextId == old(nextId)
    {
      rows := rows - {id};
    }

    /** `Model.objects.filter(...).delete()`: removes every row satisfying `p`. */
    method DeleteWhere(p: R -> bool)
      requires Valid()
      modifies this
      ensures Valid() && nextId == old(nextId)
      ensures forall k :: k in rows <==> k in old(rows) && !p(old(rows)[k])
      ensures forall k :: k in rows ==> rows[k] == old(rows)[k]
    {
      rows := map k | k in rows && !p(rows[k]) :: rows[k];
    }
  }

  /** A table that is only appended to (attempts, answers, questions, comment
      images); the row at position k has primary key k + 1. `bulk_create` is
      one append of several rows. */
  class Log<R> {
    var rows: seq<R>

    constructor ()
      ensures rows == []
    {
      rows := [];
    }

    method Create(row: R) returns (id: nat)
      modifies this
      ensures rows == old(rows) + [row] && id == |rows|
    {
      rows := rows + [row];
      id := |rows|;
    }

    method BulkCreate(rs: seq<R>)
      modifies this
      ensures rows == old(rows) + rs
    {
      rows := rows + rs;
    }

    /** UPDATE of the row with primary key `id`. */
    method Update(id: nat, row: R)
      requires 1 <= id <= |rows|
      modifies this
      ensures rows == old(rows)[id - 1 := row]
    {
      rows := rows[id - 1 := row];
    }
  }

  // ---------------------------------------------------------------------
  // Rows
  // ---------------------------------------------------------------------

  datatype UserRow = UserRow(
    email: string, firstName: string, lastName: string, username: string,
    isStaff: bool, isSuperuser: bool)

  datatype CourseRow = CourseRow(creator: Option<nat>, title: string, description: string, slug: string)

  datatype ModuleRow = ModuleRow(courseId: nat, title: string, topic: string, slug: string)

  /** A course enrollment: the enrolled user, who enrolled them, and the course. */
  datatype EnrollmentRow = EnrollmentRow(user: nat, enrolledBy: nat, courseId: nat)

  datatype FlashcardRow = FlashcardRow(lessonId: nat, question: string, answer: string)

  /** A quiz as `QuizSerializer.create` stores it. */
  datatype QuizRow = QuizRow(
    creator: nat, moduleId: nat, title: string, description: string,
    totalMark: int, timeLimit: Option<nat>, attemptsAllowed: Option<nat>)

  /** The fields of one question of a quiz, as submitted. */
  datatype QuestionFields = QuestionFields(
    questionPoint: int, questionTimeLimit: Option<nat>, questionText: string,
    questionType: string, correctAnswer: string, choices: seq<string>)

  datatype QuestionRow = QuestionRow(quizId: nat, fields: QuestionFields)

  /** One stored answer of a quiz attempt; `answerText` may be null. */
  datatype AnswerRow = AnswerRow(answerText: Option<string>, isCorrect: bool, questionId: int, attemptId: nat)

  datatype AttemptRow = AttemptRow(quizId: nat, takenBy: nat, totalAttempts: nat, score: int)

  /** A comment on a lesson; `replyTo` is the id of the comment it answers. */
  datatype CommentRow = CommentRow(commentor: nat, lessonId: nat, comment: string, replyTo: Option<nat>)

  datatype CommentImageRow = CommentImageRow(commentId: nat, image: string)

  // ---------------------------------------------------------------------
  // Users
  // ---------------------------------------------------------------------

  /** The keyword arguments a caller may pass to `create_user`; a field
      that is None was not passed. */
  datatype ExtraFields = ExtraFields(
    firstName: string, lastName: string, isStaff: Option<bool>, isSuperuser: Option<bool>)

  /** The username a user without one receives on save. */
  function DerivedUsername(firstName: string, id: nat): string {
    Lower(firstName) + "-" + NatToString(id)
  }

  /** Two users never receive the same derived username, whatever their first names. */
  lemma DerivedUsernamesDistinct(first1: string, id1: nat, first2: string, id2: nat)
    requires id1 != id2
    ensures DerivedUsername(first1, id1) != DerivedUsername(first2, id2)
  {
    DashedNamesDistinct(Lower(first1), id1, Lower(first2), id2);
  }

  /** The id of a user can be read back from the username it was given. */
  lemma DerivedUsernameNamesId(firstName: string, id: nat)
    ensures IdSuffix(DerivedUsername(firstName, id)) == Some(id)
  {
    IdSuffixOfDashed(Lower(firstName), id);
  }

  class AchieveUser {
    var id: Option<nat>
    var email: string
    var firstName: string
    var lastName: string
    /** The empty string stands for both a blank and a null username. */
    var username: string
    var isStaff: bool
    var isSuperuser: bool

    constructor (email: string, extra: ExtraFields)
      ensures id == None && username == ""
      ensures this.email == email && firstName == extra.firstName && lastName == extra.lastName
      ensures isStaff == (extra.isStaff == Some(true)) && isSuperuser == (extra.isSuperuser == Some(true))
    {
      id := None;
      this.email := email;
      firstName := extra.firstName;
      lastName := extra.lastName;
      username := "";
      isStaff := extra.isStaff == Some(true);
      isSuperuser := extra.isSuperuser == Some(true);
    }

    function Row(): UserRow
      reads this
    {
      UserRow(email, firstName, lastName, username, isStaff, isSuperuser)
    }

    /** The string form of a user. */
    function Str(): string
      reads this
    {
      email
    }

    /** `AchieveUser.save`: a user without a username is first saved to obtain
        its id and then gets "<lower-cased first name>-<id>"; the row is then
        saved (again). A username that is already set is kept. */
    method Save(users: Table<UserRow>)
      requires users.Valid()
      modifies this, users
      ensures users.Valid()
      ensures id.Some? && users.rows == old(users.rows)[id.value := Row()]
      ensures old(id).Some? ==> id == old(id)
      ensures old(id).None? ==> id.value !in old(users.rows)
      ensures old(username) == "" ==> username == DerivedUsername(firstName, id.value)
      ensures old(username) != "" ==> username == old(username)
      ensures email == old(email) && firstName == old(firstName) && lastName == old(lastName)
      ensures isStaff == old(isStaff) && isSuperuser == old(isSuperuser)
    {
      if username == "" {
        var key := users.Save(id, Row());
        id := Some(key);
        username := DerivedUsername(firstName, key);
      }
      var key := users.Save(id, Row());
      id := Some(key);
    }
  }

  /** The emails of the stored users. */
  function EmailsOf(rows: map<nat, UserRow>): set<string> {
    set k | k in rows :: rows[k].email
  }

  /** The unique constraint on `AchieveUser.email`: no two users share one. */
  predicate UniqueEmails(rows: map<nat, UserRow>) {
    forall a, b :: a in rows && b in rows && a != b ==> rows[a].email != rows[b].email
  }

  /** Storing a user under a new key with an email no stored user has keeps
      the emails unique, and adds exactly that email. */
  lemma InsertKeepsUniqueEmails(rows: map<nat, UserRow>, id: nat, row: UserRow)
    requires UniqueEmails(rows) && id !in rows && row.email !in EmailsOf(rows)
    ensures UniqueEmails(rows[id := row])
    ensures EmailsOf(rows[id := row]) == EmailsOf(rows) + {row.email}
  {
    var rows' := rows[id := row];
    forall a, b | a in rows' && b in rows' && a != b
      ensures rows'[a].email != rows'[b].email
    {
      if a == id {
        assert rows[b].email in EmailsOf(rows);
      } else if b == id {
        assert rows[a].email in EmailsOf(rows);
      }
    }
    assert rows'[id].email in EmailsOf(rows');
    forall e | e in EmailsOf(rows) ensures e in EmailsOf(rows') {
      var k :| k in rows && rows[k].email == e;
      assert rows'[k] == rows[k];
    }
  }

  /** Stand-in for the database's integrity error when the email is taken;
      its wording depends on the database backend. */
  const DuplicateEmail := "IntegrityError: email is not unique"

  /** `AchieveUserManager.create_user`: refuses an empty email, otherwise
      builds the user from the normalised email and the extra fields and saves
      it; the save fails when the unique email is already taken. */
  method CreateUser(users: Table<UserRow>, email: string, extra: ExtraFields,
                    normalizeEmail: string -> string)
    returns (r: Result<AchieveUser, string>)
    requires users.Valid()
    modifies users
    ensures users.Valid()
    ensures r.Failure? <==> email == "" || normalizeEmail(email) in EmailsOf(old(users.rows))
    ensures r.Failure? ==> users.rows == old(users.rows)
    ensures email == "" ==> r == Failure("The Email field must be set")
    ensures email != "" && r.Failure? ==> r.error == DuplicateEmail
    ensures UniqueEmails(old(users.rows)) ==> UniqueEmails(users.rows)
    ensures r.Success? ==> fresh(r.value) && r.value.id.Some?
    ensures r.Success? ==> var u := r.value;
      u.id.value !in old(users.rows) &&
      users.rows == old(users.rows)[u.id.value := u.Row()] &&
      u.email == normalizeEmail(email) && u.username == DerivedUsername(extra.firstName, u.id.value) &&
      u.isStaff == (extra.isStaff == Some(true)) && u.isSuperuser == (extra.isSuperuser == Some(true))
  {
    if email == "" {
      return Failure("The Email field must be set");
    }
    if normalizeEmail(email) in EmailsOf(users.rows) {
      return Failure(DuplicateEmail);
    }
    var user := new AchieveUser(normalizeEmail(email), extra);
    user.Save(users);
    if UniqueEmails(old(users.rows)) {
      InsertKeepsUniqueEmails(old(users.rows), user.id.value, user.Row());
    }
    return Success(user);
  }

  /** `dict.setdefault` on one boolean keyword argument. */
  function SetDefault(flag: Option<bool>, default: bool): (r: Option<bool>)
    ensures flag.Some? ==> r == flag
    ensures flag.None? ==> r == Some(default)
  {
    if flag.None? then Some(default) else flag
  }

  /** `AchieveUserManager.create_superuser`: `is_staff` and `is_superuser`
      default to True, but a value the caller passed is kept. */
  method CreateSuperuser(users: Table<UserRow>, email: string, extra: ExtraFields,
                         normalizeEmail: string -> string)
    returns (r: Result<AchieveUser, string>)
    requires users.Valid()
    modifies users
    ensures users.Valid()
    ensures r.Failure? <==> email == "" || normalizeEmail(email) in EmailsOf(old(users.rows))
    ensures r.Failure? ==> users.rows == old(users.rows)
    ensures UniqueEmails(old(users.rows)) ==> UniqueEmails(users.rows)
    ensures r.Success? ==>
      (fresh(r.value) && r.value.id.Some? &&
       users.rows == old(users.rows)[r.value.id.value := r.value.Row()])
    ensures r.Success? ==> r.value.isStaff == (extra.isStaff != Some(false))
    ensures r.Success? ==> r.value.isSuperuser == (extra.isSuperuser != Some(false))
  {
    var fields := extra.(isStaff := SetDefault(extra.isStaff, true),
                         isSuperuser := SetDefault(extra.isSuperuser, true));
    match extra.isStaff {
      case None =>
      case Some(b) => assert fields.isStaff == Some(b);
    }
    match extra.isSuperuser {
      case None =>
      case Some(b) => assert fields.isSuperuser == Some(b);
    }
    r := CreateUser(users, email, fields, normalizeEmail);
  }

  // ---------------------------------------------------------------------
  // Courses and modules
  // ---------------------------------------------------------------------

  /** The slug a course or module receives on its first save. */
  function DerivedSlug(slugify: string -> string, title: string, id: nat): string {
    slugify(title) + "-" + NatToString(id)
  }

  /** Slugs derived for two different ids never collide, which the unique
      slug columns rely on. */
  lemma DerivedSlugsDistinct(slugify: string -> string, title1: string, id1: nat, title2: string, id2: nat)
    requires id1 != id2
    ensures DerivedSlug(slugify, title1, id1) != DerivedSlug(slugify, title2, id2)
  {
    DashedNamesDistinct(slugify(title1), id1, slugify(title2), id2);
  }

  class Course {
    var id: Option<nat>
    var creator: Option<nat>
    var title: string
    var description: string
    /** The empty string stands for both a blank and a null slug. */
    var slug: string

    constructor (creator: Option<nat>, title: string, description: string)
      ensures id == None && slug == ""
      ensures this.creator == creator && this.title == title && this.description == description
    {
      id := None;
      this.creator := creator;
      this.title := title;
      this.description := description;
      slug := "";
    }

    function Row(): CourseRow
      reads this
    {
      CourseRow(creator, title, description, slug)
    }

    /** The string form of a course. */
    function Str(): string
      reads this
    {
      title
    }

    /** `Course.save` exactly as written: only a course without a slug is
        written (first with a placeholder slug to obtain the id, then with
        "<slugify(title)>-<id>"); a course whose slug is set is not written
        at all. */
    method SaveAsWritten(courses: Table<CourseRow>, slugify: string -> string)
      requires courses.Valid()
      modifies this, courses
      ensures courses.Valid()
      ensures title == old(title) && description == old(description) && creator == old(creator)
      ensures old(slug) != "" ==> courses.rows == old(courses.rows) && slug == old(slug) && id == old(id)
      ensures old(slug) == "" ==>
        (id.Some? && slug == DerivedSlug(slugify, title, id.value) &&
         courses.rows == old(courses.rows)[id.value := Row()])
    {
      if slug == "" {
        var base := slugify(title);
        slug := "placeholder";
        var key := courses.Save(id, Row());
        id := Some(key);
        slug := base + "-" + NatToString(key);
        key := courses.Save(id, Row());
      }
    }

    /** `Course.save` as intended: the slug is derived on the first save as
        above, and the course is written on every save. */
    method Save(courses: Table<CourseRow>, slugify: string -> string)
      requires courses.Valid()
      modifies this, courses
      ensures courses.Valid()
      ensures title == old(title) && description == old(description) && creator == old(creator)
      ensures id.Some? && courses.rows == old(courses.rows)[id.value := Row()]
      ensures old(id).Some? ==> id == old(id)
      ensures old(id).None? ==> id.value !in old(courses.rows)
      ensures old(slug) != "" ==> slug == old(slug)
      ensures old(slug) == "" ==> slug == DerivedSlug(slugify, title, id.value)
    {
      if slug == "" {
        var base := slugify(title);
        slug := "placeholder";
        var key := courses.Save(id, Row());
        id := Some(key);
        slug := base + "-" + NatToString(key);
      }
      var key := courses.Save(id, Row());
      id := Some(key);
    }
  }

  /** A course created, saved, renamed and saved again: with `save` as
      written the stored title is still the first one. */
  method CourseEditLostAsWritten(slugify: string -> string) returns (stored: string)
    ensures stored == "Intro"
  {
    var courses := new Table<CourseRow>();
    var course := new Course(None, "Intro", "");
    course.SaveAsWritten(courses, slugify);
    course.title := "Advanced";
    course.SaveAsWritten(courses, slugify);
    stored := courses.rows[course.id.value].title;
  }

  /** The same steps with the intended `save` store the new title. */
  method CourseEditKept(slugify: string -> string) returns (stored: string)
    ensures stored == "Advanced"
  {
    var courses := new Table<CourseRow>();
    var course := new Course(None, "Intro", "");
    course.Save(courses, slugify);
    course.title := "Advanced";
    course.Save(courses, slugify);
    stored := courses.rows[course.id.value].title;
  }

  class Module {
    var id: Option<nat>
    var courseId: nat
    var title: string
    var topic: string
    var slug: string

    constructor (courseId: nat, title: string, topic: string)
      ensures id == None && slug == ""
      ensures this.courseId == courseId && this.title == title && this.topic == topic
    {
      id := None;
      this.courseId := courseId;
      this.title := title;
      this.topic := topic;
      slug := "";
    }

    function Row(): ModuleRow
      reads this
    {
      ModuleRow(courseId, title, topic, slug)
    }

    /** `Module.save` exactly as written; the same rule as `Course.save`. */
    method SaveAsWritten(modules: Table<ModuleRow>, slugify: string -> string)
      requires modules.Valid()
      modifies this, modules
      ensures modules.Valid()
      ensures title == old(title) && topic == old(topic) && courseId == old(courseId)
      ensures old(slug) != "" ==> modules.rows == old(modules.rows) && slug == old(slug) && id == old(id)
      ensures old(slug) == "" ==>
        (id.Some? && slug == DerivedSlug(slugify, title, id.value) &&
         modules.rows == old(modules.rows)[id.value := Row()])
    {
      if slug == "" {
        var base := slugify(title);
        slug := "placeholder";
        var key := modules.Save(id, Row());
        id := Some(key);
        slug := base + "-" + NatToString(key);
        key := modules.Save(id, Row());
      }
    }

    /** `Module.save` as intended: slug derived once, module written on every save. */
    method Save(modules: Table<ModuleRow>, slugify: string -> string)
      requires modules.Valid()
      modifies this, modules
      ensures modules.Valid()
      ensures title == old(title) && topic == old(topic) && courseId == old(courseId)
      ensures id.Some? && modules.rows == old(modules.rows)[id.value := Row()]
      ensures old(id).Some? ==> id == old(id)
      ensures old(id).None? ==> id.value !in old(modules.rows)
      ensures old(slug) != "" ==> slug == old(slug)
      ensures old(slug) == "" ==> slug == DerivedSlug(slugify, title, id.value)
    {
      if slug == "" {
        var base := slugify(title);
        slug := "placeholder";
        var key := modules.Save(id, Row());
        id := Some(key);
        slug := base + "-" + NatToString(key);
      }
      var key := modules.Save(id, Row());
      id := Some(key);
    }
  }

  /** A module renamed after its first save: with `save` as written the
      stored title is still the first one. */
  method ModuleEditLostAsWritten(slugify: string -> string) returns (stored: string)
    ensures stored == "Basics"
  {
    var modules := new Table<ModuleRow>();
    var m := new Module(1, "Basics", "");
    m.SaveAsWritten(modules, slugify);
    m.title := "Loops";
    m.SaveAsWritten(modules, slugify);
    stored := modules.rows[m.id.value].title;
  }

  /** The same steps with the intended `save` store the new title. */
  method ModuleEditKept(slugify: string -> string) returns (stored: string)
    ensures stored == "Loops"
  {
    var modules := new Table<ModuleRow>();
    var m := new Module(1, "Basics", "");
    m.Save(modules, slugify);
    m.title := "Loops";
    m.Save(modules, slugify);
    stored := modules.rows[m.id.value].title;
  }
}
