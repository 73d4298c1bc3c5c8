# Achieve LMS — a Dafny model of its rules

Achieve is a learning-management system with a Django REST backend, a React
client and a few server-rendered pages driven by plain JavaScript. Instructors
and staff create courses, modules (lessons), flashcards, external links and
quizzes. Students take quizzes, flip through flashcards and discuss lessons in
comments.

This project models the small rules of that system that carry logic, and
proves what they guarantee.

Backend (`main/`):
- `SubmitAnswerSerializer` grades a quiz submission and numbers the attempt.
- `QuizSerializer` and `CommentSerializer` store a quiz with its questions, and a comment with its images.
- `GetCommentsView` decides which comments a user receives.
- The user responses carry an `is_instructor` flag.
- Creating a course enrols its creator.
- The delete endpoints guard against a missing id.
- The user manager and the `save` rules derive usernames and slugs from a name and the database id.
- The staff-or-instructor permission decides who may act.

React client (`frontend/src/`):
- The quiz, module, external-link, flashcard and notification stores keep id-keyed lists and record loading, error and alert state.
- The quiz page keeps one answer per question.
- The two quiz builders edit lists of question objects in place.
- The flashcard page moves round its deck with wrap-around.
- The route guard sends visitors to the home page, to "not authorized", or on to the page.

Server-rendered pages (`LMS/static/js/`):
- The flashcard deck is clamped: no wrap-around, arrows disabled at the ends.
- Quiz and question countdowns run with one-shot guards.
- `getCSRFToken` reads the CSRF token from the cookie string.
- `deleteItem` builds the body of a delete request.

Things outside the modelled code are inputs to the model:
- The database is a `Table` (key to row, auto-incrementing key) or an append-only `Log` (see `models.dfy`). Django's `save`, `delete` and `bulk_create` are methods on these.
- Every HTTP request is an awaited `Reply`: the response body, or the error message it failed with. A delete request is the boolean "it succeeded".
- The access token, the user's choice in a `confirm` dialog, and the presence of a DOM element are parameters.
- `slugify`, `normalize_email` and `JSON.stringify` are function parameters.

Each React context becomes a class whose fields are its `useState` variables; its callbacks become methods that reassign them. Each `alert` is appended to an `alerts` field. The in-place DOM updates of `flashcard.js` act on arrays, one entry per card box.

`QuizContext.addQuiz` catches every failure itself and never rethrows. So the "Failed to add quiz" branch of both quiz builders cannot be reached when they are used with that context. `AddQuiz.QuizForm.Submit` still models that branch, because the component handles it.

## Model

| member | source | states |
|---|---|---|
| Serializers.GradeAnswers | main/serializers.py:264-293 | fails with "Invalid question id" exactly when a question id is unknown; otherwise it yields one Answer per submission, in order, on the attempt; `is_correct` holds iff the text equals the stored correct answer; the score is `Score` |
| Serializers.ScoreAppend | main/serializers.py:264-282 | the score of two submissions joined is the sum of their scores |
| Serializers.NoCorrectAnswerScoresZero | main/serializers.py:280-282 | incorrect answers add nothing: a submission with no correct answer scores 0 |
| Serializers.ScoreBounds | main/serializers.py:264-282 | with non-negative points, 0 ≤ score ≤ the points of all answered questions |
| Serializers.FullScoreIffAllCorrect | main/serializers.py:280-282 | with positive points, the full score is reached iff every answer is correct |
| Serializers.CountAttempts | main/serializers.py:254-256 | the count of a user's attempts on a quiz never exceeds the number of attempts |
| Serializers.NumberingPreserved | main/serializers.py:254-262 | appending an attempt numbered "earlier attempts + 1" keeps every attempt numbered by its rank |
| Serializers.CountAttemptsMonotone | main/serializers.py:254-256 | counting over a longer prefix never gives less |
| Serializers.AttemptNumbersIncrease | main/serializers.py:254-262 | a later attempt of the same user on the same quiz has a larger `total_attempts` |
| Serializers.SubmitAnswers | main/serializers.py:235-300 | when `validate` refuses the data (no `answers`) it fails before any write; with data it fails exactly when a question id is unknown, leaving a score-0 attempt and no Answer; otherwise the attempt is numbered (earlier attempts + 1), the graded answers are bulk-created, the score is stored, and the result is the new attempt's id |
| Serializers.CreateQuiz | main/serializers.py:192-207 | 404 for an unknown module; otherwise the quiz is stored with its creator, and one Question per submitted question (none when absent) is tied to it, in order |
| Serializers.CreateComment | main/serializers.py:329-342 | the comment is stored as top-level, by the requesting user, on the lesson; one CommentImage per uploaded image is tied to it |
| Views.UserDataMatchesPermission | main/views.py:57-58 | the `is_staff` and `is_instructor` flags say "staff or instructor" exactly when the backend permission admits the user |
| Views.StudentView | main/views.py:356-368 | what a student receives: the fetched comments in order, followed by the replies attached to their own top-level comments |
| Views.GetComments | main/views.py:335-370 | staff and instructors get `LessonComments`; anyone else gets `StudentView`, which the loops build |
| Views.LessonCommentsComplete | main/views.py:339-344 | staff and instructors receive exactly the comments of the lesson |
| Views.StudentPartition | main/views.py:356-360 | each fetched comment goes to exactly one list: own top-level, or other; the two lists have the fetched comments' length and multiset |
| Views.RepliesToIff | main/views.py:361-364 | the replies gathered for a comment are exactly the other comments whose `reply_to` is its id |
| Views.AttachedIff | main/views.py:361-366 | the attached replies are exactly the other comments answering one of the student's own comments |
| Views.StudentViewVisibility | main/views.py:347-351 | a student receives only comments of the lesson that they wrote or that are replies |
| Views.AttachedRepliesAppearTwice | main/views.py:368 | an attached reply occurs once among the fetched comments and once more among the attached ones |
| Views.AddCourse | main/views.py:381-387 | invalid data gives 400 and writes nothing; a valid course is created by the user with its derived slug (201), and the user is enrolled in it, `enrolled_by` themself |
| Views.DeleteObject | main/views.py:393-404 | a missing or zero id gives 400 with the endpoint's message and touches nothing; an unknown id gives 404; otherwise exactly that row is removed from its own table (200, "<Model> successduly deleted"); the same holds for the module, flashcard, link, quiz and enrollment endpoints |
| Views.DeleteLessonFlashcards | main/views.py:482-496 | a missing lesson id gives 400 and touches nothing; otherwise exactly the lesson's flashcards are deleted, with 200 even when there were none |
| Views.DeleteComment | main/views.py:661-678 | 400 for a missing id, 404 for an unknown one, 403 when the object permission refuses (nothing deleted in each case); otherwise exactly that comment is deleted (204) |
| Models.DerivedUsernamesDistinct | main/models.py:42 | two users with different ids never receive the same derived username |
| Models.DerivedUsernameNamesId | main/models.py:42 | the id can be read back from a derived username |
| Models.AchieveUser.constructor | main/models.py:15 | a new user has no id and no username; `is_staff`/`is_superuser` hold only when passed as True |
| Models.AchieveUser.Save | main/models.py:39-44 | the user is written under its id (a fresh key on the first save); an empty username becomes lower(first name) + "-" + id; a set username is kept |
| Models.CreateUser | main/models.py:11-18 | fails with "The Email field must be set" iff the email is empty, and fails when the normalised email is already taken (`unique=True`, main/models.py:29); a failure writes nothing; otherwise it stores a fresh user with the normalised email and the derived username, and the emails stay unique |
| Models.InsertKeepsUniqueEmails | main/models.py:29 | storing a user under a new key with an email nobody has keeps the emails unique and adds exactly that email |
| Models.CreateSuperuser | main/models.py:20-24 | `is_staff` and `is_superuser` are True unless the caller passed False; it fails exactly when `create_user` does, and keeps the emails unique |
| Models.DerivedSlugsDistinct | main/models.py:72 | slugs derived for different ids never collide, whatever the titles |
| Models.Course.SaveAsWritten | main/models.py:67-73 | as written: a course without a slug is written with slug slugify(title) + "-" + id; a course whose slug is set is not written at all |
| Models.Course.Save | main/models.py:67-73 | as intended: the slug is derived on the first save, and the course is written on every save |
| Models.CourseEditLostAsWritten | main/models.py:67-73 | as written, a renamed and re-saved course still has its first title stored |
| Models.CourseEditKept | main/models.py:67-73 | with the intended save, the new title is stored |
| Models.Module.SaveAsWritten | main/models.py:103-109 | as written: the slug rule of `Course.save` for modules; a module whose slug is set is not written |
| Models.Module.Save | main/models.py:103-109 | as intended: slug derived once, module written on every save |
| Models.ModuleEditLostAsWritten | main/models.py:103-109 | as written, a renamed and re-saved module still has its first title stored |
| Models.ModuleEditKept | main/models.py:103-109 | with the intended save, the new title is stored |
| Permissions.HasPermission | main/permissions.py:6-9 | no user is refused; staff and members of "Instructors" are admitted; anyone else is refused |
| ProtectedRoute.Guard | frontend/src/components/ProtectedRoute.tsx:17-23 | unauthenticated visitors go to "/"; with `instructorOrStaff` a user is shown the page iff instructor or staff, otherwise sent to "/notAuthorized"; without it every signed-in user is shown the page |
| ProtectedRoute.GuardAgreesWithPermission | frontend/src/components/ProtectedRoute.tsx:20-23 | for flags from the backend, the guard admits exactly the users the backend permission admits |
| QuizPage.FindIndex | frontend/src/components/coursePage/modules/quiz/QuizPage.tsx:37-39 | `findIndex`: -1 or the first entry for the question |
| QuizPage.AnswerFor | frontend/src/components/coursePage/modules/quiz/QuizPage.tsx:37-39 | a question has an answer iff some entry carries it |
| QuizPage.UpsertExisting | frontend/src/components/coursePage/modules/quiz/QuizPage.tsx:41-44 | with an entry for the question, only that entry's text changes; length and every other entry are kept |
| QuizPage.UpsertNew | frontend/src/components/coursePage/modules/quiz/QuizPage.tsx:45-50 | without an entry, `{question_id, answer_text}` is appended at the end |
| QuizPage.UpsertKeepsUnique | frontend/src/components/coursePage/modules/quiz/QuizPage.tsx:37-50 | at most one entry per question before means at most one after |
| QuizPage.UpsertIsMapUpdate | frontend/src/components/coursePage/modules/quiz/QuizPage.tsx:37-50 | read as a map, the update sets the question's answer and keeps every other question's |
| QuizPage.AfterSubmitForgetsAnswers | frontend/src/components/coursePage/modules/quiz/QuizPage.tsx:36-61 | after a successful submit no question has an answer, so the next answer starts a one-entry list; after a failure every answer is still there |
| QuizPage.TrueFalseIgnoresChoices | frontend/src/components/coursePage/modules/quiz/QuizPage.tsx:123-173 | a question that is not an MCQ offers two distinct options, whatever its stored choices hold |
| QuizDrafts.SetField | frontend/src/components/coursePage/modules/quiz/AddQuiz.tsx:67 | `{...q, [key]: value}`: the named field takes the input text, every other field is kept |
| QuizDrafts.ParseChoicesShape | frontend/src/components/coursePage/modules/quiz/AddQuiz.tsx:63 | there is one choice more than the input has commas; no choice holds a comma or needs trimming |
| QuizDrafts.ParseChoicesPieces | frontend/src/components/coursePage/modules/quiz/AddQuiz.tsx:63 | the input is the comma-join of comma-free pieces whose trims are the choices |
| QuizDrafts.FirstChoice | frontend/src/components/coursePage/modules/quiz/AddQuiz.tsx:63-65 | the first choice is the trimmed text before the first comma |
| QuizDrafts.TrimmedPieceShape | frontend/src/components/coursePage/modules/quiz/AddQuiz.tsx:63 | a trimmed comma-free piece stays comma-free and is trimmed |
| AddQuiz.EditQuestionKeepsOtherFields | frontend/src/components/coursePage/modules/quiz/AddQuiz.tsx:62-68 | an edit changes no other field (a choices edit also rewrites the correct answer) |
| AddQuiz.EditedCorrectAnswerIsFirstChoice | frontend/src/components/coursePage/modules/quiz/AddQuiz.tsx:63-65 | after a choices edit the correct answer is one of the choices: the trimmed text before the first comma |
| AddQuiz.QuizForm.constructor | frontend/src/components/coursePage/modules/quiz/AddQuiz.tsx:22-39 | a blank header and one blank "MCQ" question with choices [""] |
| AddQuiz.QuizForm.HandleQuestionChange | frontend/src/components/coursePage/modules/quiz/AddQuiz.tsx:50-71 | the question at the index becomes `EditQuestion` of itself, the others are kept; a choices edit mutates the same object, any other edit replaces it with a fresh copy |
| AddQuiz.QuizForm.SetChoices | frontend/src/components/coursePage/modules/quiz/AddQuiz.tsx:64-65 | the question object at the index gets the choices and the correct answer in place; every other question is kept |
| AddQuiz.QuizForm.ReplaceQuestion | frontend/src/components/coursePage/modules/quiz/AddQuiz.tsx:67 | a fresh question object takes the place of the one at the index; every other object stays where it was |
| AddQuiz.QuizForm.AddQuestion | frontend/src/components/coursePage/modules/quiz/AddQuiz.tsx:73-88 | one blank "MCQ" question is appended; the existing objects are kept in order |
| AddQuiz.QuizForm.RemoveQuestion | frontend/src/components/coursePage/modules/quiz/AddQuiz.tsx:90-93 | exactly the question at the index is dropped, the rest keep their order |
| AddQuiz.QuizForm.EditChoice | frontend/src/components/coursePage/modules/quiz/AddQuiz.tsx:272-276 | choice i of the question takes the text, nothing else changes |
| AddQuiz.QuizForm.DeleteChoice | frontend/src/components/coursePage/modules/quiz/AddQuiz.tsx:283-289 | exactly choice i is removed |
| AddQuiz.QuizForm.AddChoice | frontend/src/components/coursePage/modules/quiz/AddQuiz.tsx:297-301 | an empty choice is appended |
| AddQuiz.QuizForm.Submit | frontend/src/components/coursePage/modules/quiz/AddQuiz.tsx:95-128 | the form is handed to `addQuiz`; success resets it to one blank question of type "" (not "MCQ"); failure keeps it and sets "Failed to add quiz"; loading ends false |
| AddQuizLegacy.NormalizeType | frontend/src/components/coursePages/modules/quiz/AddQuiz.tsx:64-70 | "TF" stays "TF"; every other type becomes "MCQ" |
| AddQuizLegacy.EditedTypeIsNormal | frontend/src/components/coursePages/modules/quiz/AddQuiz.tsx:64-70 | once a question's type has been edited, it is "TF" or "MCQ" |
| AddQuizLegacy.ChoicesEditKeepsCorrectAnswer | frontend/src/components/coursePages/modules/quiz/AddQuiz.tsx:57-60 | a choices edit leaves the correct answer untouched |
| AddQuizLegacy.ChoicesEditCanDropCorrectAnswer | frontend/src/components/coursePages/modules/quiz/AddQuiz.tsx:57-60 | so a correct answer the new pieces do not hold stops being a choice, and one holding a comma or surrounding white space can never be one again |
| AddQuizLegacy.QuizForm.constructor | frontend/src/components/coursePages/modules/quiz/AddQuiz.tsx:17-34 | a blank header and one blank question of type "" |
| AddQuizLegacy.QuizForm.HandleQuestionChange | frontend/src/components/coursePages/modules/quiz/AddQuiz.tsx:45-72 | the question at the index becomes this version's `EditQuestion` of itself; the others are kept |
| AddQuizLegacy.QuizForm.AddQuestion | frontend/src/components/coursePages/modules/quiz/AddQuiz.tsx:74-89 | one blank question of type "" is appended |
| AddQuizLegacy.QuizForm.RemoveQuestion | frontend/src/components/coursePages/modules/quiz/AddQuiz.tsx:91-94 | exactly the question at the index is dropped, order kept |
| AddQuizLegacy.QuizForm.Submit | frontend/src/components/coursePages/modules/quiz/AddQuiz.tsx:96-130 | success resets the form to one blank question; failure keeps it and sets "Failed to add quiz" |
| KeyedLists.RemoveId | frontend/src/context/QuizContext.tsx:218 | `filter(q => q.id !== id)`: no entry with the id remains, and nothing new appears |
| KeyedLists.RemoveIdCount | frontend/src/context/QuizContext.tsx:218 | exactly the entries carrying the id are dropped |
| KeyedLists.RemoveIdKeepsOthers | frontend/src/context/QuizContext.tsx:218 | every entry with another id survives |
| KeyedLists.RemoveUnknownId | frontend/src/context/QuizContext.tsx:209-218 | removing an id no entry carries leaves the list as it was |
| KeyedLists.RemoveIdAppend | frontend/src/context/QuizContext.tsx:193-218 | removal distributes over an append, so it removes an appended entry with the id too |
| KeyedLists.ReplaceUnknownId | frontend/src/context/ExternalLinkContext.tsx:151-153 | replacing an id no entry carries leaves the list as it was |
| KeyedLists.ReplaceKeepsOthers | frontend/src/context/ExternalLinkContext.tsx:151-153 | with a new entry that keeps the id, only the entries with the id change: removing the id after the update gives the list removal gave before, and the count of the id is kept |
| KeyedLists.Filter | main/views.py:362-364 | the comprehension keeps exactly the entries satisfying the condition |
| KeyedLists.FilterPartition | main/views.py:356-360 | a condition and its negation split a list: lengths add up and the multisets join to the list |
| KeyedLists.RemoveIndex | frontend/src/components/coursePage/modules/quiz/AddQuiz.tsx:91 | `filter((_, i) => i !== index)`: the entry at the index is dropped; an index out of range changes nothing |
| Http.OrUnknown | frontend/src/context/QuizContext.tsx:195-196 | the failure message, or "Unknown error" when it is empty |
| Http.GetFirst | frontend/src/context/QuizContext.tsx:177-184 | a form field is found iff some entry carries its name, and the value found is that of the first such entry |
| Http.GetAppend | frontend/src/context/QuizContext.tsx:177-184 | looking up in two forms appended finds the first form's entry first |
| Http.AppendIf | frontend/src/context/QuizContext.tsx:181-183 | `if (c) formData.append(name, value)`: the field is present when c holds, nothing is appended otherwise |
| QuizContext.QuizForm | frontend/src/context/QuizContext.tsx:177-184 | the posted form ends with the stringified questions |
| QuizContext.QuizFormFields | frontend/src/context/QuizContext.tsx:177-184 | `module_id`, `quiz_title` and `quiz_description` are always sent; `total_mark`, `time_limit` and `attempts_allowed` are sent iff truthy (0 and null are omitted) |
| QuizContext.QuizStore.constructor | frontend/src/context/QuizContext.tsx:96-104 | the store starts empty, not loading, with no error and both flags false |
| QuizContext.QuizStore.FetchQuizzes | frontend/src/context/QuizContext.tsx:107-128 | without a token only "No access token available" is set; a reply replaces the list (`[]` when absent) and both flags; a failure sets "Failed to fetch quizzes"; loading ends false |
| QuizContext.QuizStore.AddQuiz | frontend/src/context/QuizContext.tsx:157-204 | posts `QuizForm`; the returned quiz is appended at the end; a failure alerts "An error occurred while adding the quiz: " + message; loading ends false |
| QuizContext.QuizStore.DeleteQuiz | frontend/src/context/QuizContext.tsx:207-225 | an unknown id only alerts "Quiz not found"; a successful delete removes that id; a failed one alerts and keeps the list |
| ModuleContext.NormalizeMedia | frontend/src/context/ModuleContext.tsx:48-60 | an empty path becomes the default; a present one starts with the endpoint and ends with the path; one already prefixed is kept |
| ModuleContext.NormalizeMediaIdempotent | frontend/src/context/ModuleContext.tsx:48-60 | on a present path, normalising twice is normalising once |
| ModuleContext.DefaultsAreNotFixedPoints | frontend/src/context/ModuleContext.tsx:48-60 | the defaults "/achieve_a_mark.png" and "/*" are prefixed again by a second pass |
| ModuleContext.NormalizeModulesIdempotent | frontend/src/context/ModuleContext.tsx:48-64 | a list with all media paths present is normalised once and for all |
| ModuleContext.ModuleForm | frontend/src/context/ModuleContext.tsx:129-134 | the form starts with course, title and topic; one entry more for each file chosen |
| ModuleContext.ModuleFormFields | frontend/src/context/ModuleContext.tsx:129-134 | read back by name, the form holds course id, title and topic, holds each file exactly when it was chosen, and holds no other name |
| ModuleContext.ModuleStore.constructor | frontend/src/context/ModuleContext.tsx:69-71 | empty, not loading, no error |
| ModuleContext.ModuleStore.FetchModules | frontend/src/context/ModuleContext.tsx:73-93 | without a token only the error is set; a reply replaces the list with the normalised modules (`[]` when absent); a failure sets "Failed to fetch modules" |
| ModuleContext.ModuleStore.FetchModuleById | frontend/src/context/ModuleContext.tsx:97-118 | fails with "No access token available" without a token, "Failed to fetch module" on a failed request, and otherwise returns the normalised module; the list is untouched |
| ModuleContext.ModuleStore.AddModule | frontend/src/context/ModuleContext.tsx:120-159 | posts `ModuleForm`; the normalised response is appended; a failure alerts "An error occurred while adding the module: " + message |
| ModuleContext.ModuleStore.DeleteModule | frontend/src/context/ModuleContext.tsx:161-182 | an unknown id only alerts "Module not found"; a successful delete removes that id; a failed one alerts and keeps the list |
| ExternalLinkContext.EditKeepsOthers | frontend/src/context/ExternalLinkContext.tsx:151-153 | an edit keeps the length and the ids, changes no entry with another id, and replaces each entry with the id |
| ExternalLinkContext.LinkStore.constructor | frontend/src/context/ExternalLinkContext.tsx:49-51 | empty, not loading, no error |
| ExternalLinkContext.LinkStore.FetchLinks | frontend/src/context/ExternalLinkContext.tsx:54-77 | without a token only the error is set; a reply replaces the list (`[]` when absent); a failure sets "Failed to fetch External Links" |
| ExternalLinkContext.LinkStore.FetchLinkById | frontend/src/context/ExternalLinkContext.tsx:80-99 | the link, or the failure rethrown after "Failed to fetch link" is recorded; no token check |
| ExternalLinkContext.LinkStore.AddLink | frontend/src/context/ExternalLinkContext.tsx:102-144 | a zero lesson id or an empty link or description only alerts, and nothing is sent; otherwise the returned link is appended, or a failure alerts |
| ExternalLinkContext.LinkStore.EditLink | frontend/src/context/ExternalLinkContext.tsx:146-159 | every entry with the id is replaced by the response; a failure is rethrown and the list kept |
| ExternalLinkContext.LinkStore.DeleteLink | frontend/src/context/ExternalLinkContext.tsx:161-181 | an unknown id only alerts "link not found"; a successful delete removes every entry with the id; a failed one alerts |
| FlashcardContext.FlashcardStore.constructor | frontend/src/context/FlashcardContext.tsx:39-41 | empty, not loading, no error |
| FlashcardContext.FlashcardStore.FetchFlashcards | frontend/src/context/FlashcardContext.tsx:43-63 | without a token only the error is set; a reply replaces the list (`[]` when absent); a failure sets "Failed to fetch flashcards" |
| FlashcardContext.FlashcardStore.AddFlashcard | frontend/src/context/FlashcardContext.tsx:66-102 | the returned card is appended at the end; a failure alerts |
| FlashcardContext.FlashcardStore.DeleteFlashcard | frontend/src/context/FlashcardContext.tsx:104-125 | an unknown id only alerts "Flashcard not found"; a successful delete removes that id; a failed one alerts |
| NotificationsContext.UnreadCountsPushes | frontend/src/context/NotificafionsContext.tsx:70 | from null, 0 or a positive count, k ≥ 1 pushes add exactly k |
| NotificationsContext.NotificationStore.constructor | frontend/src/context/NotificafionsContext.tsx:36-40 | empty, closed, not loading, no error, no unread count |
| NotificationsContext.NotificationStore.FetchNotifications | frontend/src/context/NotificafionsContext.tsx:42-61 | without a token only the error is set; a reply replaces the list (`[]` when absent) and opens the panel; a failure sets "Failed to fetch notifications" |
| NotificationsContext.NotificationStore.Receive | frontend/src/context/NotificafionsContext.tsx:64-71 | the message is appended at the end, the panel closes, and the unread count advances by `NextUnread` |
| FlashcardPage.Next | frontend/src/components/coursePage/modules/flashcard/FlashcardPage.tsx:31-35 | one card forward or back to 0; stays in the deck |
| FlashcardPage.Previous | frontend/src/components/coursePage/modules/flashcard/FlashcardPage.tsx:25-29 | one card back or round to the last; stays in the deck |
| FlashcardPage.NextPreviousInverse | frontend/src/components/coursePage/modules/flashcard/FlashcardPage.tsx:25-35 | next then previous, and previous then next, return to the card |
| FlashcardPage.NextTimesWraps | frontend/src/components/coursePage/modules/flashcard/FlashcardPage.tsx:31-35 | k presses of next from card i reach card (i + k) mod count |
| FlashcardPage.FullRound | frontend/src/components/coursePage/modules/flashcard/FlashcardPage.tsx:13-35 | a full round of next presses shows the starting card again |
| FlashcardPage.DisabledExactlyWhereWrapping | frontend/src/components/coursePage/modules/flashcard/FlashcardPage.tsx:25-64 | previous is disabled exactly at 0 and next exactly at the last card, which are the places where they would wrap |
| FlashcardScript.ClampedNavigation | LMS/static/js/flashcard.js:8-38 | the index stays in the deck and never wraps; back undoes a forward step that moved, and the reverse |
| FlashcardScript.ForwardTimesClamps | LMS/static/js/flashcard.js:24-38 | k presses of next from card i reach min(i + k, count - 1) |
| FlashcardScript.Deck.constructor | LMS/static/js/flashcard.js:6-109 | index 0 with only box 0 shown; previous disabled; next disabled when there is at most one card; consistent when next starts enabled |
| FlashcardScript.Deck.HideAllExcept | LMS/static/js/flashcard.js:78-86 | exactly box i lacks `d-none` |
| FlashcardScript.Deck.FlipAllToQuestion | LMS/static/js/flashcard.js:88-100 | every box is unflipped, question shown, answer hidden |
| FlashcardScript.Deck.Next | LMS/static/js/flashcard.js:24-38 | a clamped step forward; moving enables previous; reaching the last card disables next; only the current box is shown, on its question side; consistency is preserved |
| FlashcardScript.Deck.Previous | LMS/static/js/flashcard.js:8-22 | a clamped step back; moving enables next; reaching 0 disables previous; only the current box is shown, on its question side; consistency is preserved |
| FlashcardScript.Deck.Click | LMS/static/js/flashcard.js:49-76 | a click off the card sides changes nothing; otherwise exactly that box flips, and its answer is shown iff it is flipped |
| QuizPageScript.JsRem60 | LMS/static/js/quiz_page.js:6 | JavaScript's `% 60`: agrees with the remainder on non-negative times, and stays strictly between -60 and 60 |
| QuizPageScript.SecondsTwoDigits | LMS/static/js/quiz_page.js:10 | the seconds of a non-negative time are two digits that read back as the seconds |
| QuizPageScript.DisplayRoundTrip | LMS/static/js/quiz_page.js:5-10 | the display of t ≥ 0 is "minutes:seconds" and reads back as t |
| QuizPageScript.TimeUpExactlyOnce | LMS/static/js/quiz_page.js:13-18 | from r seconds the countdown ticks max(r, 0) times, then calls the time-up action exactly once and stops, after any number of further ticks |
| QuizPageScript.Countdown.constructor | LMS/static/js/quiz_page.js:2 | the countdown starts at limit × 60 seconds |
| QuizPageScript.Countdown.Fire | LMS/static/js/quiz_page.js:4-19 | one firing of the interval is one `Tick` |
| QuizPageScript.FirstChecked | LMS/static/js/quiz_page.js:34 | `querySelector('input:checked')`: the checked input that comes first in the box, or none when none is checked |
| QuizPageScript.CheckedAnswerStillSubmitted | LMS/static/js/quiz_page.js:34-49 | after time runs out, the form holds a hidden input with the checked answer's name and value |
| QuizPageScript.DisableTwiceIsDisableOnce | LMS/static/js/quiz_page.js:36-59 | running out of time twice adds no second hidden input and no second message; a box gets its message once |
| QuizPageScript.FirstCheckedOfDisabled | LMS/static/js/quiz_page.js:30-34 | disabling keeps which input is checked first |
| QuizPageScript.DisableAsWritten | LMS/static/js/quiz_page.js:23-60 | as written: a missing box throws a TypeError at line 25 before the null check; an existing box is disabled as intended |
| QuizPageScript.DisableAsWrittenThrowsWithoutBox | LMS/static/js/quiz_page.js:24-29 | without the box the handler throws instead of logging its message |
| QuizPageScript.QuizPage.constructor | LMS/static/js/quiz_page.js:64-94 | the page as loaded: nothing toggled, no timers, nothing submitted |
| QuizPageScript.QuizPage.DisableQuestionInputs | LMS/static/js/quiz_page.js:23-60 | as intended: a missing box only logs its message; an existing box becomes `DisabledBox` and the checked answer is mirrored into the form once |
| QuizPageScript.QuizPage.ViewQuestion | LMS/static/js/quiz_page.js:98-153 | an already toggled question, a missing time limit (logged) or a declined confirm change nothing more; otherwise one timer starts, the prompt hides, the content shows and the question is marked; each question's timer starts at most once |
| QuizPageScript.QuizPage.QuizTimeUp | LMS/static/js/quiz_page.js:74-85 | the submit button (when present) is disabled, "Time's up! Your answers have been submitted." is alerted, and the form (when present) is submitted |
| UtilsScript.FindRow | LMS/static/js/utils.js:37 | `find(row => row.startsWith(prefix))`: the first row with the prefix, or none when no row has it |
| UtilsScript.CsrfToken | LMS/static/js/utils.js:34-40 | "" when no cookie entry starts with "csrftoken="; otherwise the found entry is "csrftoken=" + the value, followed by "=" or nothing, so the value is the text up to the next "=" and never holds one |
| UtilsScript.RowValue | LMS/static/js/utils.js:38 | `split('=')[1]` of an entry starting with "csrftoken=" exists and is the text after "csrftoken=" up to the next "=" or the end |
| UtilsScript.CsrfTokenFirstEntry | LMS/static/js/utils.js:35-38 | a cookie whose first entry is "csrftoken=<token>" yields the token, whatever follows |
| UtilsScript.CsrfTokenAnyEntry | LMS/static/js/utils.js:35-38 | "csrftoken=<token>" after any entries that do not start with "csrftoken=" yields the token, whether or not more entries follow |
| UtilsScript.CsrfTokenFirstWins | LMS/static/js/utils.js:35-38 | of two token entries the first one is read |
| UtilsScript.CsrfTokenCutAtEquals | LMS/static/js/utils.js:35-38 | a token entry "csrftoken=<a>=<b>" after entries that are no token entries yields <a>, with or without more entries |
| UtilsScript.ValueOfEntry | LMS/static/js/utils.js:38 | the value read from "csrftoken=<token>" is the token |
| UtilsScript.ValueCutAtNextEquals | LMS/static/js/utils.js:38 | the value read from "csrftoken=<a>=<b>" is <a>, whatever <b> holds |
| UtilsScript.CsrfTokenAbsent | LMS/static/js/utils.js:35-39 | a cookie none of whose entries starts with "csrftoken=" yields "", even when an entry merely contains it |
| UtilsScript.DeletePayloadKeysDistinct | LMS/static/js/utils.js:6-8 | different item types send different keys |

## Left out

- Real-time notifications: the Channels consumer, its routing and the ASGI entry point are asynchronous I/O over a library. The code joins and broadcasts only one fixed group, and the `"main_message"` event type it sends has no handler.
- HTTP, JWT tokens and localStorage: each request is an awaited `Reply` given as a parameter, and the token is an `Option<string>`.
- `deleteItem`: the `fetch`, the removal of the DOM element and the error alert are left out. Only the payload is modelled (`UtilsScript.DeletePayload`).
- ORM queries: their results are given sequences or maps. `Table` and `Log` stand for the tables that are written.
- `Course.delete` and `Module.delete` remove image and PDF files from disk. This file-system I/O is not modelled.
- The image, study-guide and PDF fields of the models, and password hashing, are not modelled.
- Views.DeleteObject: deleting a row also deletes, by CASCADE, the rows that reference it (a course's modules; a module's flashcards, quizzes and external links; a quiz's questions and attempts; a question's answers; main/models.py:87-191). Only the removal of the row itself is modelled.
- Serializers.SubmitAnswers: the attempt's `score` is a PositiveIntegerField (main/models.py:183), so a negative score (questions with negative points) would be refused by the database; the model stores the score as computed.
- Models.CreateUser: the text of the integrity error for a taken email depends on the database backend; `DuplicateEmail` stands for it.
- Views.GetComments: `comment.replies.set(...)` writes the reply relation to the database; the model returns the combined list only.
- Views.DeleteComment: `IsCommentorOrHasPerms` is not part of this model. The object permission is the parameter `allowed`.
- Permissions.HasPermission: models the boolean the permission computes. It does not model its signature, which lacks the `view` argument the framework passes.
- The comment, enrollment and quiz-attempt rows use the field names the serializers and views use. Those differ in part from the model classes in models.py.
- Models.DerivedUsername: Python's `str.lower` is modelled on ASCII letters only.
- `slugify`, `normalize_email` and `JSON.stringify` are function parameters, not definitions.
- The quiz builders' `handleChange` for the quiz-level fields (title, description, marks, limits) stores the input text under the field's name. It is not modelled separately; the header is only created and reset.
- Aliasing of the `choices` arrays between a question object and the spread copies of it is not modelled. A question object is a `QuestionDraft` whose `choices` is a value.
- QuizPage.AnswerOptions: the true/false radios of every question share the name `answer_text`, so a browser lets only one of them be checked across the page. This is rendering and is not modelled.
- Countdowns tick as discrete steps, not wall-clock seconds. `parseInt` returning NaN for a malformed limit is not modelled; the limit is an integer or absent.
- The quiz and module records omit the creator's name the server sends.
- `console.log` and `console.error` output is not modelled, except the one message `disableQuestionInputs` logs when its null check takes effect.
- The `confirm` dialogs are the boolean parameter `confirmed`.
- `Flashcard.tsx` in `coursePages` exports an undefined name, and `CommentContext.tsx` has no provider. Neither compiles as given, so both are left out.
- The DOM wiring scripts `add_quiz.js`, `add_flashcard.js`, `home.js` and `course_module.js`, and `quiz_results.js` (time-zone date formatting), are not modelled.
- QuizContext.QuizStore.AddQuiz: `error.response?.data?.message || error.message` is one message parameter. Which of the two was present is not distinguished.

## Findings

| source | as written | input that shows it | evidently intended | confidence | as-written member | corrected member |
|---|---|---|---|---|---|---|
| main/models.py:67-73 | `Course.save` calls `super().save` only inside `if not self.course_slug`; a course with a slug is never written again (`Module.save`, main/models.py:103-109, has the same shape) | create a course titled "Intro", save, set the title to "Advanced", save again: the stored title is still "Intro" | derive the slug on the first save, and write the object on every save | not executed | Models.CourseEditLostAsWritten | Models.CourseEditKept |
| LMS/static/js/quiz_page.js:24-29 | `questionBox.querySelectorAll('input')` runs before the `if (!questionBox)` check, so a missing box throws a TypeError instead of logging its message | `disableQuestionInputs("7")` on a page with no box whose `data-question-id` is "7" | check for the missing box first, log "No question box found …" and return | not executed | QuizPageScript.DisableAsWrittenThrowsWithoutBox | QuizPageScript.QuizPage.DisableQuestionInputs |
