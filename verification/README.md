# Course management core, modelled in Dafny

This project models the core of a Django course-management application: the
course views that enroll, register, drop, duplicate and allocate; the behaviour of
the course models (search, semester test, slugs, file classification and naming,
reference-counted deletion of stored material, the progress key); and account
provisioning (id generation, credentials, the new-account email and the post-save
receiver that ties them together).

The relational store is a `Database` class whose fields are the tables, each a map
from primary key to row (the enrollment table is a sequence of rows, since it has no
uniqueness constraint and its order matters to deletes), with the next id each table
hands out. Everything outside the database lives in an `Env` object: a stream of
random tokens (`random(n)` is the n-th token drawn, standing for
`get_random_string`, `make_random_password`, `token_urlsafe` and the slug
generator), the year, the two id prefixes from the settings, the mail outbox (a
sequence of messages) and object storage (a set of paths). Methods change only the
table fields named in their `modifies` clauses, and each is proved against a
specification function or a set-level statement; lemmas state the properties that
relate several calls.

Modules:

- `Text`: whitespace stripping, ASCII lower-casing, substring containment, decimal
  digits. These are helpers for the modules below.
- `Sums`: sums over finite sets of row ids, and the fact that adding up along any
  listing gives the same total.
- `Querysets`: evaluating a queryset lists each matching id once, in an order the
  database chooses.
- `Tables`: row datatypes, the `Database`, `User` and `Env` classes.
- `AccountUtils`, `AccountSignals`: accounts/utils.py and accounts/signals.py.
- `CourseModels`: course/models.py.
- `EmailTokens`, `Enrollment`: the add-student view.
- `Duplication`: the course duplication view.
- `Registration`: the registration and drop views.
- `Allocation`: the allocation form and the allocation step of adding a course.

Two behaviours of the composition are stated rather than corrected:

- A user created by the bulk or single add path passes through the post-save
  receiver, which gives it a student id, a password and an activation email. The
  view then sets a different password and sends a second email.
  `Enrollment.CreatedAccountGetsTwoEmails` states this: exactly two emails, the first
  carrying the receiver's password, the second carrying the stored one.
- The GET branch of the duplicate view prefixes the original title with
  "Copy of ", which raises on a course whose title is NULL.
  `Duplication.DuplicateFormInitial` returns `None` for that case. The prefill
  keeps the original's slug, a value of a unique column, so the form posted back
  unchanged does not validate (`Duplication.UnchangedPrefillReusesSlug`): the
  views that save a course take a form that passed the unique checks on slug and
  code (`CourseModels.FormIsUnique`).

## Model

| member | source | states |
|---|---|---|
| AccountUtils.IdCountRoundTrip | accounts/utils.py:13-24 | An id `prefix-year-count` carries its count: reading it back with the same prefix and year gives that count |
| AccountUtils.AccountIdInjective | accounts/utils.py:13-24 | Two ids of one prefix and year are equal only for equal counts, so distinct counts never collide |
| AccountUtils.StudentCountInsert | accounts/utils.py:13-17 | Inserting a new student row raises the student count, and thus the next id's number, by exactly one |
| AccountUtils.GenerateStudentId | accounts/utils.py:13-17 | The student id reads back as the student prefix, the year and the number of users flagged student |
| AccountUtils.GenerateLecturerId | accounts/utils.py:20-24 | The lecturer id reads back as the lecturer prefix, the year and the number of users flagged lecturer |
| AccountUtils.GenerateStudentCredentials | accounts/utils.py:27-29 | The pair is the generated student id and the next random token, and exactly one token is drawn |
| AccountUtils.GenerateLecturerCredentials | accounts/utils.py:30-32 | The pair is the generated lecturer id and the next random token, and exactly one token is drawn |
| AccountUtils.TemplateFor | accounts/utils.py:59-62 | The student template exactly for students; the lecturer template for everybody else, including users with neither flag |
| AccountUtils.AccountEmail | accounts/utils.py:59-75 | The message goes to exactly the user's address, passes the password unchanged, uses the student template iff the user is a student, and its link yields the new activation key back |
| AccountUtils.SendNewAccountEmail | accounts/utils.py:52-79 | A fresh activation key is drawn, the account is deactivated and the whole row saved, and then exactly one message for that key is appended to the outbox |
| AccountSignals.ReceiveIgnores | accounts/signals.py:16-21 | A save that is not a creation, a save while the skip marker is present, and the creation of a user with neither role all leave the row and the world unchanged |
| AccountSignals.ReceiveProvisions | accounts/signals.py:23-39 | A provisioned account gets the student id when it is a student (otherwise the lecturer id), the emailed password is the stored one, the account is inactive with the key its link carries, only the credential fields change, and exactly one email goes to the user |
| AccountSignals.NestedSaveIsIgnored | accounts/signals.py:16-29 | Re-entering the receiver for the nested save, as a non-creation or with the marker present, changes nothing |
| AccountSignals.ReceiveEmailsOnce | accounts/signals.py:30-39 | Exactly one email per call that provisions, none otherwise |
| AccountSignals.PostSaveAccountReceiver | accounts/signals.py:10-39 | The instance, the user table, the draws and the outbox end as the receiver function says; the marker is as before |
| AccountSignals.IssueCredentials | accounts/signals.py:24-30 | Username and password are set and saved with the marker present, the marker is absent on return, the account is inactive with a fresh key, and one email is appended |
| CourseModels.ProgramSearch | course/models.py:16-22 | The result is a subset of the programs, and all of them for a missing or empty query |
| CourseModels.CourseSearch | course/models.py:49-60 | The result is a subset of the courses, and all of them for a missing or empty query |
| CourseModels.ProgramSearchNarrows | course/models.py:16-22 | A query containing another (ignoring case) finds a subset of what the shorter one finds |
| CourseModels.CourseSearchNarrows | course/models.py:49-60 | The same narrowing over title, summary, code and slug |
| CourseModels.ProgramSearchIgnoresCase | course/models.py:16-22 | Queries that differ only in letter case find the same programs |
| CourseModels.CourseSearchIgnoresCase | course/models.py:49-60 | Queries that differ only in letter case find the same courses |
| CourseModels.IsCurrentSemester | course/models.py:84-91 | False when no semester is flagged current |
| CourseModels.CurrentSemesterIgnoresPadding | course/models.py:84-91 | Whitespace of any length before or after a course's label does not change the answer |
| CourseModels.CurrentSemesterIgnoresCase | course/models.py:84-91 | Two labels equal after lower-casing get the same answer |
| CourseModels.CurrentSemesterSymmetric | course/models.py:84-91 | The test is symmetric and reflexive in the two labels |
| CourseModels.CoursePreSave | course/models.py:94-97 | Only the slug may change, and only an empty slug is replaced, by the generated one |
| CourseModels.VideoPreSave | course/models.py:277-280 | The same rule for videos |
| CourseModels.PreSaveIdempotent | course/models.py:94-97 | Once a slug is given, later saves never change it |
| CourseModels.Extension | course/models.py:169-172 | The extension taken is the lower-cased part after the last dot, so it holds no dot |
| CourseModels.GetExtensionShort | course/models.py:169-181 | Total: every name is classified as one of word, pdf, excel, powerpoint, archive or file |
| CourseModels.ExtensionShortOfName | course/models.py:169-181 | The kind depends only on the last dot-segment, and does not depend on letter case |
| CourseModels.UploadPath | course/models.py:129-133 | The stored path begins with the given directory prefix, followed by the random token |
| CourseModels.UploadPathsDistinct | course/models.py:129-133 | Different tokens of one length give different paths, whatever the uploaded names, so one upload never overwrites another |
| CourseModels.UploadToCourseFiles | course/models.py:129-133 | Course files are stored under `course_files/` |
| CourseModels.UploadToCourseVideos | course/models.py:226-230 | Videos are stored under `course_videos/` |
| CourseModels.UploadPathKeepsExtension | course/models.py:129-133 | The stored path keeps the lower-cased extension of the uploaded name, so it is classified like that name |
| CourseModels.StorageAfterDelete | course/models.py:183-202 | Deletion only removes from storage, and at most the deleted row's path |
| CourseModels.DeleteKeepsReferencedFiles | course/models.py:183-202 | A file another row points at stays; the deleted row's file goes exactly when it is non-empty, no other row points at it, and storage has it; an empty file field leaves storage as it was |
| CourseModels.DeletePreservesStoredFiles | course/models.py:256-274 | If every row's file is in storage before a delete, every remaining row's file is there afterwards |
| CourseModels.SharedFileLifetime | course/models.py:183-202 | Of two rows sharing a file, deleting the first keeps the file, and deleting the second then removes it |
| CourseModels.DeleteUpload | course/models.py:183-202 | The upload row always goes, storage changes by the deletion rule over the upload rows, and the tables stay valid |
| CourseModels.DeleteVideo | course/models.py:256-274 | The video row always goes, storage changes by the same rule over the video rows, and the tables stay valid |
| CourseModels.InsertProgressKeepsUnique | course/models.py:314-327 | An insert that goes through keeps the key triples unique, and an insert is refused exactly when the key is already present |
| CourseModels.CreateProgress | course/models.py:314-327 | A row is created iff its key was absent, and afterwards the key has a row |
| CourseModels.SavedFormIsUnique | course/models.py:63-66 | A course saved from a form that passed the unique checks is the only row with its code, and the only row with its slug when the form gave one |
| CourseModels.InsertCourse | course/models.py:94-97 | A saved course gets the next id, with the generated slug only when the form left it empty; a token is drawn only then |
| EmailTokens.Tokens | course/views.py:499 | Every token is non-empty, stripped, and free of commas, spaces, carriage returns and line feeds |
| EmailTokens.TokensOfSeparatorFree | course/views.py:499 | Text with no separator (a tab included) is a single token, or none when it is blank |
| EmailTokens.TokensRoundTrip | course/views.py:499 | Well-formed addresses joined by any one separator are read back exactly, in order |
| Enrollment.StepEnrolls | course/views.py:506-533 | One email keeps every existing user and profile, adds only new enrollments in this course and no duplicate pair, and leaves that email's account enrolled |
| Enrollment.StepCreatedIsAdded | course/views.py:518-531 | A newly created account holds no enrollment yet, so a created email is also added |
| Enrollment.StepOnEnrolledIsNoop | course/views.py:526-533 | An email whose account is already enrolled changes nothing and is reported already enrolled |
| Enrollment.StepKeepsEnrolled | course/views.py:506-533 | Another email's enrollment survives a step |
| Enrollment.EnrollStepWellBehaved | course/views.py:506-533 | The step of the bulk view keeps the tables valid and old rows intact, adds only fresh enrollments, enrolls the email, keeps every other enrollment, adds every created email, and is a no-op on an enrolled email |
| Enrollment.CreatedAccountGetsTwoEmails | course/views.py:508-522 | A created account gets the next student id, is inactive, and receives exactly two emails; the stored password and key are those of the second one |
| Enrollment.BatchKeepsValid | course/views.py:506-533 | Every user, profile and enrollment still refers to an id handed out |
| Enrollment.BatchReports | course/views.py:504-533 | Each email lands in exactly one of added and already, both lists in input order, and every created email is added |
| Enrollment.BatchEnrollsAll | course/views.py:506-533 | After a completed batch every token's account is enrolled, existing rows are kept, and only new distinct enrollments in this course are added |
| Enrollment.BatchOnEnrolledIsNoop | course/views.py:506-533 | Emails whose accounts are all enrolled change nothing and are all reported already |
| Enrollment.BatchRerun | course/views.py:508-533 | Re-running a completed batch adds nothing, creates nothing and reports every email already |
| Enrollment.BatchRepeatIsAlready | course/views.py:506-533 | An email repeated later in a batch is reported already that time, with nothing changed |
| Enrollment.BatchFailedSticks | course/views.py:508-515 | A lookup that fails ends the batch: later emails are not processed |
| Enrollment.EnrollUserIn | course/views.py:526-533 | The profile get-or-create and the guarded enrollment do what the step function says |
| Enrollment.InsertStudentUser | course/views.py:508-515 | The inserted user gets the next id and is provisioned by the receiver, with two tokens drawn and one email sent |
| Enrollment.CreateStudentUser | course/views.py:508-522 | The creation branch, receiver included, does what the step function says |
| Enrollment.ResetAndResend | course/views.py:517-521 | The random password and a fresh inactive key replace the row's, the receiver leaves the non-creating save alone, and exactly one email carrying that password and key goes out |
| Enrollment.EnrollEmail | course/views.py:506-533 | One loop iteration does what the step function says and keeps the tables valid |
| Enrollment.EnrollBatch | course/views.py:506-533 | The loop does what the batch function says, with its report |
| Enrollment.BulkAdd | course/views.py:497-543 | Not found iff no course has the slug; more than 50 tokens is refused with nothing changed; otherwise the outcome is the batch over the tokens |
| Enrollment.SingleAdd | course/views.py:546-578 | Not found iff no course has the slug; otherwise the outcome is one step: added (and whether an account was created), already enrolled, or a failed lookup with nothing changed |
| Duplication.UploadsOnNewCourse | course/views.py:219-228 | The new course holds exactly as many uploads as the original, under the new ids, and old rows are unchanged |
| Duplication.UploadCopiesMatch | course/views.py:223-228 | Each new upload copies an original's title and file reference, with the default module number and availability, and each original has a copy |
| Duplication.VideosOnNewCourse | course/views.py:220-236 | The same count and preservation for videos |
| Duplication.VideoCopiesMatch | course/views.py:231-236 | Each new video copies an original's title and video reference, with defaults and a drawn slug, and each original has a copy |
| Duplication.QuizzesOnNewCourse | course/views.py:240-254 | The same count and preservation for quizzes |
| Duplication.QuizCopiesMatch | course/views.py:242-258 | Each new quiz equals an original but for its course, so its question set is the original's, and each original has a copy |
| Duplication.CopyUploads | course/views.py:223-228 | The upload loop creates one copy per original upload under consecutive new ids |
| Duplication.CopyVideos | course/views.py:231-236 | The video loop creates one copy per original video |
| Duplication.CopyQuizzes | course/views.py:239-260 | The quiz loop creates one copy per original quiz, and its total is the sum of their question-set sizes |
| Duplication.CopyQuizRows | course/views.py:242-260 | The accumulated total equals the set sum of question counts over the listed quizzes, whatever the order |
| Duplication.CopyMaterial | course/views.py:219-260 | The three counts equal the original's and the new course's material counts, the question total is the sum, and all copies match |
| Duplication.CourseDuplicate | course/views.py:209-270 | The form carries no credit, so it is 0, and passed the unique checks on slug and code; not found iff the original is missing, with nothing changed; otherwise a new course from the form and the three cascades with the counts reported |
| Duplication.DuplicateFormInitial | course/views.py:273-275 | A NULL title is an error; otherwise only the title and the code change, each becoming the original's behind its prefix ("Copy of ", "Copy-") |
| Duplication.UnchangedPrefillReusesSlug | course/views.py:273-275 | The prefill always proposes a new code but keeps the original's slug, which the table already holds, so posted unchanged it fails the unique checks the duplicate view requires; with the slug cleared it passes exactly when its code is new |
| Registration.Enrollments | course/views.py:598-601 | One enrollment per posted id, in order |
| Registration.KeepMembers | course/views.py:674-676 | A row stays iff it is not one of the student's rows for a dropped course |
| Registration.RegistrationCountsEveryPost | course/views.py:596-601 | Without an existence check, every posted id adds one more row for its pair |
| Registration.RegistrationTakes | course/views.py:596-601 | The student then holds the posted courses besides those held before, and other students' courses are unchanged |
| Registration.DropTakes | course/views.py:674-676 | Dropping removes exactly the dropped courses from the student's courses |
| Registration.DropKeepsOthers | course/views.py:674-676 | Every other student's enrollments are exactly as they were, in order |
| Registration.KeepKeep | course/views.py:674-676 | Dropping in two requests is dropping the union once |
| Registration.RegisterThenDrop | course/views.py:596-601 | Dropping just-registered courses removes every row the registration made |
| Registration.OfferedCreditsBySemester | course/views.py:617-649 | All offered courses are in the current semester, so the other semester's total is zero and the current one's is the whole credit on offer |
| Registration.RegisteringUpdatesPage | course/views.py:612-637 | Registering takes the posted courses off the offer, and one of the student's level makes the no-registration flag false |
| Registration.DroppingUpdatesPage | course/views.py:612-625 | Dropping puts a course back on offer exactly when the page's filters select it |
| Registration.RegisterCourses | course/views.py:591-603 | No profile is an error with nothing created; a missing course stops the loop after the earlier rows were created; otherwise one row per posted id is appended |
| Registration.TakenCourseIds | course/views.py:612-615 | The tuple holds exactly the courses the student is enrolled in |
| Registration.SemesterCredits | course/views.py:645-649 | The two totals are the credit sums of the offered courses labelled "First" and "Second" |
| Registration.TotalCredit | course/views.py:650-651 | The total is the credit sum of the registered courses |
| Registration.RegistrationPage | course/views.py:604-664 | No active semester, a missing student and a missing program are errors; otherwise the page lists the offered and registered courses, the credit totals, and the two flags as iff statements |
| Registration.DropRows | course/views.py:674-676 | The loop deletes the student's rows for each id in turn, stopping at the first id with no course |
| Registration.DropCourses | course/views.py:669-678 | No profile is an error with nothing deleted; a missing course stops after the earlier deletions; otherwise exactly the student's rows for the posted ids go |
| Allocation.AssignReplaces | course/views.py:304-305 | The form succeeds unless the lecturer has several allocations; then the lecturer has one allocation whose courses are exactly the selection, and nobody else's changed |
| Allocation.AddKeepsCourses | course/views.py:169-171 | Adding keeps the lecturer's courses (none for a new allocation) and adds the new one; nobody else's changed |
| Allocation.AssignIdempotent | course/views.py:304-305 | Submitting the same selection twice is the same as once |
| Allocation.AddIdempotent | course/views.py:169-171 | Adding the same course twice is the same as once |
| Allocation.AssignAfterAddForgets | course/views.py:169-171 | The form forgets an earlier added course unless it is selected, whereas adding after the form keeps the selection |
| Allocation.GetOrCreateAllocation | course/views.py:304 | The table becomes what get-or-create gives: the lecturer's one allocation, a new one, or an error with nothing changed |
| Allocation.AllocationFormValid | course/views.py:301-309 | The table becomes what the replacing update gives, or is unchanged on the error |
| Allocation.AllocateCourse | course/views.py:170-171 | The table becomes what adding the course to the lecturer's one allocation gives (a new one when there was none), or is unchanged on the error of several |
| Allocation.CourseAdd | course/views.py:162-176 | The form carries no credit, so it is 0, and passed the unique checks on slug and code; program not found iff it is missing, with no table and no counter changed; otherwise the course is saved, and only a lecturer creator gets it added to their allocation |
| Querysets.ListsSum | course/views.py:645-651 | Adding up along any listing of a queryset gives the set's sum |

## Left out

- HTTP handling, messages, redirects, rendering and the login and role
  decorators are framework plumbing. Each view is modelled from the point where it
  has its arguments (the slug, the primary key, the posted ids, the valid form's
  values) to the tables it leaves and the outcome it reports.
- Form validation is not modelled: each method takes the values of a form that
  validated. The form classes of course/forms.py are not part of this model, and
  neither is the re-rendering of an invalid form.
- Registration.RegisterCourses takes the posted keys as course ids, after the CSRF
  token is removed. The model does not parse the keys, and it does not model a key
  that is not a number.
- Registration.DropCourses models only the POST branch. A GET request returns no
  response in the source, which is a framework error.
- Registration.RegistrationPage lists the offered courses in an order the database
  chooses. It does not model the `order_by("year")`, and no property depends on
  the order.
- Registration.RegistrationPage takes the current semester as the name it compares
  against. core/models.py (the `Semester` model and its text form) is not part of
  this model, and neither are result/models.py and quiz/models.py. Their rows are
  reduced to the fields these views use.
- The EmailThread class and the detached-thread dispatch are out of scope: they
  are concurrency and the mail library. Dispatch is an append to the outbox.
- `generate_password`, `get_random_string`, `make_random_password`,
  `token_urlsafe`, `uuid4`, the slug generator and the clock are one stream of
  random tokens plus a fixed year. `set_password` stores the password as given;
  hashing is not modelled.
- First and last names in the single-add defaults are left out. They take no part
  in any property.
- The username default `email.split("@")[0]` is modelled, but the receiver
  replaces it. The model does not model a clash with an existing username
  (an integrity error in the source).
- AccountSignals.IssueCredentials and AccountSignals.PostSaveAccountReceiver do not
  model the refusal of a generated id that repeats an existing username. The id
  counts the users with the role, so it can repeat once a student is deleted or
  loses the role, or when the table already holds that name. The source's save of
  the credentials then fails on the unique username; the model stores the row as
  it would be written, with the repeated name.
- CourseModels.InsertCourse does not promise that the slug generated for a form
  without one is new: the generator's tokens are opaque, so `Database.Valid` does
  not carry uniqueness of slugs or codes. A slug lookup (`CourseBySlug`, the
  `exists course` of `Enrollment.BulkAdd`) therefore picks any row with that slug;
  only a form's own slug and code are checked (`FormIsUnique`).
- Letter case follows ASCII lower-casing. Unicode case folding is not modelled.
- `Upload.delete` and `UploadVideo.delete` check storage and then delete in two
  steps. The race between two concurrent deletes is out of scope; storage is a set
  of paths.
- `@transaction.atomic` on the duplicate view: a failure part-way through is not
  rolled back in the model. No failure can happen after the original is found.
- The ActivityLog receivers and accounts/apps.py are out of scope. They are logging
  and signal registration.
- The progress-toggle view is not part of this model; only the uniqueness key of
  progress rows is.
- Enrollment.SingleAdd and Enrollment.BulkAdd report a failed lookup (two users
  sharing one email) as an outcome, where the source raises an error. Rows written
  before it stay in the model, as they would in autocommit mode.
