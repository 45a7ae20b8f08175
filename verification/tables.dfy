/** The rows of the application's tables, the database that holds them, the user
    instance that signal receivers mutate, and the environment outside the database
    (random tokens, the year, the id prefixes from the settings, the outgoing mail
    and the object storage that backs uploaded files). */
module Tables {

  type UserId = nat
  type CourseId = nat

  datatype Option<T> = None | Some(value: T)

  /** One row of the user table (`accounts.User`); its id is the key it is stored under. */
  datatype UserRow = UserRow(
    username: string,
    email: string,
    password: string,
    isStudent: bool,
    isLecturer: bool,
    isActive: bool,
    activationKey: string)

  /** A student profile (`accounts.Student`), stored under the id of its user. */
  datatype StudentProfile = StudentProfile(program: Option<nat>, level: Option<string>)

  /** The profile `Student.objects.get_or_create(student=user)` creates. */
  const DefaultProfile := StudentProfile(None, None)

  datatype Program = Program(title: Option<string>, summary: string)

  datatype Course = Course(
    slug: string,
    title: Option<string>,
    code: string,
    credit: int,
    summary: Option<string>,
    program: nat,
    level: string,
    year: int,
    semester: string,
    isElective: bool)

  /** A course file; `file` is the storage path of the file field, "" when empty. */
  datatype Upload = Upload(
    title: Option<string>,
    course: CourseId,
    moduleNumber: int,
    file: string,
    isAvailable: bool)

  /** A course video; `video` is the storage path of the file field, "" when empty. */
  datatype Video = Video(
    title: Option<string>,
    slug: string,
    course: CourseId,
    moduleNumber: int,
    video: string,
    isAvailable: bool,
    summary: string)

  /** A quiz with the settings the duplication copies and its question set. */
  datatype Quiz = Quiz(
    title: string,
    description: string,
    course: CourseId,
    passMark: Option<int>,
    singleAttempt: bool,
    randomOrder: bool,
    answersAtEnd: bool,
    examPaper: bool,
    draft: bool,
    questions: set<nat>)

  datatype Allocation = Allocation(lecturer: UserId, courses: set<CourseId>, session: Option<nat>)

  /** An enrollment (`result.TakenCourse`); `student` is the user id of the profile. */
  datatype TakenCourse = TakenCourse(student: UserId, course: CourseId)

  /** The two choices of `StudentMaterialProgress.material_type`. */
  datatype MaterialType = FileMaterial | VideoMaterial

  /** The key `(taken_course, material_id, material_type)` of a progress row. */
  datatype ProgressKey = ProgressKey(takenCourse: nat, materialId: nat, materialType: MaterialType)

  /** One message handed to the mailer. */
  datatype Email = Email(
    subject: string,
    recipients: seq<string>,
    template: string,
    user: UserId,
    password: string,
    activationLink: string)

  /** What the code takes from outside: `random(n)` is the n-th random token drawn
      (passwords, activation keys, generated slugs), `year` the current year as
      `strftime("%Y")` prints it, and the two id prefixes from the settings. */
  datatype Config = Config(
    random: nat -> string,
    year: string,
    studentPrefix: string,
    lecturerPrefix: string)

  ghost predicate Below(ids: set<nat>, next: nat) {
    forall id :: id in ids ==> id < next
  }

  /** A set of one id is that id alone: what `get_or_create` gets when one row matches. */
  lemma SingletonIs(m: set<nat>, u: nat)
    requires |m| == 1 && u in m
    ensures m == {u}
  {
    assert |m - {u}| == 0;
  }

  /** A table of course material: ids below the next id, and every row's course
      below the next course id (the foreign key points at an existing course). */
  ghost predicate TableValid<T>(rows: map<nat, T>, next: nat, courseOf: T -> CourseId, nextCourse: nat) {
    && Below(rows.Keys, next)
    && forall id :: id in rows ==> courseOf(rows[id]) < nextCourse
  }

  function UploadCourse(u: Upload): CourseId { u.course }
  function VideoCourse(v: Video): CourseId { v.course }
  function QuizCourse(q: Quiz): CourseId { q.course }

  /** `unique_together = ['taken_course', 'material_id', 'material_type']`. */
  ghost predicate ProgressUnique(rows: map<nat, ProgressKey>) {
    forall i, j :: i in rows && j in rows && i != j ==> rows[i] != rows[j]
  }

  /** Every user, profile and enrollment refers to an id already handed out. */
  ghost predicate AccountsValid(
    users: map<UserId, UserRow>, nextUserId: nat,
    students: map<UserId, StudentProfile>, taken: seq<TakenCourse>)
  {
    && Below(users.Keys, nextUserId)
    && Below(students.Keys, nextUserId)
    && forall i :: 0 <= i < |taken| ==> taken[i].student < nextUserId
  }

  /** A user instance in memory: the row's fields plus the transient `_skip_signal` marker. */
  class User {
    var id: UserId
    var username: string
    var email: string
    var password: string
    var isStudent: bool
    var isLecturer: bool
    var isActive: bool
    var activationKey: string
    var skipSignal: bool

    function Row(): UserRow
      reads this
    {
      UserRow(username, email, password, isStudent, isLecturer, isActive, activationKey)
    }

    /** An instance loaded from (or about to be saved as) row `row` under `id`. */
    constructor (id: UserId, row: UserRow)
      ensures this.id == id && Row() == row && !skipSignal
    {
      this.id := id;
      username := row.username;
      email := row.email;
      password := row.password;
      isStudent := row.isStudent;
      isLecturer := row.isLecturer;
      isActive := row.isActive;
      activationKey := row.activationKey;
      skipSignal := false;
    }
  }

  /** The tables of the relational store, keyed by primary key; `next*` is the next
      id the store hands out. */
  class Database {
    var users: map<UserId, UserRow>
    var nextUserId: nat
    var students: map<UserId, StudentProfile>
    var programs: map<nat, Program>
    var courses: map<CourseId, Course>
    var nextCourseId: nat
    var uploads: map<nat, Upload>
    var nextUploadId: nat
    var videos: map<nat, Video>
    var nextVideoId: nat
    var quizzes: map<nat, Quiz>
    var nextQuizId: nat
    var allocations: map<nat, Allocation>
    var nextAllocationId: nat
    var taken: seq<TakenCourse>
    var progress: map<nat, ProgressKey>
    var nextProgressId: nat

    ghost predicate Valid()
      reads this
    {
      && AccountsValid(users, nextUserId, students, taken)
      && ContentValid()
      && Below(allocations.Keys, nextAllocationId)
      && ProgressValid()
    }

    /** Courses and their material: ids below the next one handed out, and material
        pointing at existing courses. */
    ghost predicate ContentValid()
      reads this`courses, this`nextCourseId, this`uploads, this`nextUploadId, this`videos, this`nextVideoId
      reads this`quizzes, this`nextQuizId
    {
      && Below(courses.Keys, nextCourseId)
      && TableValid(uploads, nextUploadId, UploadCourse, nextCourseId)
      && TableValid(videos, nextVideoId, VideoCourse, nextCourseId)
      && TableValid(quizzes, nextQuizId, QuizCourse, nextCourseId)
    }

    /** Progress rows: ids below the next one, keys unique. */
    ghost predicate ProgressValid()
      reads this`progress, this`nextProgressId
    {
      Below(progress.Keys, nextProgressId) && ProgressUnique(progress)
    }

    constructor ()
      ensures Valid()
      ensures users == map[] && students == map[] && programs == map[] && courses == map[]
      ensures uploads == map[] && videos == map[] && quizzes == map[] && allocations == map[]
      ensures taken == [] && progress == map[]
    {
      users, nextUserId, students, programs := map[], 0, map[], map[];
      courses, nextCourseId := map[], 0;
      uploads, nextUploadId, videos, nextVideoId := map[], 0, map[], 0;
      quizzes, nextQuizId, allocations, nextAllocationId := map[], 0, map[], 0;
      taken, progress, nextProgressId := [], map[], 0;
    }

    /** `get_object_or_404(Course, slug=slug)`: a course with that slug, or None for the
        not-found response. The column is unique in the store; `Valid` does not carry
        that, so any matching row may be returned. */
    method CourseBySlug(slug: string) returns (r: Option<CourseId>)
      ensures r.Some? ==> r.value in courses && courses[r.value].slug == slug
      ensures r.None? <==> forall id :: id in courses ==> courses[id].slug != slug
    {
      var found := set id | id in courses && courses[id].slug == slug;
      if found == {} {
        forall id | id in courses
          ensures courses[id].slug != slug
        {
          assert id !in found;
        }
        return None;
      }
      var id :| id in found;
      return Some(id);
    }

    /** Stores the upload table as a loop of `Upload.objects.create` calls left it. */
    method WriteUploads(rows: map<nat, Upload>, next: nat)
      requires Valid() && TableValid(rows, next, UploadCourse, nextCourseId)
      modifies this`uploads, this`nextUploadId
      ensures Valid() && uploads == rows && nextUploadId == next
    {
      uploads, nextUploadId := rows, next;
    }

    /** Stores the video table as a loop of `Video.objects.create` calls left it. */
    method WriteVideos(rows: map<nat, Video>, next: nat)
      requires Valid() && TableValid(rows, next, VideoCourse, nextCourseId)
      modifies this`videos, this`nextVideoId
      ensures Valid() && videos == rows && nextVideoId == next
    {
      videos, nextVideoId := rows, next;
    }

    /** Stores the quiz table as a loop of `Quiz.objects.create` calls left it. */
    method WriteQuizzes(rows: map<nat, Quiz>, next: nat)
      requires Valid() && TableValid(rows, next, QuizCourse, nextCourseId)
      modifies this`quizzes, this`nextQuizId
      ensures Valid() && quizzes == rows && nextQuizId == next
    {
      quizzes, nextQuizId := rows, next;
    }

    /** Stores the enrollment table after a series of creates and deletes that only
        refer to users handed out already. */
    method WriteTaken(rows: seq<TakenCourse>)
      requires Valid() && forall r :: r in rows ==> r.student < nextUserId
      modifies this`taken
      ensures Valid() && taken == rows
    {
      taken := rows;
    }

    /** `user.save()`: writes every field of the instance. */
    method SaveUser(u: User)
      modifies this`users
      ensures users == old(users)[u.id := u.Row()]
    {
      users := users[u.id := u.Row()];
    }

    /** `user.save(update_fields=["username", "password"])`: writes those two fields only. */
    method SaveCredentials(u: User)
      requires u.id in users
      modifies this`users
      ensures users == old(users)[u.id := old(users)[u.id].(username := u.username, password := u.password)]
    {
      users := users[u.id := users[u.id].(username := u.username, password := u.password)];
    }
  }

  /** Everything outside the database. */
  class Env {
    const config: Config
    var draws: nat
    var outbox: seq<Email>
    var storage: set<string>

    constructor (config: Config, storage: set<string>)
      ensures this.config == config && draws == 0 && outbox == [] && this.storage == storage
    {
      this.config := config;
      draws, outbox := 0, [];
      this.storage := storage;
    }

    /** Takes the next random token. */
    method Draw() returns (t: string)
      modifies this`draws
      ensures t == config.random(old(draws)) && draws == old(draws) + 1
    {
      t := config.random(draws);
      draws := draws + 1;
    }
  }
}
