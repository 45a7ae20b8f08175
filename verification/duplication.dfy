/** `course_duplicate` (course/views.py): a new course from the submitted form, then a
    copy on it of every upload, video and quiz of the original course. Copies share
    the original's stored file and question set. */
module Duplication {
  import opened Tables
  import opened Sums
  import opened Querysets
  import opened CourseModels

  /** The ids `lo <= n < hi` are `hi - lo` many. */
  lemma {:induction false} RangeCard(s: set<nat>, lo: nat, hi: nat)
    requires lo <= hi && forall n :: n in s <==> lo <= n < hi
    ensures |s| == hi - lo
    decreases hi - lo
  {
    if lo < hi {
      RangeCard(s - {hi - 1}, lo, hi - 1);
    } else {
      assert s == {};
    }
  }

  // ------------------------------------------------------------ copies

  /** `after` is `before` plus, under the ids `lo`, `lo + 1`, ... that the table hands
      out next, the copy (made by `copy`, which may depend on the new id) of each row
      listed in `order`, in that order. */
  ghost predicate CopiedRows<T>(before: map<nat, T>, after: map<nat, T>, order: seq<nat>, lo: nat, copy: (nat, T) -> T) {
    && (forall id :: id in before ==> id < lo)
    && (forall k :: 0 <= k < |order| ==> order[k] in before)
    && (forall n :: n in after <==> n in before || lo <= n < lo + |order|)
    && (forall id :: id in before ==> after[id] == before[id])
    && (forall k :: 0 <= k < |order| ==> after[lo + k] == copy(lo + k, before[order[k]]))
  }

  /** One more copy, under the next id. */
  lemma CopiedRowsStep<T>(before: map<nat, T>, after: map<nat, T>, order: seq<nat>, lo: nat, copy: (nat, T) -> T, o: nat)
    requires CopiedRows(before, after, order, lo, copy) && o in before
    ensures CopiedRows(before, after[lo + |order| := copy(lo + |order|, before[o])], order + [o], lo, copy)
  {
    var after' := after[lo + |order| := copy(lo + |order|, before[o])];
    var order' := order + [o];
    forall k | 0 <= k < |order'|
      ensures order'[k] in before && after'[lo + k] == copy(lo + k, before[order'[k]])
    {
      if k < |order| {
        assert order'[k] == order[k];
      }
    }
  }

  /** The table's ids stay below the next id once the copies are in. */
  lemma CopiedRowsBelow<T>(before: map<nat, T>, after: map<nat, T>, order: seq<nat>, lo: nat, copy: (nat, T) -> T)
    requires CopiedRows(before, after, order, lo, copy)
    ensures Below(after.Keys, lo + |order|)
  {
  }

  /** The rows of a table that belong to `course`, `courseOf` reading a row's course. */
  function RowsOf<T>(rows: map<nat, T>, course: CourseId, courseOf: T -> CourseId): set<nat> {
    set id | id in rows && courseOf(rows[id]) == course
  }

  /** On a course that had no rows, the copies are exactly its rows: the new ids, one
      per listed original. */
  lemma CopiesOnNewCourse<T>(before: map<nat, T>, after: map<nat, T>, order: seq<nat>, originals: set<nat>, lo: nat,
                             copy: (nat, T) -> T, courseOf: T -> CourseId, to: CourseId)
    requires CopiedRows(before, after, order, lo, copy) && Lists(order, originals)
    requires RowsOf(before, to, courseOf) == {}
    requires forall n, t :: courseOf(copy(n, t)) == to
    ensures forall n :: n in RowsOf(after, to, courseOf) <==> lo <= n < lo + |order|
    ensures |RowsOf(after, to, courseOf)| == |originals|
  {
    forall n
      ensures n in RowsOf(after, to, courseOf) <==> lo <= n < lo + |order|
    {
      if n in before {
        assert n !in RowsOf(before, to, courseOf);
      } else if lo <= n < lo + |order| {
        assert after[lo + (n - lo)] == copy(n, before[order[n - lo]]);
      }
    }
    RangeCard(RowsOf(after, to, courseOf), lo, lo + |order|);
    ListsCard(order, originals);
  }

  /** `row`, stored under id `n`, is the copy of one of the rows `originals` of `before`. */
  ghost predicate CopyOfSome<T>(row: T, n: nat, before: map<nat, T>, originals: set<nat>, copy: (nat, T) -> T) {
    exists o: nat :: o in originals && o in before && row == copy(n, before[o])
  }

  /** The copy of `row` is stored in `after` under one of the ids `lo <= n < hi`. */
  ghost predicate HasCopy<T>(row: T, after: map<nat, T>, lo: nat, hi: nat, copy: (nat, T) -> T) {
    exists n: nat :: lo <= n < hi && n in after && after[n] == copy(n, row)
  }

  /** Each row under a new id is the copy of a listed original, and each original has
      its copy under a new id. */
  lemma CopiesMatchOriginals<T>(before: map<nat, T>, after: map<nat, T>, order: seq<nat>, originals: set<nat>, lo: nat,
                                copy: (nat, T) -> T)
    requires CopiedRows(before, after, order, lo, copy) && Lists(order, originals)
    ensures forall n: nat :: lo <= n < lo + |order| ==> n in after && CopyOfSome(after[n], n, before, originals, copy)
    ensures forall o :: o in originals ==> o in before && HasCopy(before[o], after, lo, lo + |order|, copy)
  {
    forall n: nat | lo <= n < lo + |order|
      ensures n in after && CopyOfSome(after[n], n, before, originals, copy)
    {
      var k := n - lo;
      assert order[k] in order;
      assert after[lo + k] == copy(lo + k, before[order[k]]);
    }
    forall o | o in originals
      ensures o in before && HasCopy(before[o], after, lo, lo + |order|, copy)
    {
      var k :| 0 <= k < |order| && order[k] == o;
      assert after[lo + k] == copy(lo + k, before[o]);
    }
  }

  /** `Upload.objects.filter(course_id=pk)`. */
  function UploadsOf(uploads: map<nat, Upload>, course: CourseId): set<nat> {
    RowsOf(uploads, course, UploadCourse)
  }

  function VideosOf(videos: map<nat, Video>, course: CourseId): set<nat> {
    RowsOf(videos, course, VideoCourse)
  }

  function QuizzesOf(quizzes: map<nat, Quiz>, course: CourseId): set<nat> {
    RowsOf(quizzes, course, QuizCourse)
  }

  /** `Upload.objects.create(title=..., file=..., course_id=...)`: module number and
      availability take their defaults. */
  function CopyUpload(u: Upload, to: CourseId): (c: Upload)
    ensures c.title == u.title && c.file == u.file && c.course == to
  {
    Upload(u.title, to, 0, u.file, true)
  }

  /** The video copy as the view builds it, before the pre-save receiver gives it a slug. */
  function CopyVideo(v: Video, to: CourseId): (c: Video)
    ensures c.title == v.title && c.video == v.video && c.course == to
  {
    Video(v.title, "", to, 0, v.video, true, "")
  }

  /** The quiz copy: title, description, pass mark and the five flags, on the new course,
      with the same question set. */
  function CopyQuiz(q: Quiz, to: CourseId): (c: Quiz)
    ensures c == q.(course := to)
  {
    Quiz(q.title, q.description, to, q.passMark, q.singleAttempt, q.randomOrder,
         q.answersAtEnd, q.examPaper, q.draft, q.questions)
  }

  function UploadCopier(to: CourseId): (nat, Upload) -> Upload {
    (n, u) => CopyUpload(u, to)
  }

  /** The copy of a video stored under id `n`: one slug drawn per video, in id order. */
  function VideoCopier(cfg: Config, d0: nat, lo: nat, to: CourseId): (nat, Video) -> Video {
    (n: nat, v) => SavedVideoCopy(cfg, d0, lo, n, v, to)
  }

  /** The copy of video `v` stored under id `n`, as saved: the pre-save receiver gives
      it the slug of the draw for that id. */
  function SavedVideoCopy(cfg: Config, d0: nat, lo: nat, n: nat, v: Video, to: CourseId): (c: Video)
    ensures c == Video(v.title, cfg.random(SlugDraw(d0, lo, n)), to, 0, v.video, true, "")
  {
    VideoPreSave(CopyVideo(v, to), cfg.random(SlugDraw(d0, lo, n)))
  }

  /** The draw that gives the slug of the copy stored under id `n`, the first copy
      going under `lo` and using draw `d0`. */
  function SlugDraw(d0: nat, lo: nat, n: nat): nat {
    if n >= lo then d0 + (n - lo) else d0
  }

  function QuizCopier(to: CourseId): (nat, Quiz) -> Quiz {
    (n, q) => CopyQuiz(q, to)
  }

  /** The uploads of course `to` after the loop are the uploads of `from` listed in
      some order and copied, one per id from `lo` up to `hi`. */
  ghost predicate UploadsDuplicated(before: map<nat, Upload>, after: map<nat, Upload>, from: CourseId, to: CourseId, lo: nat, hi: nat) {
    exists order: seq<nat> ::
      Lists(order, UploadsOf(before, from)) && lo + |order| == hi && CopiedRows(before, after, order, lo, UploadCopier(to))
  }

  ghost predicate VideosDuplicated(cfg: Config, d0: nat, before: map<nat, Video>, after: map<nat, Video>, from: CourseId, to: CourseId, lo: nat, hi: nat) {
    exists order: seq<nat> ::
      Lists(order, VideosOf(before, from)) && lo + |order| == hi && CopiedRows(before, after, order, lo, VideoCopier(cfg, d0, lo, to))
  }

  ghost predicate QuizzesDuplicated(before: map<nat, Quiz>, after: map<nat, Quiz>, from: CourseId, to: CourseId, lo: nat, hi: nat) {
    exists order: seq<nat> ::
      Lists(order, QuizzesOf(before, from)) && lo + |order| == hi && CopiedRows(before, after, order, lo, QuizCopier(to))
  }

  /** The uploads of the new course are the rows under the new ids, exactly as many as
      the original's; the rows that were there are unchanged. */
  lemma UploadsOnNewCourse(before: map<nat, Upload>, after: map<nat, Upload>, from: CourseId, to: CourseId, lo: nat, hi: nat)
    requires UploadsDuplicated(before, after, from, to, lo, hi)
    requires UploadsOf(before, to) == {}
    ensures forall n :: n in UploadsOf(after, to) <==> lo <= n < hi
    ensures |UploadsOf(after, to)| == |UploadsOf(before, from)|
    ensures forall id :: id in before ==> id in after && after[id] == before[id]
  {
    var order: seq<nat> :| Lists(order, UploadsOf(before, from)) && lo + |order| == hi
                         && CopiedRows(before, after, order, lo, UploadCopier(to));
    CopiesOnNewCourse(before, after, order, UploadsOf(before, from), lo, UploadCopier(to), UploadCourse, to);
  }

  /** Each new upload is a copy (title and stored file, default module number and
      availability) of an upload of the original course, and each of those has one. */
  lemma UploadCopiesMatch(before: map<nat, Upload>, after: map<nat, Upload>, from: CourseId, to: CourseId, lo: nat, hi: nat)
    requires UploadsDuplicated(before, after, from, to, lo, hi)
    ensures forall n: nat :: lo <= n < hi ==> n in after && CopyOfSome(after[n], n, before, UploadsOf(before, from), UploadCopier(to))
    ensures forall o :: o in UploadsOf(before, from) ==> o in before && HasCopy(before[o], after, lo, hi, UploadCopier(to))
  {
    var order: seq<nat> :| Lists(order, UploadsOf(before, from)) && lo + |order| == hi
                         && CopiedRows(before, after, order, lo, UploadCopier(to));
    CopiesMatchOriginals(before, after, order, UploadsOf(before, from), lo, UploadCopier(to));
  }


  /** The same for videos. */
  lemma VideosOnNewCourse(cfg: Config, d0: nat, before: map<nat, Video>, after: map<nat, Video>, from: CourseId, to: CourseId, lo: nat, hi: nat)
    requires VideosDuplicated(cfg, d0, before, after, from, to, lo, hi)
    requires VideosOf(before, to) == {}
    ensures forall n :: n in VideosOf(after, to) <==> lo <= n < hi
    ensures |VideosOf(after, to)| == |VideosOf(before, from)|
    ensures forall id :: id in before ==> id in after && after[id] == before[id]
  {
    var order: seq<nat> :| Lists(order, VideosOf(before, from)) && lo + |order| == hi
                         && CopiedRows(before, after, order, lo, VideoCopier(cfg, d0, lo, to));
    CopiesOnNewCourse(before, after, order, VideosOf(before, from), lo, VideoCopier(cfg, d0, lo, to), VideoCourse, to);
  }

  /** Each new video is a copy of a video of the original course, with an empty summary
      and the slug drawn for its id, and each of those has one. */
  lemma VideoCopiesMatch(cfg: Config, d0: nat, before: map<nat, Video>, after: map<nat, Video>, from: CourseId, to: CourseId, lo: nat, hi: nat)
    requires VideosDuplicated(cfg, d0, before, after, from, to, lo, hi)
    ensures forall n: nat :: lo <= n < hi ==> n in after && CopyOfSome(after[n], n, before, VideosOf(before, from), VideoCopier(cfg, d0, lo, to))
    ensures forall o :: o in VideosOf(before, from) ==> o in before && HasCopy(before[o], after, lo, hi, VideoCopier(cfg, d0, lo, to))
  {
    var order: seq<nat> :| Lists(order, VideosOf(before, from)) && lo + |order| == hi
                         && CopiedRows(before, after, order, lo, VideoCopier(cfg, d0, lo, to));
    CopiesMatchOriginals(before, after, order, VideosOf(before, from), lo, VideoCopier(cfg, d0, lo, to));
  }


  /** The quizzes of the new course are the rows under the new ids, as many as the
      original's. */
  lemma QuizzesOnNewCourse(before: map<nat, Quiz>, after: map<nat, Quiz>, from: CourseId, to: CourseId, lo: nat, hi: nat)
    requires QuizzesDuplicated(before, after, from, to, lo, hi)
    requires QuizzesOf(before, to) == {}
    ensures forall n :: n in QuizzesOf(after, to) <==> lo <= n < hi
    ensures |QuizzesOf(after, to)| == |QuizzesOf(before, from)|
    ensures forall id :: id in before ==> id in after && after[id] == before[id]
  {
    var order: seq<nat> :| Lists(order, QuizzesOf(before, from)) && lo + |order| == hi
                         && CopiedRows(before, after, order, lo, QuizCopier(to));
    CopiesOnNewCourse(before, after, order, QuizzesOf(before, from), lo, QuizCopier(to), QuizCourse, to);
  }

  /** Each new quiz equals a quiz of the original course but for the course, so it has
      the same question set, and each of those has one. */
  lemma QuizCopiesMatch(before: map<nat, Quiz>, after: map<nat, Quiz>, from: CourseId, to: CourseId, lo: nat, hi: nat)
    requires QuizzesDuplicated(before, after, from, to, lo, hi)
    ensures forall n: nat :: lo <= n < hi ==> n in after && CopyOfSome(after[n], n, before, QuizzesOf(before, from), QuizCopier(to))
    ensures forall o :: o in QuizzesOf(before, from) ==> o in before && HasCopy(before[o], after, lo, hi, QuizCopier(to))
  {
    var order: seq<nat> :| Lists(order, QuizzesOf(before, from)) && lo + |order| == hi
                         && CopiedRows(before, after, order, lo, QuizCopier(to));
    CopiesMatchOriginals(before, after, order, QuizzesOf(before, from), lo, QuizCopier(to));
  }


  /** The number of questions of a quiz, as `question_set.count()` gives it. */
  function QuestionCount(quizzes: map<nat, Quiz>): nat -> int {
    id => if id in quizzes then |quizzes[id].questions| else 0
  }

  /** The number of questions over the quizzes of a course. */
  ghost function QuestionTotal(quizzes: map<nat, Quiz>, course: CourseId): int {
    SetSum(QuizzesOf(quizzes, course), QuestionCount(quizzes))
  }

  // ------------------------------------------------------------ the loops

  /** A property every old row and every copy has holds of every row afterwards. */
  lemma CopiedRowsKeep<T>(before: map<nat, T>, after: map<nat, T>, order: seq<nat>, lo: nat, copy: (nat, T) -> T, p: T -> bool)
    requires CopiedRows(before, after, order, lo, copy)
    requires forall id :: id in before ==> p(before[id])
    requires forall n, t :: p(copy(n, t))
    ensures forall id :: id in after ==> p(after[id])
  {
    forall id | id in after
      ensures p(after[id])
    {
      if id !in before {
        assert after[lo + (id - lo)] == copy(id, before[order[id - lo]]);
      }
    }
  }

  /** Copying rows whose copies point at an existing course keeps the table valid. */
  lemma CopiedRowsValid<T>(before: map<nat, T>, after: map<nat, T>, order: seq<nat>, lo: nat, copy: (nat, T) -> T,
                           courseOf: T -> CourseId, nextCourse: nat)
    requires CopiedRows(before, after, order, lo, copy) && TableValid(before, lo, courseOf, nextCourse)
    requires forall n, t :: courseOf(copy(n, t)) < nextCourse
    ensures TableValid(after, lo + |order|, courseOf, nextCourse)
  {
    CopiedRowsBelow(before, after, order, lo, copy);
    CopiedRowsKeep(before, after, order, lo, copy, (t: T) => courseOf(t) < nextCourse);
  }

  /** `for upload in Upload.objects.filter(course_id=pk): Upload.objects.create(...)`. */
  method CopyUploads(db: Database, from: CourseId, to: CourseId) returns (count: nat)
    requires db.Valid() && to < db.nextCourseId
    modifies db`uploads, db`nextUploadId
    ensures db.Valid()
    ensures count == |UploadsOf(old(db.uploads), from)| && db.nextUploadId == old(db.nextUploadId) + count
    ensures UploadsDuplicated(old(db.uploads), db.uploads, from, to, old(db.nextUploadId), db.nextUploadId)
  {
    var originals := Evaluate(UploadsOf(db.uploads, from));
    ListsCard(originals, UploadsOf(db.uploads, from));
    count := |originals|;
    assert forall k :: 0 <= k < |originals| ==> originals[k] in db.uploads by {
      forall k | 0 <= k < |originals|
        ensures originals[k] in db.uploads
      {
        assert originals[k] in originals;
      }
    }
    ghost var before, lo := db.uploads, db.nextUploadId;
    var uploads, next := CopyUploadRows(db.uploads, db.nextUploadId, originals, to);
    CopiedRowsValid(before, uploads, originals, lo, UploadCopier(to), UploadCourse, db.nextCourseId);
    db.WriteUploads(uploads, next);
  }

  /** The loop itself, on the table's rows and next id. */
  method CopyUploadRows(before: map<nat, Upload>, lo: nat, originals: seq<nat>, to: CourseId)
    returns (after: map<nat, Upload>, next: nat)
    requires Below(before.Keys, lo) && forall k :: 0 <= k < |originals| ==> originals[k] in before
    ensures next == lo + |originals| && CopiedRows(before, after, originals, lo, UploadCopier(to))
  {
    after, next := before, lo;
    for k := 0 to |originals|
      invariant next == lo + k
      invariant CopiedRows(before, after, originals[..k], lo, UploadCopier(to))
    {
      var upload := after[originals[k]];
      CopiedRowsStep(before, after, originals[..k], lo, UploadCopier(to), originals[k]);
      assert originals[..k + 1] == originals[..k] + [originals[k]];
      after := after[next := CopyUpload(upload, to)];
      next := next + 1;
    }
    assert originals[..|originals|] == originals;
  }

  /** The videos loop; the pre-save receiver draws each copy's slug. */
  method CopyVideos(db: Database, env: Env, from: CourseId, to: CourseId) returns (count: nat)
    requires db.Valid() && to < db.nextCourseId
    modifies db`videos, db`nextVideoId, env`draws
    ensures db.Valid()
    ensures count == |VideosOf(old(db.videos), from)| && db.nextVideoId == old(db.nextVideoId) + count
    ensures env.draws == old(env.draws) + count
    ensures VideosDuplicated(env.config, old(env.draws), old(db.videos), db.videos, from, to, old(db.nextVideoId), db.nextVideoId)
  {
    var originals := Evaluate(VideosOf(db.videos, from));
    ListsCard(originals, VideosOf(db.videos, from));
    count := |originals|;
    assert forall k :: 0 <= k < |originals| ==> originals[k] in db.videos by {
      forall k | 0 <= k < |originals|
        ensures originals[k] in db.videos
      {
        assert originals[k] in originals;
      }
    }
    ghost var before, lo := db.videos, db.nextVideoId;
    ghost var copy := VideoCopier(env.config, env.draws, lo, to);
    var videos, next := CopyVideoRows(env, db.videos, db.nextVideoId, originals, to);
    CopiedRowsValid(before, videos, originals, lo, copy, VideoCourse, db.nextCourseId);
    db.WriteVideos(videos, next);
  }

  /** The videos loop on the table's rows and next id. */
  method CopyVideoRows(env: Env, before: map<nat, Video>, lo: nat, originals: seq<nat>, to: CourseId)
    returns (after: map<nat, Video>, next: nat)
    requires Below(before.Keys, lo) && forall k :: 0 <= k < |originals| ==> originals[k] in before
    modifies env`draws
    ensures next == lo + |originals| && env.draws == old(env.draws) + |originals|
    ensures CopiedRows(before, after, originals, lo, VideoCopier(env.config, old(env.draws), lo, to))
  {
    ghost var copy := VideoCopier(env.config, env.draws, lo, to);
    ghost var d0 := env.draws;
    after, next := before, lo;
    for k := 0 to |originals|
      invariant next == lo + k && env.draws == d0 + k
      invariant CopiedRows(before, after, originals[..k], lo, copy)
    {
      var video := after[originals[k]];
      CopiedRowsStep(before, after, originals[..k], lo, copy, originals[k]);
      assert originals[..k + 1] == originals[..k] + [originals[k]];
      assert SlugDraw(d0, lo, next) == env.draws;
      var slug := env.Draw();
      after := after[next := VideoPreSave(CopyVideo(video, to), slug)];
      assert after[next] == copy(next, video);
      next := next + 1;
    }
    assert originals[..|originals|] == originals;
  }

  /** The quizzes loop, adding up the question counts as it goes. */
  method CopyQuizzes(db: Database, from: CourseId, to: CourseId) returns (count: nat, totalQuestions: int)
    requires db.Valid() && to < db.nextCourseId
    modifies db`quizzes, db`nextQuizId
    ensures db.Valid()
    ensures count == |QuizzesOf(old(db.quizzes), from)| && db.nextQuizId == old(db.nextQuizId) + count
    ensures totalQuestions == QuestionTotal(old(db.quizzes), from)
    ensures QuizzesDuplicated(old(db.quizzes), db.quizzes, from, to, old(db.nextQuizId), db.nextQuizId)
  {
    var originals := Evaluate(QuizzesOf(db.quizzes, from));
    ListsCard(originals, QuizzesOf(db.quizzes, from));
    count := |originals|;
    assert forall k :: 0 <= k < |originals| ==> originals[k] in db.quizzes by {
      forall k | 0 <= k < |originals|
        ensures originals[k] in db.quizzes
      {
        assert originals[k] in originals;
      }
    }
    ghost var before, lo := db.quizzes, db.nextQuizId;
    var quizzes: map<nat, Quiz>, next: nat;
    quizzes, next, totalQuestions := CopyQuizRows(db.quizzes, db.nextQuizId, originals, QuizzesOf(before, from), to);
    CopiedRowsValid(before, quizzes, originals, lo, QuizCopier(to), QuizCourse, db.nextCourseId);
    db.WriteQuizzes(quizzes, next);
  }

  /** The quizzes loop on the table's rows and next id. */
  method CopyQuizRows(before: map<nat, Quiz>, lo: nat, originals: seq<nat>, ghost listed: set<nat>, to: CourseId)
    returns (after: map<nat, Quiz>, next: nat, totalQuestions: int)
    requires Below(before.Keys, lo) && forall k :: 0 <= k < |originals| ==> originals[k] in before
    requires Lists(originals, listed)
    ensures next == lo + |originals| && CopiedRows(before, after, originals, lo, QuizCopier(to))
    ensures totalQuestions == SetSum(listed, QuestionCount(before))
  {
    ghost var f := QuestionCount(before);
    after, next, totalQuestions := before, lo, 0;
    for k := 0 to |originals|
      invariant next == lo + k
      invariant CopiedRows(before, after, originals[..k], lo, QuizCopier(to))
      invariant totalQuestions == SeqSum(originals[..k], f)
    {
      var quiz := after[originals[k]];
      CopiedRowsStep(before, after, originals[..k], lo, QuizCopier(to), originals[k]);
      assert originals[..k + 1] == originals[..k] + [originals[k]];
      assert f(originals[k]) == |quiz.questions|;
      after := after[next := CopyQuiz(quiz, to)];
      next := next + 1;
      totalQuestions := totalQuestions + |quiz.questions|;
    }
    assert originals[..|originals|] == originals;
    ListsSum(originals, listed, f);
  }

  datatype DuplicateOutcome =
    | OriginalNotFound
    | Duplicated(newCourse: CourseId, uploads: nat, videos: nat, quizzes: nat, questions: int)

  /** A course id no row points at yet has no rows. */
  lemma NoRowsOfNewCourse<T>(rows: map<nat, T>, next: nat, courseOf: T -> CourseId, nextCourse: nat)
    requires TableValid(rows, next, courseOf, nextCourse)
    ensures RowsOf(rows, nextCourse, courseOf) == {}
  {
  }

  /** The three copy loops of `course_duplicate`, onto a course that has no material yet. */
  method CopyMaterial(db: Database, env: Env, from: CourseId, to: CourseId)
    returns (uploads: nat, videos: nat, quizzes: nat, questions: int)
    requires db.Valid() && to < db.nextCourseId
    requires UploadsOf(db.uploads, to) == {} && VideosOf(db.videos, to) == {} && QuizzesOf(db.quizzes, to) == {}
    modifies db`uploads, db`nextUploadId, db`videos, db`nextVideoId, db`quizzes, db`nextQuizId, env`draws
    ensures db.Valid()
    ensures uploads == |UploadsOf(old(db.uploads), from)| == |UploadsOf(db.uploads, to)|
    ensures videos == |VideosOf(old(db.videos), from)| == |VideosOf(db.videos, to)|
    ensures quizzes == |QuizzesOf(old(db.quizzes), from)| == |QuizzesOf(db.quizzes, to)|
    ensures questions == QuestionTotal(old(db.quizzes), from)
    ensures UploadsDuplicated(old(db.uploads), db.uploads, from, to, old(db.nextUploadId), db.nextUploadId)
    ensures VideosDuplicated(env.config, old(env.draws), old(db.videos), db.videos, from, to, old(db.nextVideoId), db.nextVideoId)
    ensures QuizzesDuplicated(old(db.quizzes), db.quizzes, from, to, old(db.nextQuizId), db.nextQuizId)
  {
    uploads := CopyUploads(db, from, to);
    UploadsOnNewCourse(old(db.uploads), db.uploads, from, to, old(db.nextUploadId), db.nextUploadId);
    videos := CopyVideos(db, env, from, to);
    VideosOnNewCourse(env.config, old(env.draws), old(db.videos), db.videos, from, to, old(db.nextVideoId), db.nextVideoId);
    quizzes, questions := CopyQuizzes(db, from, to);
    QuizzesOnNewCourse(old(db.quizzes), db.quizzes, from, to, old(db.nextQuizId), db.nextQuizId);
  }

  /** The POST branch of `course_duplicate` for a valid form; the form leaves out
      `credit`, so the copy keeps the default of 0. */
  method CourseDuplicate(db: Database, env: Env, pk: CourseId, form: Course) returns (outcome: DuplicateOutcome)
    requires db.Valid() && form.credit == 0 && FormIsUnique(db.courses, form)
    modifies db`courses, db`nextCourseId, db`uploads, db`nextUploadId, db`videos, db`nextVideoId,
             db`quizzes, db`nextQuizId, env`draws
    ensures db.Valid()
    ensures pk !in old(db.courses) <==> outcome == OriginalNotFound
    ensures outcome == OriginalNotFound ==>
      && db.courses == old(db.courses) && env.draws == old(env.draws)
      && db.uploads == old(db.uploads) && db.videos == old(db.videos) && db.quizzes == old(db.quizzes)
      && db.nextCourseId == old(db.nextCourseId) && db.nextUploadId == old(db.nextUploadId)
      && db.nextVideoId == old(db.nextVideoId) && db.nextQuizId == old(db.nextQuizId)
    ensures outcome.Duplicated? ==>
      var to := outcome.newCourse;
      var d0 := old(env.draws) + (if form.slug == "" then 1 else 0);
      && to == old(db.nextCourseId)
      && db.courses == old(db.courses)[to := CoursePreSave(form, env.config.random(old(env.draws)))]
      && outcome.uploads == |UploadsOf(old(db.uploads), pk)| == |UploadsOf(db.uploads, to)|
      && outcome.videos == |VideosOf(old(db.videos), pk)| == |VideosOf(db.videos, to)|
      && outcome.quizzes == |QuizzesOf(old(db.quizzes), pk)| == |QuizzesOf(db.quizzes, to)|
      && outcome.questions == QuestionTotal(old(db.quizzes), pk)
      && UploadsDuplicated(old(db.uploads), db.uploads, pk, to, old(db.nextUploadId), db.nextUploadId)
      && VideosDuplicated(env.config, d0, old(db.videos), db.videos, pk, to, old(db.nextVideoId), db.nextVideoId)
      && QuizzesDuplicated(old(db.quizzes), db.quizzes, pk, to, old(db.nextQuizId), db.nextQuizId)
  {
    if pk !in db.courses {
      return OriginalNotFound;
    }
    var to := InsertCourse(db, env, form);
    NoRowsOfNewCourse(db.uploads, db.nextUploadId, UploadCourse, to);
    NoRowsOfNewCourse(db.videos, db.nextVideoId, VideoCourse, to);
    NoRowsOfNewCourse(db.quizzes, db.nextQuizId, QuizCourse, to);
    var uploads, videos, quizzes, questions := CopyMaterial(db, env, pk, to);
    outcome := Duplicated(to, uploads, videos, quizzes, questions);
  }

  /** The GET branch's prefill: the original with "Copy of " before its title and
      "Copy-" before its code; None stands for the error a NULL title raises. */
  function DuplicateFormInitial(original: Course): (r: Option<Course>)
    ensures r.None? <==> original.title.None?
    ensures r.Some? ==>
      && r.value.(title := original.title, code := original.code) == original
      && r.value.title.Some? && "Copy of " <= r.value.title.value
      && r.value.title.value[|"Copy of "|..] == original.title.value
      && "Copy-" <= r.value.code && r.value.code[|"Copy-"|..] == original.code
  {
    if original.title.None? then None
    else
      var title, code := "Copy of " + original.title.value, "Copy-" + original.code;
      PrefixParts("Copy of ", original.title.value);
      PrefixParts("Copy-", original.code);
      Some(original.(title := Some(title), code := code))
  }

  lemma PrefixParts(a: string, b: string)
    ensures a <= a + b && (a + b)[|a|..] == b
  {
    assert (a + b)[..|a|] == a;
  }

  /** The prefill always proposes a code other than the original's, but keeps the
      original's slug, which is already in the table's unique slug column: submitted
      unchanged, the form fails the unique checks `CourseDuplicate` requires, until
      the slug is cleared or edited. */
  lemma UnchangedPrefillReusesSlug(courses: map<CourseId, Course>, pk: CourseId)
    requires pk in courses && courses[pk].title.Some?
    ensures DuplicateFormInitial(courses[pk]).Some?
    ensures var prefill := DuplicateFormInitial(courses[pk]).value;
      && prefill.code != courses[pk].code
      && prefill.slug == courses[pk].slug
      && (exists id :: id in courses && courses[id].slug == prefill.slug)
      && (courses[pk].slug != "" ==> !FormIsUnique(courses, prefill))
      && (FormIsUnique(courses, prefill.(slug := "")) <==> forall id :: id in courses ==> courses[id].code != prefill.code)
  {
    var prefill := DuplicateFormInitial(courses[pk]).value;
    assert |prefill.code| == |"Copy-"| + |courses[pk].code|;
    assert courses[pk].slug == prefill.slug;
  }
}
