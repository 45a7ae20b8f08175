/** Model-level behaviour of the course app (course/models.py): search filters, the
    current-semester test, slug pre-save receivers, upload path naming, extension
    classification, reference-counted deletion of stored files and the uniqueness of
    material-progress rows. */
module CourseModels {
  import opened Tables
  import opened Text

  // ---------------------------------------------------------------- search

  /** `field__icontains=query` on a non-null text column. */
  predicate IContains(field: string, query: string) {
    Contains(Lower(field), Lower(query))
  }

  /** `field__icontains=query` on a nullable column: NULL never matches. */
  predicate OptIContains(field: Option<string>, query: string) {
    field.Some? && IContains(field.value, query)
  }

  predicate ProgramMatches(p: Program, query: string) {
    OptIContains(p.title, query) || IContains(p.summary, query)
  }

  predicate CourseMatches(c: Course, query: string) {
    OptIContains(c.title, query) || OptIContains(c.summary, query)
    || IContains(c.code, query) || IContains(c.slug, query)
  }

  /** `ProgramManager.search(query)`: every program for a missing or empty query,
      otherwise the distinct programs whose title or summary contains it. */
  function ProgramSearch(programs: map<nat, Program>, query: Option<string>): (r: set<nat>)
    ensures r <= programs.Keys
    ensures query == None || query == Some("") ==> r == programs.Keys
  {
    if query == None || query.value == "" then programs.Keys
    else set id | id in programs && ProgramMatches(programs[id], query.value)
  }

  /** `CourseManager.search(query)`: as for programs, over title, summary, code and slug. */
  function CourseSearch(courses: map<CourseId, Course>, query: Option<string>): (r: set<CourseId>)
    ensures r <= courses.Keys
    ensures query == None || query == Some("") ==> r == courses.Keys
  {
    if query == None || query.value == "" then courses.Keys
    else set id | id in courses && CourseMatches(courses[id], query.value)
  }

  lemma ContainsEmpty(sub: string)
    requires Contains([], sub)
    ensures sub == []
  {
  }

  /** A field that contains a query contains every part of it. */
  lemma IContainsNarrow(field: string, q1: string, q2: string)
    requires Contains(Lower(q2), Lower(q1)) && IContains(field, q2)
    ensures IContains(field, q1)
  {
    ContainsTransitive(Lower(field), Lower(q2), Lower(q1));
  }

  /** Refining a query never widens the result: a query that contains `q1`
      (ignoring case) finds only programs that `q1` finds. */
  lemma ProgramSearchNarrows(programs: map<nat, Program>, q1: string, q2: string)
    requires Contains(Lower(q2), Lower(q1))
    ensures ProgramSearch(programs, Some(q2)) <= ProgramSearch(programs, Some(q1))
  {
    if q2 == "" {
      ContainsEmpty(Lower(q1));
    } else if q1 != "" {
      forall id | id in ProgramSearch(programs, Some(q2))
        ensures id in ProgramSearch(programs, Some(q1))
      {
        var p := programs[id];
        if OptIContains(p.title, q2) {
          IContainsNarrow(p.title.value, q1, q2);
        } else {
          IContainsNarrow(p.summary, q1, q2);
        }
      }
    }
  }

  /** The same for courses, over their four searchable fields. */
  lemma CourseSearchNarrows(courses: map<CourseId, Course>, q1: string, q2: string)
    requires Contains(Lower(q2), Lower(q1))
    ensures CourseSearch(courses, Some(q2)) <= CourseSearch(courses, Some(q1))
  {
    if q2 == "" {
      ContainsEmpty(Lower(q1));
    } else if q1 != "" {
      forall id | id in CourseSearch(courses, Some(q2))
        ensures id in CourseSearch(courses, Some(q1))
      {
        var c := courses[id];
        if OptIContains(c.title, q2) {
          IContainsNarrow(c.title.value, q1, q2);
        } else if OptIContains(c.summary, q2) {
          IContainsNarrow(c.summary.value, q1, q2);
        } else if IContains(c.code, q2) {
          IContainsNarrow(c.code, q1, q2);
        } else {
          IContainsNarrow(c.slug, q1, q2);
        }
      }
    }
  }

  /** Queries differing only in letter case find the same programs. */
  lemma ProgramSearchIgnoresCase(programs: map<nat, Program>, q1: string, q2: string)
    requires Lower(q1) == Lower(q2)
    ensures ProgramSearch(programs, Some(q1)) == ProgramSearch(programs, Some(q2))
  {
    assert q1 == "" <==> q2 == "";
    if q1 != "" {
      assert forall id :: id in programs ==> (ProgramMatches(programs[id], q1) <==> ProgramMatches(programs[id], q2));
    }
  }

  /** Queries differing only in letter case find the same courses. */
  lemma CourseSearchIgnoresCase(courses: map<CourseId, Course>, q1: string, q2: string)
    requires Lower(q1) == Lower(q2)
    ensures CourseSearch(courses, Some(q1)) == CourseSearch(courses, Some(q2))
  {
    assert q1 == "" <==> q2 == "";
    if q1 != "" {
      assert forall id :: id in courses ==> (CourseMatches(courses[id], q1) <==> CourseMatches(courses[id], q2));
    }
  }

  // ---------------------------------------------------------------- semester

  /** Text of a semester label as the comparison sees it. */
  function SemesterKey(s: string): string {
    Lower(Strip(s))
  }

  /** `Course.is_current_semester`, given the label of the semester flagged as current
      (None when there is none). */
  function IsCurrentSemester(semester: string, current: Option<string>): (b: bool)
    ensures current == None ==> !b
  {
    current.Some? && SemesterKey(semester) == SemesterKey(current.value)
  }

  lemma {:induction false} TrimLeftAppendSpace(s: string, c: char)
    requires IsSpace(c)
    ensures TrimLeft(s + [c]) == if TrimLeft(s) == [] then [] else TrimLeft(s) + [c]
    decreases |s|
  {
    if s != [] && IsSpace(s[0]) {
      assert (s + [c])[1..] == s[1..] + [c];
      TrimLeftAppendSpace(s[1..], c);
    } else if s == [] {
      assert TrimLeft([c]) == TrimLeft([]);
    }
  }

  lemma StripAppendSpace(s: string, c: char)
    requires IsSpace(c)
    ensures Strip(s + [c]) == Strip(s)
  {
    TrimLeftAppendSpace(s, c);
    var l := TrimLeft(s);
    if l != [] {
      assert (l + [c])[..|l + [c]| - 1] == l;
    }
  }

  lemma StripPrependSpace(s: string, c: char)
    requires IsSpace(c)
    ensures Strip([c] + s) == Strip(s)
  {
    assert ([c] + s)[1..] == s;
  }

  /** Leading whitespace, however much, is dropped by the strip. */
  lemma {:induction false} StripPadLeft(w: string, s: string)
    requires forall ch :: ch in w ==> IsSpace(ch)
    ensures Strip(w + s) == Strip(s)
    decreases |w|
  {
    if w != [] {
      var c, rest := w[0], w[1..];
      assert c in w && w == [c] + rest;
      assert w + s == [c] + (rest + s);
      StripPrependSpace(rest + s, c);
      assert forall ch :: ch in rest ==> ch in w;
      StripPadLeft(rest, s);
    } else {
      assert w + s == s;
    }
  }

  /** Trailing whitespace, however much, is dropped by the strip. */
  lemma {:induction false} StripPadRight(s: string, w: string)
    requires forall ch :: ch in w ==> IsSpace(ch)
    ensures Strip(s + w) == Strip(s)
    decreases |w|
  {
    if w != [] {
      var init, c := w[..|w| - 1], w[|w| - 1];
      assert c in w && w == init + [c];
      assert s + w == (s + init) + [c];
      StripAppendSpace(s + init, c);
      assert forall ch :: ch in init ==> ch in w;
      StripPadRight(s, init);
    } else {
      assert s + w == s;
    }
  }

  /** Whitespace around the course's label, on either side and of any length, does
      not change the answer. */
  lemma CurrentSemesterIgnoresPadding(w1: string, semester: string, w2: string, current: Option<string>)
    requires forall ch :: ch in w1 + w2 ==> IsSpace(ch)
    ensures IsCurrentSemester(w1 + semester + w2, current) == IsCurrentSemester(semester, current)
  {
    assert forall ch :: ch in w1 ==> ch in w1 + w2;
    assert forall ch :: ch in w2 ==> ch in w1 + w2;
    assert w1 + semester + w2 == w1 + (semester + w2);
    StripPadLeft(w1, semester + w2);
    StripPadRight(semester, w2);
  }

  /** Labels that differ only in letter case get the same answer. */
  lemma CurrentSemesterIgnoresCase(s1: string, s2: string, current: Option<string>)
    requires Lower(s1) == Lower(s2)
    ensures IsCurrentSemester(s1, current) == IsCurrentSemester(s2, current)
  {
    StripLower(s1);
    StripLower(s2);
  }

  /** The test is an equivalence between a course's label and the current one. */
  lemma CurrentSemesterSymmetric(a: string, b: string)
    ensures IsCurrentSemester(a, Some(b)) == IsCurrentSemester(b, Some(a))
    ensures IsCurrentSemester(a, Some(a))
  {
  }

  // ---------------------------------------------------------------- slugs

  /** `course_pre_save_receiver`: a course saved without a slug receives the generated
      one; a course that has a slug keeps it. */
  function CoursePreSave(c: Course, generated: string): (r: Course)
    ensures r == c.(slug := r.slug)
    ensures r.slug == if c.slug == "" then generated else c.slug
  {
    if c.slug == "" then c.(slug := generated) else c
  }
  /** The unique checks a valid course form has passed: a non-empty slug and the code
      are in no row of the table yet (`unique=True` on both columns). */
  predicate FormIsUnique(courses: map<CourseId, Course>, form: Course) {
    && (form.slug == "" || forall id :: id in courses ==> courses[id].slug != form.slug)
    && forall id :: id in courses ==> courses[id].code != form.code
  }

  /** A course saved from such a form with its own slug is the only row under that
      slug and the only row with its code. */
  lemma SavedFormIsUnique(courses: map<CourseId, Course>, id: CourseId, form: Course, generated: string)
    requires FormIsUnique(courses, form) && id !in courses
    ensures var after := courses[id := CoursePreSave(form, generated)];
      && (form.slug != "" ==> forall k :: k in after && after[k].slug == form.slug ==> k == id)
      && forall k :: k in after && after[k].code == form.code ==> k == id
  {
  }


  /** `video_pre_save_receiver`, the same rule for videos. */
  function VideoPreSave(v: Video, generated: string): (r: Video)
    ensures r == v.(slug := r.slug)
    ensures r.slug == if v.slug == "" then generated else v.slug
  {
    if v.slug == "" then v.(slug := generated) else v
  }

  /** Saving again never changes a slug once one has been given. */
  lemma PreSaveIdempotent(c: Course, v: Video, g1: string, g2: string)
    requires g1 != ""
    ensures CoursePreSave(CoursePreSave(c, g1), g2) == CoursePreSave(c, g1)
    ensures VideoPreSave(VideoPreSave(v, g1), g2) == VideoPreSave(v, g1)
  {
  }

  // ---------------------------------------------------------------- file names

  /** The lower-cased last dot-segment of a file name. */
  function Extension(name: string): (ext: string)
    ensures '.' !in ext
  {
    Lower(LastSegment(name, '.'))
  }

  /** The six answers of `get_extension_short`. */
  predicate IsKind(kind: string) {
    kind == "word" || kind == "pdf" || kind == "excel" || kind == "powerpoint" || kind == "archive" || kind == "file"
  }

  /** The category of an already lower-cased extension. */
  function ExtensionKind(ext: string): (kind: string)
    ensures IsKind(kind)
  {
    if ext == "doc" || ext == "docx" then "word"
    else if ext == "pdf" then "pdf"
    else if ext == "xls" || ext == "xlsx" then "excel"
    else if ext == "ppt" || ext == "pptx" then "powerpoint"
    else if ext == "zip" || ext == "rar" || ext == "7zip" then "archive"
    else "file"
  }

  /** `Upload.get_extension_short()` on the stored file name: total, one of six kinds. */
  function GetExtensionShort(fileName: string): (kind: string)
    ensures IsKind(kind)
  {
    ExtensionKind(Extension(fileName))
  }

  lemma {:induction false} LastSegmentLower(s: string)
    ensures LastSegment(Lower(s), '.') == Lower(LastSegment(s, '.'))
    decreases |s|
  {
    if s != [] {
      var init, last := s[..|s| - 1], s[|s| - 1];
      assert s == init + [last];
      LowerSnoc(init, last);
      LastSegmentSnoc(init, last, '.');
      LastSegmentSnoc(Lower(init), LowerChar(last), '.');
      if last != '.' {
        LastSegmentLower(init);
        LowerSnoc(LastSegment(init, '.'), last);
      }
    }
  }

  /** The kind depends only on the segment after the last dot, ignoring case. */
  lemma ExtensionShortOfName(stem: string, ext: string)
    requires '.' !in ext
    ensures GetExtensionShort(stem + "." + ext) == ExtensionKind(Lower(ext))
    ensures GetExtensionShort(Lower(stem + "." + ext)) == GetExtensionShort(stem + "." + ext)
  {
    LastSegmentAfter(stem, '.', ext);
    assert stem + "." + ext == stem + ['.'] + ext;
    LastSegmentLower(stem + "." + ext);
    LowerIdempotent(ext);
  }

  /** `f"{prefix}{hex}.{ext}"` with the lower-cased extension of the uploaded name. */
  function UploadPath(prefix: string, fileName: string, hex: string): (path: string)
    ensures prefix <= path
    ensures |path| > |prefix| + |hex| && path[|prefix|..|prefix| + |hex|] == hex
  {
    ConcatParts(prefix, hex, ['.'], Extension(fileName));
    prefix + hex + ['.'] + Extension(fileName)
  }

  lemma ConcatParts(a: string, b: string, c: string, d: string)
    ensures a <= a + b + c + d
    ensures (a + b + c + d)[|a|..|a| + |b|] == b
  {
    assert (a + b + c + d)[..|a|] == a;
    assert (a + b + c + d)[|a|..|a| + |b|] == b;
  }

  /** Two uploads stored with different tokens of one length get different paths, so
      an upload never overwrites another's file, whatever the uploaded names. */
  lemma UploadPathsDistinct(prefix: string, name1: string, name2: string, hex1: string, hex2: string)
    requires |hex1| == |hex2| && hex1 != hex2
    ensures UploadPath(prefix, name1, hex1) != UploadPath(prefix, name2, hex2)
  {
    var p1, p2 := UploadPath(prefix, name1, hex1), UploadPath(prefix, name2, hex2);
    assert p1[|prefix|..|prefix| + |hex1|] != p2[|prefix|..|prefix| + |hex2|];
  }

  /** `upload_to_course_files(instance, filename)`, `hex` standing for `uuid4().hex`. */
  function UploadToCourseFiles(fileName: string, hex: string): (path: string)
    ensures "course_files/" <= path
  {
    UploadPath("course_files/", fileName, hex)
  }

  /** `upload_to_course_videos(instance, filename)`. */
  function UploadToCourseVideos(fileName: string, hex: string): (path: string)
    ensures "course_videos/" <= path
  {
    UploadPath("course_videos/", fileName, hex)
  }

  /** The stored path keeps the (lower-cased) extension of the uploaded name, so a
      stored file is classified exactly as the name it was uploaded under. */
  lemma UploadPathKeepsExtension(prefix: string, fileName: string, hex: string)
    ensures Extension(UploadPath(prefix, fileName, hex)) == Extension(fileName)
    ensures GetExtensionShort(UploadPath(prefix, fileName, hex)) == GetExtensionShort(fileName)
  {
    UploadPathExtension(prefix, fileName, hex);
  }

  lemma UploadPathExtension(prefix: string, fileName: string, hex: string)
    ensures Extension(UploadPath(prefix, fileName, hex)) == Extension(fileName)
  {
    LastSegmentAfter(prefix + hex, '.', Extension(fileName));
    LowerIdempotent(LastSegment(fileName, '.'));
  }

  // ---------------------------------------------------------------- deletion

  /** The storage path of every upload row. */
  function FilePaths(uploads: map<nat, Upload>): (paths: map<nat, string>)
    ensures paths.Keys == uploads.Keys
  {
    map id | id in uploads :: uploads[id].file
  }

  /** The storage path of every video row. */
  function VideoPaths(videos: map<nat, Video>): (paths: map<nat, string>)
    ensures paths.Keys == videos.Keys
  {
    map id | id in videos :: videos[id].video
  }

  /** Some row points at `path`. */
  predicate Referenced(paths: map<nat, string>, path: string) {
    exists id :: id in paths && paths[id] == path
  }

  /** Storage after deleting row `id`: its path goes only when it is non-empty, no
      remaining row points at it, and storage has it. */
  function StorageAfterDelete(paths: map<nat, string>, storage: set<string>, id: nat): (r: set<string>)
    requires id in paths
    ensures r <= storage
    ensures r == storage || r == storage - {paths[id]}
  {
    var path := paths[id];
    if path != "" && !Referenced(paths - {id}, path) && path in storage then storage - {path}
    else storage
  }

  /** Nothing a remaining row points at leaves storage, and the deleted row's file
      leaves it exactly when nothing else points at it. */
  lemma DeleteKeepsReferencedFiles(paths: map<nat, string>, storage: set<string>, id: nat)
    requires id in paths
    ensures forall k :: k in paths && k != id && paths[k] in storage ==> paths[k] in StorageAfterDelete(paths, storage, id)
    ensures paths[id] != "" && paths[id] in storage ==>
      (paths[id] in StorageAfterDelete(paths, storage, id) <==> Referenced(paths - {id}, paths[id]))
    ensures paths[id] == "" ==> StorageAfterDelete(paths, storage, id) == storage
  {
    forall k | k in paths && k != id && paths[k] in storage
      ensures paths[k] in StorageAfterDelete(paths, storage, id)
    {
      assert (paths - {id})[k] == paths[k];
    }
  }

  /** Every row having its file in storage survives a delete. */
  lemma DeletePreservesStoredFiles(paths: map<nat, string>, storage: set<string>, id: nat)
    requires id in paths
    requires forall k :: k in paths ==> paths[k] in storage
    ensures forall k :: k in paths - {id} ==> (paths - {id})[k] in StorageAfterDelete(paths, storage, id)
  {
    DeleteKeepsReferencedFiles(paths, storage, id);
  }

  /** Of the only two rows sharing a file, deleting one keeps the file; deleting the
      other one afterwards removes it. */
  lemma SharedFileLifetime(paths: map<nat, string>, storage: set<string>, a: nat, b: nat)
    requires a in paths && b in paths && a != b && paths[a] == paths[b] && paths[a] in storage
    requires forall k :: k in paths && k != a && k != b ==> paths[k] != paths[a]
    ensures paths[a] in StorageAfterDelete(paths, storage, a)
    ensures paths[a] != "" ==> paths[a] !in StorageAfterDelete(paths - {a}, StorageAfterDelete(paths, storage, a), b)
  {
    assert (paths - {a})[b] == paths[a];
    var rest := paths - {a} - {b};
    if paths[a] != "" {
      assert !Referenced(rest, paths[a]);
    }
  }

  lemma FilePathsRemove(uploads: map<nat, Upload>, id: nat)
    ensures FilePaths(uploads - {id}) == FilePaths(uploads) - {id}
  {
  }

  lemma VideoPathsRemove(videos: map<nat, Video>, id: nat)
    ensures VideoPaths(videos - {id}) == VideoPaths(videos) - {id}
  {
  }

  /** `Upload.delete()`: the row always goes; its file goes by the rule above. */
  method DeleteUpload(db: Database, env: Env, id: nat)
    requires db.Valid() && id in db.uploads
    modifies db`uploads, env`storage
    ensures db.Valid()
    ensures db.uploads == old(db.uploads) - {id}
    ensures env.storage == StorageAfterDelete(FilePaths(old(db.uploads)), old(env.storage), id)
  {
    ghost var paths := FilePaths(db.uploads);
    var filePath := db.uploads[id].file;
    db.uploads := db.uploads - {id};
    FilePathsRemove(old(db.uploads), id);
    if filePath != "" {
      var otherUploadsWithSameFile := exists k :: k in db.uploads && db.uploads[k].file == filePath;
      assert otherUploadsWithSameFile == Referenced(paths - {id}, filePath) by {
        assert forall k :: k in db.uploads ==> (paths - {id})[k] == db.uploads[k].file;
      }
      if !otherUploadsWithSameFile {
        if filePath in env.storage {
          env.storage := env.storage - {filePath};
        }
      }
    }
  }

  /** `UploadVideo.delete()`: the same rule over video rows. */
  method DeleteVideo(db: Database, env: Env, id: nat)
    requires db.Valid() && id in db.videos
    modifies db`videos, env`storage
    ensures db.Valid()
    ensures db.videos == old(db.videos) - {id}
    ensures env.storage == StorageAfterDelete(VideoPaths(old(db.videos)), old(env.storage), id)
  {
    ghost var paths := VideoPaths(db.videos);
    var videoPath := db.videos[id].video;
    db.videos := db.videos - {id};
    VideoPathsRemove(old(db.videos), id);
    if videoPath != "" {
      var otherVideosWithSameFile := exists k :: k in db.videos && db.videos[k].video == videoPath;
      assert otherVideosWithSameFile == Referenced(paths - {id}, videoPath) by {
        assert forall k :: k in db.videos ==> (paths - {id})[k] == db.videos[k].video;
      }
      if !otherVideosWithSameFile {
        if videoPath in env.storage {
          env.storage := env.storage - {videoPath};
        }
      }
    }
  }

  // ---------------------------------------------------------------- progress rows

  /** Creating a progress row: refused (the integrity error) when a row with the same
      key exists, otherwise stored under the next id. */
  function InsertProgress(rows: map<nat, ProgressKey>, next: nat, key: ProgressKey): Option<map<nat, ProgressKey>>
  {
    if exists i :: i in rows && rows[i] == key then None
    else Some(rows[next := key])
  }

  /** The constraint is an invariant: an insert that goes through keeps the keys unique,
      and after any attempt the key has a row. */
  lemma InsertProgressKeepsUnique(rows: map<nat, ProgressKey>, next: nat, key: ProgressKey)
    requires ProgressUnique(rows) && next !in rows
    ensures InsertProgress(rows, next, key).Some? ==> ProgressUnique(InsertProgress(rows, next, key).value)
    ensures InsertProgress(rows, next, key).None? <==> key in rows.Values
  {
  }

  /** `StudentMaterialProgress.objects.create(...)`: the new row, or false (the
      integrity error) when the key is already present. */
  method CreateProgress(db: Database, key: ProgressKey) returns (created: bool)
    requires db.Valid()
    modifies db`progress, db`nextProgressId
    ensures db.Valid()
    ensures created <==> key !in old(db.progress).Values
    ensures InsertProgress(old(db.progress), old(db.nextProgressId), key)
            == if created then Some(db.progress) else None
    ensures key in db.progress.Values
  {
    InsertProgressKeepsUnique(db.progress, db.nextProgressId, key);
    var duplicate := exists i :: i in db.progress && db.progress[i] == key;
    if duplicate {
      return false;
    }
    db.progress := db.progress[db.nextProgressId := key];
    assert db.progress[db.nextProgressId] == key;
    db.nextProgressId := db.nextProgressId + 1;
    created := true;
  }

  // ---------------------------------------------------------------- course save

  /** Saving a new course: the row is inserted under a new id, the pre-save receiver
      drawing a slug when it has none. */
  method InsertCourse(db: Database, env: Env, form: Course) returns (id: CourseId)
    requires db.Valid()
    modifies db`courses, db`nextCourseId, env`draws
    ensures db.Valid()
    ensures id == old(db.nextCourseId) && db.nextCourseId == id + 1
    ensures db.courses == old(db.courses)[id := CoursePreSave(form, env.config.random(old(env.draws)))]
    ensures env.draws == old(env.draws) + (if form.slug == "" then 1 else 0)
  {
    var row := form;
    if form.slug == "" {
      var slug := env.Draw();
      row := CoursePreSave(form, slug);
    }
    id := db.nextCourseId;
    db.courses := db.courses[id := row];
    db.nextCourseId := id + 1;
  }
}
