/** Semester registration and dropping (course/views.py: `course_registration` and
    `course_drop`). An enrollment is a `TakenCourse` row; `student` in it is the id of
    the student's user, under which the profile is stored. */
module Registration {
  import opened Tables
  import opened Sums
  import opened Querysets

  // ---------------------------------------------------------------- enrollment rows

  /** The rows one `TakenCourse.objects.create(student=..., course=...)` per posted id
      appends, in the order of the ids. */
  function Enrollments(student: UserId, ids: seq<CourseId>): (rows: seq<TakenCourse>)
    ensures |rows| == |ids|
    ensures forall i :: 0 <= i < |ids| ==> rows[i] == TakenCourse(student, ids[i])
  {
    if ids == [] then [] else Enrollments(student, ids[..|ids| - 1]) + [TakenCourse(student, ids[|ids| - 1])]
  }

  /** The courses a student holds an enrollment in: `t` of the registration page. */
  function TakenBy(taken: seq<TakenCourse>, student: UserId): set<CourseId> {
    set r | r in taken && r.student == student :: r.course
  }

  /** `TakenCourse.objects.filter(student=student, course__in=drop).delete()` on the
      table, keeping the order of the rows that stay. */
  function Keep(taken: seq<TakenCourse>, student: UserId, drop: set<CourseId>): (rows: seq<TakenCourse>)
    ensures |rows| <= |taken|
  {
    if taken == [] then []
    else
      (if taken[0].student == student && taken[0].course in drop then [] else [taken[0]])
      + Keep(taken[1..], student, drop)
  }

  /** A row stays exactly when it is not one of the student's rows for a dropped course. */
  lemma {:induction false} KeepMembers(taken: seq<TakenCourse>, student: UserId, drop: set<CourseId>)
    ensures forall r :: r in Keep(taken, student, drop) <==> r in taken && !(r.student == student && r.course in drop)
    decreases |taken|
  {
    if taken != [] {
      KeepMembers(taken[1..], student, drop);
      assert forall r :: r in taken <==> r == taken[0] || r in taken[1..];
    }
  }

  /** The enrollments of one student, in table order. */
  function Mine(taken: seq<TakenCourse>, student: UserId): (rows: seq<TakenCourse>)
    ensures forall r :: r in rows <==> r in taken && r.student == student
  {
    if taken == [] then []
    else (if taken[0].student == student then [taken[0]] else []) + Mine(taken[1..], student)
  }

  function Elems(ids: seq<CourseId>): set<CourseId> {
    set c | c in ids
  }

  // ---------------------------------------------------------------- properties

  /** Registration does not look for an existing enrollment: each posted id adds one
      more row for the pair, whatever the table held. */
  lemma {:induction false} RegistrationCountsEveryPost(taken: seq<TakenCourse>, student: UserId, ids: seq<CourseId>, c: CourseId)
    ensures multiset(taken + Enrollments(student, ids))[TakenCourse(student, c)]
         == multiset(taken)[TakenCourse(student, c)] + multiset(ids)[c]
    decreases |ids|
  {
    if ids != [] {
      var init, last := ids[..|ids| - 1], ids[|ids| - 1];
      RegistrationCountsEveryPost(taken, student, init, c);
      var before := taken + Enrollments(student, init);
      var row := TakenCourse(student, last);
      assert taken + Enrollments(student, ids) == before + [row];
      assert multiset(before + [row]) == multiset(before) + multiset{row};
      assert ids == init + [last];
      assert multiset(ids) == multiset(init) + multiset{last};
    }
  }

  /** After a registration the student holds every posted course besides the ones held
      before; other students' courses are unchanged. */
  lemma RegistrationTakes(taken: seq<TakenCourse>, student: UserId, ids: seq<CourseId>, other: UserId)
    ensures TakenBy(taken + Enrollments(student, ids), student) == TakenBy(taken, student) + Elems(ids)
    ensures other != student ==> TakenBy(taken + Enrollments(student, ids), other) == TakenBy(taken, other)
  {
    var after := taken + Enrollments(student, ids);
    forall c
      ensures c in TakenBy(after, student) <==> c in TakenBy(taken, student) + Elems(ids)
    {
      if c in Elems(ids) {
        var i :| 0 <= i < |ids| && ids[i] == c;
        assert after[|taken| + i] == TakenCourse(student, c);
      }
      if c in TakenBy(after, student) {
        var r :| r in after && r.student == student && r.course == c;
        var i :| 0 <= i < |after| && after[i] == r;
        if i >= |taken| {
          assert ids[i - |taken|] == c;
        }
      }
    }
    if other != student {
      forall c
        ensures c in TakenBy(after, other) <==> c in TakenBy(taken, other)
      {
        if c in TakenBy(after, other) {
          var r :| r in after && r.student == other && r.course == c;
          var i :| 0 <= i < |after| && after[i] == r;
          assert i < |taken|;
        }
      }
    }
  }

  /** Dropping removes exactly the dropped courses from the student's courses. */
  lemma DropTakes(taken: seq<TakenCourse>, student: UserId, drop: set<CourseId>)
    ensures TakenBy(Keep(taken, student, drop), student) == TakenBy(taken, student) - drop
  {
    var after := Keep(taken, student, drop);
    KeepMembers(taken, student, drop);
    forall c
      ensures c in TakenBy(after, student) <==> c in TakenBy(taken, student) - drop
    {
      if c in TakenBy(taken, student) - drop {
        assert TakenCourse(student, c) in after;
      }
    }
  }

  /** Dropping leaves every other student's enrollments exactly as they were, in order. */
  lemma {:induction false} DropKeepsOthers(taken: seq<TakenCourse>, student: UserId, drop: set<CourseId>, other: UserId)
    requires other != student
    ensures Mine(Keep(taken, student, drop), other) == Mine(taken, other)
    decreases |taken|
  {
    if taken != [] {
      DropKeepsOthers(taken[1..], student, drop, other);
      var head := if taken[0].student == student && taken[0].course in drop then [] else [taken[0]];
      MineAppend(head, Keep(taken[1..], student, drop), other);
      assert taken == [taken[0]] + taken[1..];
      MineAppend([taken[0]], taken[1..], other);
    }
  }

  lemma {:induction false} MineAppend(a: seq<TakenCourse>, b: seq<TakenCourse>, student: UserId)
    ensures Mine(a + b, student) == Mine(a, student) + Mine(b, student)
    decreases |a|
  {
    if a != [] {
      assert (a + b)[1..] == a[1..] + b;
      MineAppend(a[1..], b, student);
    } else {
      assert a + b == b;
    }
  }

  lemma {:induction false} KeepAppend(a: seq<TakenCourse>, b: seq<TakenCourse>, student: UserId, drop: set<CourseId>)
    ensures Keep(a + b, student, drop) == Keep(a, student, drop) + Keep(b, student, drop)
    decreases |a|
  {
    if a != [] {
      assert (a + b)[1..] == a[1..] + b;
      KeepAppend(a[1..], b, student, drop);
    } else {
      assert a + b == b;
    }
  }

  /** Dropping twice is dropping the union once. */
  lemma {:induction false} KeepKeep(taken: seq<TakenCourse>, student: UserId, a: set<CourseId>, b: set<CourseId>)
    ensures Keep(Keep(taken, student, a), student, b) == Keep(taken, student, a + b)
    decreases |taken|
  {
    if taken != [] {
      KeepKeep(taken[1..], student, a, b);
      var head := if taken[0].student == student && taken[0].course in a then [] else [taken[0]];
      KeepAppend(head, Keep(taken[1..], student, a), student, b);
    }
  }

  /** Registering courses and then dropping them leaves the table as dropping them
      alone would have: the registration's rows all go. */
  lemma RegisterThenDrop(taken: seq<TakenCourse>, student: UserId, ids: seq<CourseId>)
    ensures Keep(taken + Enrollments(student, ids), student, Elems(ids)) == Keep(taken, student, Elems(ids))
  {
    KeepAppend(taken, Enrollments(student, ids), student, Elems(ids));
    forall r | r in Enrollments(student, ids)
      ensures r.student == student && r.course in Elems(ids)
    {
      var i :| 0 <= i < |ids| && Enrollments(student, ids)[i] == r;
    }
    KeepAll(Enrollments(student, ids), student, Elems(ids));
    assert Keep(taken, student, Elems(ids)) + [] == Keep(taken, student, Elems(ids));
  }

  lemma {:induction false} KeepAll(taken: seq<TakenCourse>, student: UserId, drop: set<CourseId>)
    requires forall r :: r in taken ==> r.student == student && r.course in drop
    ensures Keep(taken, student, drop) == []
    decreases |taken|
  {
    if taken != [] {
      assert taken[0] in taken;
      assert forall r :: r in taken[1..] ==> r in taken;
      KeepAll(taken[1..], student, drop);
    }
  }

  // ---------------------------------------------------------------- the page

  /** `Course.objects.filter(program__pk=..., level=..., semester=current).exclude(id__in=t)`. */
  function Offered(courses: map<CourseId, Course>, program: nat, level: Option<string>, current: string,
                   taken: set<CourseId>): set<CourseId> {
    set id | id in courses && courses[id].program == program && Some(courses[id].level) == level
                           && courses[id].semester == current && id !in taken
  }

  /** `Course.objects.filter(level=..., program__pk=...)`. */
  function AllOfLevel(courses: map<CourseId, Course>, program: nat, level: Option<string>): set<CourseId> {
    set id | id in courses && courses[id].program == program && Some(courses[id].level) == level
  }

  /** `Course.objects.filter(level=...).filter(id__in=t)`: note it does not ask for the
      student's program. */
  function RegisteredOfLevel(courses: map<CourseId, Course>, level: Option<string>, taken: set<CourseId>): set<CourseId> {
    set id | id in courses && Some(courses[id].level) == level && id in taken
  }

  /** A course's credit when its semester is `name`, else nothing. */
  function SemesterCredit(courses: map<CourseId, Course>, name: string): nat -> int {
    id => if id in courses && courses[id].semester == name then courses[id].credit else 0
  }

  function CourseCredit(courses: map<CourseId, Course>): nat -> int {
    id => if id in courses then courses[id].credit else 0
  }

  /** Every offered course is in the current semester, so the total of the other
      semester name is zero and the current one's is the whole credit on offer. */
  lemma OfferedCreditsBySemester(courses: map<CourseId, Course>, program: nat, level: Option<string>,
                                 current: string, taken: set<CourseId>, name: string)
    ensures name != current ==> SetSum(Offered(courses, program, level, current, taken), SemesterCredit(courses, name)) == 0
    ensures SetSum(Offered(courses, program, level, current, taken), SemesterCredit(courses, current))
         == SetSum(Offered(courses, program, level, current, taken), CourseCredit(courses))
  {
    var offered := Offered(courses, program, level, current, taken);
    if name != current {
      SetSumZero(offered, SemesterCredit(courses, name));
    }
    SetSumCongruent(offered, SemesterCredit(courses, current), CourseCredit(courses));
  }

  /** Registering a course takes it off the page's offer and, when it is of the
      student's level, makes `no_course_is_registered` false. */
  lemma RegisteringUpdatesPage(courses: map<CourseId, Course>, taken: seq<TakenCourse>, student: UserId,
                               ids: seq<CourseId>, program: nat, level: Option<string>, current: string)
    ensures Offered(courses, program, level, current, TakenBy(taken + Enrollments(student, ids), student))
         == Offered(courses, program, level, current, TakenBy(taken, student)) - Elems(ids)
    ensures (exists c :: c in ids && c in courses && Some(courses[c].level) == level) ==>
            RegisteredOfLevel(courses, level, TakenBy(taken + Enrollments(student, ids), student)) != {}
  {
    RegistrationTakes(taken, student, ids, student);
    if exists c :: c in ids && c in courses && Some(courses[c].level) == level {
      var c :| c in ids && c in courses && Some(courses[c].level) == level;
      assert c in Elems(ids);
      assert c in RegisteredOfLevel(courses, level, TakenBy(taken + Enrollments(student, ids), student));
    }
  }

  /** Dropping puts a course back on offer exactly when the page's filters select it. */
  lemma DroppingUpdatesPage(courses: map<CourseId, Course>, taken: seq<TakenCourse>, student: UserId,
                            drop: set<CourseId>, program: nat, level: Option<string>, current: string)
    ensures Offered(courses, program, level, current, TakenBy(Keep(taken, student, drop), student))
         == Offered(courses, program, level, current, TakenBy(taken, student))
            + (Offered(courses, program, level, current, {}) * drop)
  {
    DropTakes(taken, student, drop);
  }

  // ---------------------------------------------------------------- the views

  datatype RegisterOutcome = NoProfile | NoSuchCourse(index: nat) | Registered

  /** The POST branch of `course_registration`: one enrollment per posted course id, in
      order, with no check for an enrollment already held; a missing course raises,
      keeping the rows created before it. */
  method RegisterCourses(db: Database, user: UserId, ids: seq<CourseId>) returns (outcome: RegisterOutcome)
    requires db.Valid()
    modifies db`taken
    ensures db.Valid()
    ensures user !in db.students <==> outcome == NoProfile
    ensures outcome == NoProfile ==> db.taken == old(db.taken)
    ensures outcome == Registered <==> user in db.students && forall i :: 0 <= i < |ids| ==> ids[i] in db.courses
    ensures outcome == Registered ==> db.taken == old(db.taken) + Enrollments(user, ids)
    ensures outcome.NoSuchCourse? ==>
      && outcome.index < |ids| && ids[outcome.index] !in db.courses
      && (forall i :: 0 <= i < outcome.index ==> ids[i] in db.courses)
      && db.taken == old(db.taken) + Enrollments(user, ids[..outcome.index])
  {
    if user !in db.students {
      return NoProfile;
    }
    for s := 0 to |ids|
      invariant db.Valid()
      invariant forall i :: 0 <= i < s ==> ids[i] in db.courses
      invariant db.taken == old(db.taken) + Enrollments(user, ids[..s])
    {
      if ids[s] !in db.courses {
        return NoSuchCourse(s);
      }
      assert ids[..s + 1][..s] == ids[..s];
      db.taken := db.taken + [TakenCourse(user, ids[s])];
    }
    assert ids[..|ids|] == ids;
    return Registered;
  }

  /** The `t` loop of the GET branch: the course of every enrollment of the user. */
  method TakenCourseIds(db: Database, user: UserId) returns (t: seq<CourseId>)
    ensures forall c :: c in t <==> c in TakenBy(db.taken, user)
  {
    t := [];
    for i := 0 to |db.taken|
      invariant forall c :: c in t <==> c in TakenBy(db.taken[..i], user)
    {
      assert db.taken[..i + 1] == db.taken[..i] + [db.taken[i]];
      if db.taken[i].student == user {
        t := t + [db.taken[i].course];
      }
    }
    assert db.taken[..|db.taken|] == db.taken;
  }

  datatype RegistrationView =
    | NoActiveSemester
    | StudentNotFound
    | NoProgram
    | Page(offered: seq<CourseId>, registered: seq<CourseId>,
           firstCredit: int, secondCredit: int, registeredCredit: int,
           noCourseIsRegistered: bool, allCoursesAreRegistered: bool)

  /** The GET branch of `course_registration`; `current` is the name of the semester
      flagged current, if any. */
  method RegistrationPage(db: Database, user: UserId, current: Option<string>) returns (view: RegistrationView)
    ensures current.None? <==> view == NoActiveSemester
    ensures current.Some? ==> (user !in db.students <==> view == StudentNotFound)
    ensures current.Some? && user in db.students ==> (db.students[user].program.None? <==> view == NoProgram)
    ensures view.Page? ==>
      var profile := db.students[user];
      var taken := TakenBy(db.taken, user);
      var offered := Offered(db.courses, profile.program.value, profile.level, current.value, taken);
      var registered := RegisteredOfLevel(db.courses, profile.level, taken);
      && Lists(view.offered, offered) && Lists(view.registered, registered)
      && view.firstCredit == SetSum(offered, SemesterCredit(db.courses, "First"))
      && view.secondCredit == SetSum(offered, SemesterCredit(db.courses, "Second"))
      && view.registeredCredit == SetSum(registered, CourseCredit(db.courses))
      && (view.noCourseIsRegistered <==> registered == {})
      && (view.allCoursesAreRegistered <==> |registered| == |AllOfLevel(db.courses, profile.program.value, profile.level)|)
  {
    if current.None? {
      return NoActiveSemester;
    }
    if user !in db.students {
      return StudentNotFound;
    }
    var profile := db.students[user];
    var t := TakenCourseIds(db, user);
    if profile.program.None? {
      return NoProgram;
    }
    var program := profile.program.value;
    var taken := set c | c in t;
    assert taken == TakenBy(db.taken, user);
    var offered := Evaluate(Offered(db.courses, program, profile.level, current.value, taken));
    var allCourses := AllOfLevel(db.courses, program, profile.level);
    var registered := Evaluate(RegisteredOfLevel(db.courses, profile.level, taken));
    ListsCard(registered, RegisteredOfLevel(db.courses, profile.level, taken));
    var first, second := SemesterCredits(db.courses, offered, Offered(db.courses, program, profile.level, current.value, taken));
    var total := TotalCredit(db.courses, registered, RegisteredOfLevel(db.courses, profile.level, taken));
    view := Page(offered, registered, first, second, total, |registered| == 0, |registered| == |allCourses|);
  }

  /** The loop over the offered courses adding up the "First" and "Second" credits. */
  method SemesterCredits(courses: map<CourseId, Course>, offered: seq<CourseId>, ghost listed: set<CourseId>)
    returns (first: int, second: int)
    requires Lists(offered, listed)
    ensures first == SetSum(listed, SemesterCredit(courses, "First"))
    ensures second == SetSum(listed, SemesterCredit(courses, "Second"))
  {
    first, second := 0, 0;
    for k := 0 to |offered|
      invariant first == SeqSum(offered[..k], SemesterCredit(courses, "First"))
      invariant second == SeqSum(offered[..k], SemesterCredit(courses, "Second"))
    {
      assert offered[..k + 1][..k] == offered[..k];
      var id := offered[k];
      if id in courses && courses[id].semester == "First" {
        first := first + courses[id].credit;
      }
      if id in courses && courses[id].semester == "Second" {
        second := second + courses[id].credit;
      }
    }
    assert offered[..|offered|] == offered;
    ListsSum(offered, listed, SemesterCredit(courses, "First"));
    ListsSum(offered, listed, SemesterCredit(courses, "Second"));
  }

  /** The loop over the registered courses adding up their credits. */
  method TotalCredit(courses: map<CourseId, Course>, registered: seq<CourseId>, ghost listed: set<CourseId>)
    returns (total: int)
    requires Lists(registered, listed)
    ensures total == SetSum(listed, CourseCredit(courses))
  {
    total := 0;
    for k := 0 to |registered|
      invariant total == SeqSum(registered[..k], CourseCredit(courses))
    {
      assert registered[..k + 1][..k] == registered[..k];
      var id := registered[k];
      if id in courses {
        total := total + courses[id].credit;
      }
    }
    assert registered[..|registered|] == registered;
    ListsSum(registered, listed, CourseCredit(courses));
  }

  datatype DropOutcome = DropNoProfile | DropNoSuchCourse(index: nat) | Dropped

  /** The POST branch of `course_drop`: for each posted id, the student's enrollments
      in that course are deleted; a missing course is a not-found response, keeping the
      deletions made before it. */
  method DropCourses(db: Database, user: UserId, ids: seq<CourseId>) returns (outcome: DropOutcome)
    requires db.Valid()
    modifies db`taken
    ensures db.Valid()
    ensures user !in db.students <==> outcome == DropNoProfile
    ensures outcome == DropNoProfile ==> db.taken == old(db.taken)
    ensures outcome == Dropped <==> user in db.students && forall i :: 0 <= i < |ids| ==> ids[i] in db.courses
    ensures outcome == Dropped ==> db.taken == Keep(old(db.taken), user, Elems(ids))
    ensures outcome.DropNoSuchCourse? ==>
      && outcome.index < |ids| && ids[outcome.index] !in db.courses
      && (forall i :: 0 <= i < outcome.index ==> ids[i] in db.courses)
      && db.taken == Keep(old(db.taken), user, Elems(ids[..outcome.index]))
  {
    if user !in db.students {
      return DropNoProfile;
    }
    var taken, missing := DropRows(db.courses, db.taken, user, ids);
    var dropped := if missing.Some? then ids[..missing.value] else ids;
    assert ids[..|ids|] == ids;
    KeepBelow(db.taken, user, Elems(dropped), db.nextUserId);
    db.WriteTaken(taken);
    outcome := if missing.Some? then DropNoSuchCourse(missing.value) else Dropped;
  }

  /** The loop of `course_drop` on the enrollment rows: `missing` is the position of the
      first id with no course, where the view stops. */
  method DropRows(courses: map<CourseId, Course>, before: seq<TakenCourse>, user: UserId, ids: seq<CourseId>)
    returns (taken: seq<TakenCourse>, missing: Option<nat>)
    ensures missing.None? <==> forall i :: 0 <= i < |ids| ==> ids[i] in courses
    ensures missing.None? ==> taken == Keep(before, user, Elems(ids))
    ensures missing.Some? ==>
      && missing.value < |ids| && ids[missing.value] !in courses
      && (forall i :: 0 <= i < missing.value ==> ids[i] in courses)
      && taken == Keep(before, user, Elems(ids[..missing.value]))
  {
    taken := before;
    KeepNothing(before, user);
    assert Elems(ids[..0]) == {};
    for k := 0 to |ids|
      invariant forall i :: 0 <= i < k ==> ids[i] in courses
      invariant taken == Keep(before, user, Elems(ids[..k]))
    {
      if ids[k] !in courses {
        return taken, Some(k);
      }
      DropOneMore(before, user, ids, k);
      taken := Keep(taken, user, {ids[k]});
    }
    assert ids[..|ids|] == ids;
    missing := None;
  }

  /** The deletes for one more posted id. */
  lemma DropOneMore(before: seq<TakenCourse>, user: UserId, ids: seq<CourseId>, k: nat)
    requires k < |ids|
    ensures Keep(Keep(before, user, Elems(ids[..k])), user, {ids[k]}) == Keep(before, user, Elems(ids[..k + 1]))
  {
    KeepKeep(before, user, Elems(ids[..k]), {ids[k]});
    assert Elems(ids[..k + 1]) == Elems(ids[..k]) + {ids[k]} by {
      assert ids[..k + 1] == ids[..k] + [ids[k]];
    }
  }

  /** Deleting rows keeps every remaining row's reference to an existing user. */
  lemma KeepBelow(taken: seq<TakenCourse>, student: UserId, drop: set<CourseId>, next: nat)
    requires forall i :: 0 <= i < |taken| ==> taken[i].student < next
    ensures forall r :: r in Keep(taken, student, drop) ==> r.student < next
  {
    KeepMembers(taken, student, drop);
    forall r | r in Keep(taken, student, drop)
      ensures r.student < next
    {
      var i :| 0 <= i < |taken| && taken[i] == r;
    }
  }

  lemma {:induction false} KeepNothing(taken: seq<TakenCourse>, student: UserId)
    ensures Keep(taken, student, {}) == taken
    decreases |taken|
  {
    if taken != [] {
      KeepNothing(taken[1..], student);
    }
  }
}
