/** Lecturer allocation (course/views.py): `CourseAllocationFormView.form_valid` gives a
    lecturer exactly the selected courses, and `course_add` adds a new course to the
    allocation of the lecturer who creates it. Both go through `get_or_create` on the
    allocation table, which is keyed by id and does not make the lecturer unique. */
module Allocation {
  import opened Tables
  import opened CourseModels

  /** `CourseAllocation.objects.filter(lecturer=lecturer)`. */
  function AllocationsOf(allocations: map<nat, Allocation>, lecturer: UserId): set<nat> {
    set id | id in allocations && allocations[id].lecturer == lecturer
  }

  /** The allocation table and the next id it hands out. */
  datatype AllocState = AllocState(allocations: map<nat, Allocation>, next: nat)

  ghost predicate AllocValid(s: AllocState) {
    Below(s.allocations.Keys, s.next)
  }

  /** `CourseAllocation.objects.get_or_create(lecturer=lecturer)`: the lecturer's one
      allocation, or a new empty one under the next id when there is none; None stands
      for the MultipleObjectsReturned error of two or more. */
  ghost function GetOrCreate(s: AllocState, lecturer: UserId): (r: Option<(AllocState, nat)>)
    requires AllocValid(s)
    ensures r.None? <==> |AllocationsOf(s.allocations, lecturer)| > 1
    ensures r.Some? ==>
      var (s', id) := r.value;
      && AllocValid(s')
      && AllocationsOf(s'.allocations, lecturer) == {id}
      && (if AllocationsOf(s.allocations, lecturer) == {}
          then id == s.next && s' == AllocState(s.allocations[id := Allocation(lecturer, {}, None)], s.next + 1)
          else s' == s)
  {
    var mine := AllocationsOf(s.allocations, lecturer);
    if mine == {} then
      var s' := AllocState(s.allocations[s.next := Allocation(lecturer, {}, None)], s.next + 1);
      Some((s', s.next))
    else if |mine| == 1 then
      var id :| id in mine;
      SingletonIs(mine, id);
      Some((s, id))
    else
      None
  }

  /** `allocation.courses.set(selected)` after the `get_or_create`. */
  ghost function Assign(s: AllocState, lecturer: UserId, selected: set<CourseId>): Option<AllocState>
    requires AllocValid(s)
  {
    match GetOrCreate(s, lecturer)
    case None => None
    case Some((s', id)) =>
      Some(s'.(allocations := s'.allocations[id := s'.allocations[id].(courses := selected)]))
  }

  /** `allocation.courses.add(course)` after the `get_or_create`. */
  ghost function AddTo(s: AllocState, lecturer: UserId, course: CourseId): Option<AllocState>
    requires AllocValid(s)
  {
    match GetOrCreate(s, lecturer)
    case None => None
    case Some((s', id)) =>
      Some(s'.(allocations := s'.allocations[id := s'.allocations[id].(courses := s'.allocations[id].courses + {course})]))
  }

  /** The courses of a lecturer who has exactly one allocation. */
  ghost function CoursesOf(s: AllocState, lecturer: UserId): set<CourseId>
    requires |AllocationsOf(s.allocations, lecturer)| == 1
  {
    var id :| id in AllocationsOf(s.allocations, lecturer);
    s.allocations[id].courses
  }

  /** What both updates leave alone: every allocation of another lecturer. */
  ghost predicate OthersKept(s: AllocState, s': AllocState, lecturer: UserId) {
    forall id :: id in s.allocations && s.allocations[id].lecturer != lecturer ==>
      id in s'.allocations && s'.allocations[id] == s.allocations[id]
  }

  // ---------------------------------------------------------------- properties

  /** The form succeeds unless the lecturer already has two allocations; afterwards the
      lecturer has one allocation, holding exactly the selection, and nobody else's
      allocation changed. */
  lemma AssignReplaces(s: AllocState, lecturer: UserId, selected: set<CourseId>)
    requires AllocValid(s)
    ensures Assign(s, lecturer, selected).None? <==> |AllocationsOf(s.allocations, lecturer)| > 1
    ensures Assign(s, lecturer, selected).Some? ==>
      var s' := Assign(s, lecturer, selected).value;
      && AllocValid(s')
      && |AllocationsOf(s'.allocations, lecturer)| == 1
      && CoursesOf(s', lecturer) == selected
      && OthersKept(s, s', lecturer)
  {
    if GetOrCreate(s, lecturer).Some? {
      var (s1, id) := GetOrCreate(s, lecturer).value;
      var s' := Assign(s, lecturer, selected).value;
      assert AllocationsOf(s'.allocations, lecturer) == AllocationsOf(s1.allocations, lecturer);
    }
  }

  /** Adding a course keeps the courses the lecturer had (none for a new allocation)
      and adds the new one; nobody else's allocation changed. */
  lemma AddKeepsCourses(s: AllocState, lecturer: UserId, course: CourseId)
    requires AllocValid(s)
    ensures AddTo(s, lecturer, course).None? <==> |AllocationsOf(s.allocations, lecturer)| > 1
    ensures AddTo(s, lecturer, course).Some? ==>
      var s' := AddTo(s, lecturer, course).value;
      && AllocValid(s')
      && |AllocationsOf(s'.allocations, lecturer)| == 1
      && CoursesOf(s', lecturer)
         == (if AllocationsOf(s.allocations, lecturer) == {} then {} else CoursesOf(s, lecturer)) + {course}
      && OthersKept(s, s', lecturer)
  {
    if GetOrCreate(s, lecturer).Some? {
      var (s1, id) := GetOrCreate(s, lecturer).value;
      var s' := AddTo(s, lecturer, course).value;
      assert AllocationsOf(s'.allocations, lecturer) == AllocationsOf(s1.allocations, lecturer);
    }
  }

  /** Submitting the same selection twice is the same as submitting it once. */
  lemma AssignIdempotent(s: AllocState, lecturer: UserId, selected: set<CourseId>)
    requires AllocValid(s) && Assign(s, lecturer, selected).Some?
    ensures AllocValid(Assign(s, lecturer, selected).value)
    ensures Assign(Assign(s, lecturer, selected).value, lecturer, selected) == Assign(s, lecturer, selected)
  {
    var (s1, id) := GetOrCreate(s, lecturer).value;
    var s' := Assign(s, lecturer, selected).value;
    assert AllocationsOf(s'.allocations, lecturer) == AllocationsOf(s1.allocations, lecturer);
    var (s2, id2) := GetOrCreate(s', lecturer).value;
    assert s2 == s' && id2 == id;
    assert s'.allocations[id := s'.allocations[id].(courses := selected)] == s'.allocations;
  }

  /** Adding the same course twice is the same as adding it once. */
  lemma AddIdempotent(s: AllocState, lecturer: UserId, course: CourseId)
    requires AllocValid(s) && AddTo(s, lecturer, course).Some?
    ensures AllocValid(AddTo(s, lecturer, course).value)
    ensures AddTo(AddTo(s, lecturer, course).value, lecturer, course) == AddTo(s, lecturer, course)
  {
    var (s1, id) := GetOrCreate(s, lecturer).value;
    var s' := AddTo(s, lecturer, course).value;
    assert AllocationsOf(s'.allocations, lecturer) == AllocationsOf(s1.allocations, lecturer);
    var (s2, id2) := GetOrCreate(s', lecturer).value;
    assert s2 == s' && id2 == id;
    assert s'.allocations[id := s'.allocations[id].(courses := s'.allocations[id].courses + {course})] == s'.allocations;
  }

  /** The form replaces: a course added earlier is gone unless it is selected, whereas
      adding after the form keeps the selection. */
  lemma AssignAfterAddForgets(s: AllocState, lecturer: UserId, course: CourseId, selected: set<CourseId>)
    requires AllocValid(s) && AddTo(s, lecturer, course).Some?
    ensures AllocValid(AddTo(s, lecturer, course).value)
    ensures Assign(AddTo(s, lecturer, course).value, lecturer, selected).Some?
    ensures |AllocationsOf(Assign(AddTo(s, lecturer, course).value, lecturer, selected).value.allocations, lecturer)| == 1
    ensures CoursesOf(Assign(AddTo(s, lecturer, course).value, lecturer, selected).value, lecturer) == selected
    ensures Assign(s, lecturer, selected).Some?
    ensures AllocValid(Assign(s, lecturer, selected).value)
    ensures AddTo(Assign(s, lecturer, selected).value, lecturer, course).Some?
    ensures |AllocationsOf(AddTo(Assign(s, lecturer, selected).value, lecturer, course).value.allocations, lecturer)| == 1
    ensures CoursesOf(AddTo(Assign(s, lecturer, selected).value, lecturer, course).value, lecturer) == selected + {course}
  {
    AddKeepsCourses(s, lecturer, course);
    var added := AddTo(s, lecturer, course).value;
    AssignReplaces(added, lecturer, selected);
    AssignReplaces(s, lecturer, selected);
    var afterForm := Assign(s, lecturer, selected).value;
    AddKeepsCourses(afterForm, lecturer, course);
  }

  // ---------------------------------------------------------------- the views

  /** `get_or_create(lecturer=lecturer)` on the allocation table. */
  method GetOrCreateAllocation(db: Database, lecturer: UserId) returns (id: Option<nat>)
    requires db.Valid()
    modifies db`allocations, db`nextAllocationId
    ensures db.Valid()
    ensures var r := GetOrCreate(AllocState(old(db.allocations), old(db.nextAllocationId)), lecturer);
      && (id.None? <==> r.None?)
      && (r.None? ==> db.allocations == old(db.allocations) && db.nextAllocationId == old(db.nextAllocationId))
      && (r.Some? ==> AllocState(db.allocations, db.nextAllocationId) == r.value.0 && id.value == r.value.1)
  {
    var mine := AllocationsOf(db.allocations, lecturer);
    if |mine| > 1 {
      return None;
    }
    if mine == {} {
      var newId := db.nextAllocationId;
      db.allocations := db.allocations[newId := Allocation(lecturer, {}, None)];
      db.nextAllocationId := newId + 1;
      return Some(newId);
    }
    var found :| found in mine;
    SingletonIs(mine, found);
    return Some(found);
  }

  /** `CourseAllocationFormView.form_valid`; false stands for the error of a lecturer
      with several allocations. */
  method AllocationFormValid(db: Database, lecturer: UserId, selected: set<CourseId>) returns (ok: bool)
    requires db.Valid()
    modifies db`allocations, db`nextAllocationId
    ensures db.Valid()
    ensures var r := Assign(AllocState(old(db.allocations), old(db.nextAllocationId)), lecturer, selected);
      && (ok <==> r.Some?)
      && (r.None? ==> db.allocations == old(db.allocations) && db.nextAllocationId == old(db.nextAllocationId))
      && (r.Some? ==> AllocState(db.allocations, db.nextAllocationId) == r.value)
  {
    var id := GetOrCreateAllocation(db, lecturer);
    if id.None? {
      return false;
    }
    var row := db.allocations[id.value];
    db.allocations := db.allocations[id.value := row.(courses := selected)];
    return true;
  }

  datatype CourseAddOutcome =
    | ProgramNotFound
    | Created(course: CourseId)
    | CreatedNotAllocated(course: CourseId)

  /** The POST branch of `course_add` for a valid form: the course is saved and, when
      the user is a lecturer, added to the lecturer's allocation. The save comes first,
      so a lecturer with several allocations gets an error with the course already
      created. The form leaves out `credit`, so the course keeps the default of 0. */
  method CourseAdd(db: Database, env: Env, programPk: nat, form: Course, user: UserId) returns (outcome: CourseAddOutcome)
    requires db.Valid() && user in db.users
    requires form.credit == 0 && FormIsUnique(db.courses, form)
    modifies db`courses, db`nextCourseId, db`allocations, db`nextAllocationId, env`draws
    ensures db.Valid()
    ensures programPk !in db.programs <==> outcome == ProgramNotFound
    ensures outcome == ProgramNotFound ==>
      && db.courses == old(db.courses) && db.nextCourseId == old(db.nextCourseId)
      && db.allocations == old(db.allocations) && db.nextAllocationId == old(db.nextAllocationId)
      && env.draws == old(env.draws)
    ensures outcome != ProgramNotFound ==>
      var course := outcome.course;
      var r := AddTo(AllocState(old(db.allocations), old(db.nextAllocationId)), user, course);
      && course == old(db.nextCourseId)
      && db.courses == old(db.courses)[course := CoursePreSave(form, env.config.random(old(env.draws)))]
      && (!db.users[user].isLecturer ==>
            outcome.Created? && db.allocations == old(db.allocations) && db.nextAllocationId == old(db.nextAllocationId))
      && (db.users[user].isLecturer ==>
            (outcome.Created? <==> r.Some?)
            && (r.Some? ==> AllocState(db.allocations, db.nextAllocationId) == r.value)
            && (r.None? ==> db.allocations == old(db.allocations)))
  {
    if programPk !in db.programs {
      return ProgramNotFound;
    }
    var course := InsertCourse(db, env, form);
    if !db.users[user].isLecturer {
      return Created(course);
    }
    var added := AllocateCourse(db, user, course);
    outcome := if added then Created(course) else CreatedNotAllocated(course);
  }

  /** The allocation step of `course_add`: get or create the lecturer's allocation and
      add the course to it; false stands for the error of several allocations. */
  method AllocateCourse(db: Database, lecturer: UserId, course: CourseId) returns (ok: bool)
    requires db.Valid()
    modifies db`allocations, db`nextAllocationId
    ensures db.Valid()
    ensures var r := AddTo(AllocState(old(db.allocations), old(db.nextAllocationId)), lecturer, course);
      && (ok <==> r.Some?)
      && (r.None? ==> db.allocations == old(db.allocations) && db.nextAllocationId == old(db.nextAllocationId))
      && (r.Some? ==> AllocState(db.allocations, db.nextAllocationId) == r.value)
  {
    ghost var s0 := AllocState(db.allocations, db.nextAllocationId);
    var id := GetOrCreateAllocation(db, lecturer);
    if id.None? {
      return false;
    }
    assert GetOrCreate(s0, lecturer) == Some((AllocState(db.allocations, db.nextAllocationId), id.value));
    assert id.value in db.allocations;
    var row := db.allocations[id.value];
    db.allocations := db.allocations[id.value := row.(courses := row.courses + {course})];
    return true;
  }
}
