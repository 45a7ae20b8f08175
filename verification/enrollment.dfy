/** `add_student_to_course` (course/views.py): get-or-create a student account per
    email, get-or-create its profile, and enroll it in the course unless it already
    is. A created account also passes through the post-save receiver. */
module Enrollment {
  import opened Tables
  import opened Text
  import opened EmailTokens
  import opened AccountUtils
  import opened AccountSignals

  /** The limit on one bulk request. */
  const MaxBulkEmails := 50

  /** The part of the world the view touches. */
  datatype EnrollState = EnrollState(
    users: map<UserId, UserRow>,
    nextUserId: nat,
    students: map<UserId, StudentProfile>,
    taken: seq<TakenCourse>,
    draws: nat,
    outbox: seq<Email>)

  function Snapshot(db: Database, env: Env): EnrollState
    reads db, env
  {
    EnrollState(db.users, db.nextUserId, db.students, db.taken, env.draws, env.outbox)
  }

  ghost predicate StateValid(s: EnrollState) {
    AccountsValid(s.users, s.nextUserId, s.students, s.taken)
  }

  /** `User.objects.filter(email=email)`. */
  function UsersWithEmail(users: map<UserId, UserRow>, email: string): set<UserId> {
    set id | id in users && users[id].email == email
  }

  /** The one user with this email (what `get_or_create` gets). */
  ghost function EmailUser(users: map<UserId, UserRow>, email: string): (u: UserId)
    requires |UsersWithEmail(users, email)| == 1
    ensures UsersWithEmail(users, email) == {u}
  {
    var u :| u in UsersWithEmail(users, email);
    SingletonIs(UsersWithEmail(users, email), u);
    u
  }

  /** The row `get_or_create` inserts: username from the local part, a student, active. */
  function InitialStudentRow(email: string): UserRow {
    UserRow(FirstSegment(email, '@'), email, "", true, false, true, "")
  }

  /** The row a created account ends with. The receiver renamed it to the next student
      id (the count already includes it), stored password `random(d)`, deactivated it
      with key `random(d + 1)`. The view then stored password `random(d + 2)` and
      re-issued the key as `random(d + 3)`. */
  function CreatedRow(cfg: Config, users: map<UserId, UserRow>, email: string, d: nat): UserRow {
    UserRow(AccountId(cfg.studentPrefix, cfg.year, StudentCount(users) + 1), email,
            cfg.random(d + 2), true, false, false, cfg.random(d + 3))
  }

  /** The receiver's email, then the view's own. */
  function CreatedEmails(cfg: Config, id: UserId, email: string, d: nat): seq<Email> {
    [AccountEmail(id, email, true, cfg.random(d), cfg.random(d + 1)),
     AccountEmail(id, email, true, cfg.random(d + 2), cfg.random(d + 3))]
  }

  /** The creation branch of `User.objects.get_or_create(email=...)` with what follows it. */
  function CreateStep(cfg: Config, s: EnrollState, email: string): EnrollState {
    s.(users := s.users[s.nextUserId := CreatedRow(cfg, s.users, email, s.draws)],
       nextUserId := s.nextUserId + 1,
       draws := s.draws + 4,
       outbox := s.outbox + CreatedEmails(cfg, s.nextUserId, email, s.draws))
  }

  /** The profile get-or-create, then the enrollment unless one exists; the flag says
      whether one was created. */
  function EnrollUser(s: EnrollState, uid: UserId, course: CourseId): (EnrollState, bool) {
    var s1 := if uid in s.students then s else s.(students := s.students[uid := DefaultProfile]);
    if TakenCourse(uid, course) in s1.taken then (s1, false)
    else (s1.(taken := s1.taken + [TakenCourse(uid, course)]), true)
  }

  datatype StepResult =
    | StepFailed
    | StepDone(state: EnrollState, created: bool, added: bool)

  /** One email of the loop: two users with that email make `get_or_create` raise;
      otherwise the account is found or created, and the email is reported added or
      already enrolled. */
  ghost function EnrollStep(cfg: Config, s: EnrollState, course: CourseId, email: string): StepResult {
    var matches := UsersWithEmail(s.users, email);
    if |matches| > 1 then StepFailed
    else if matches == {} then
      var (s', a) := EnrollUser(CreateStep(cfg, s, email), s.nextUserId, course);
      StepDone(s', true, a)
    else
      var (s', a) := EnrollUser(s, EmailUser(s.users, email), course);
      StepDone(s', false, a)
  }

  /** The `added`, `already` and `created` lists of the bulk view. */
  datatype Report = Report(added: seq<string>, already: seq<string>, created: seq<string>)

  /** The loop over the tokens: done, or stopped by a failing lookup with the writes
      made so far kept. */
  datatype BatchResult =
    | BatchDone(state: EnrollState, report: Report)
    | BatchFailed(state: EnrollState, report: Report)

  function Record(r: Report, email: string, created: bool, added: bool): Report {
    Report(r.added + (if added then [email] else []),
           r.already + (if added then [] else [email]),
           r.created + (if created then [email] else []))
  }

  /** The loop over the tokens, for any step function: done, or stopped at the first
      failing step with the writes made so far kept. */
  ghost function Run(step: (EnrollState, string) -> StepResult, s: EnrollState, emails: seq<string>): BatchResult
    decreases |emails|
  {
    if emails == [] then BatchDone(s, Report([], [], []))
    else
      match Run(step, s, emails[..|emails| - 1])
      case BatchFailed(s', r) => BatchFailed(s', r)
      case BatchDone(s', r) =>
        var email := emails[|emails| - 1];
        match step(s', email)
        case StepFailed => BatchFailed(s', r)
        case StepDone(s'', c, a) => BatchDone(s'', Record(r, email, c, a))
  }

  /** The step of the bulk view for one course. */
  ghost function StepOf(cfg: Config, course: CourseId): (EnrollState, string) -> StepResult {
    (st, e) => EnrollStep(cfg, st, course, e)
  }

  /** The bulk view's loop over the tokens. */
  ghost function EnrollAll(cfg: Config, s: EnrollState, course: CourseId, emails: seq<string>): BatchResult {
    Run(StepOf(cfg, course), s, emails)
  }

  // ------------------------------------------------------------ step lemmas

  /** Every enrollment recorded for a student only ever grows by fresh entries for
      this course. */
  ghost predicate FreshEnrollments(before: seq<TakenCourse>, after: seq<TakenCourse>, course: CourseId) {
    before <= after
    && forall i :: |before| <= i < |after| ==> after[i].course == course && after[i] !in after[..i]
  }

  /** The email's one account has a profile and is enrolled in the course. */
  ghost predicate Enrolled(s: EnrollState, email: string, course: CourseId) {
    |UsersWithEmail(s.users, email)| == 1
    && var u := EmailUser(s.users, email);
       u in s.students && TakenCourse(u, course) in s.taken
  }

  /** Rows that existed are left as they were. */
  ghost predicate KeepsRows(s: EnrollState, s': EnrollState) {
    && (forall id :: id in s.users ==> id in s'.users && s'.users[id] == s.users[id])
    && (forall id :: id in s.students ==> id in s'.students && s'.students[id] == s.students[id])
    && s.outbox <= s'.outbox
  }

  lemma EnrollUserFacts(s: EnrollState, uid: UserId, course: CourseId)
    ensures var (s', a) := EnrollUser(s, uid, course);
      && s'.users == s.users && s'.nextUserId == s.nextUserId
      && s'.draws == s.draws && s'.outbox == s.outbox
      && uid in s'.students && TakenCourse(uid, course) in s'.taken
      && (forall id :: id in s.students ==> id in s'.students && s'.students[id] == s.students[id])
      && s'.students.Keys == s.students.Keys + {uid}
      && FreshEnrollments(s.taken, s'.taken, course)
      && (a <==> TakenCourse(uid, course) !in s.taken)
      && |s'.taken| == |s.taken| + (if a then 1 else 0)
  {
    var (s', a) := EnrollUser(s, uid, course);
    if a {
      assert s'.taken[..|s.taken|] == s.taken;
    }
  }

  lemma CreateStepValid(cfg: Config, s: EnrollState, email: string)
    requires StateValid(s)
    ensures StateValid(CreateStep(cfg, s, email))
  {
    var s1 := CreateStep(cfg, s, email);
    assert forall i :: 0 <= i < |s1.taken| ==> s1.taken[i].student < s1.nextUserId;
  }

  lemma EnrollUserValid(s: EnrollState, uid: UserId, course: CourseId)
    requires StateValid(s) && uid < s.nextUserId
    ensures StateValid(EnrollUser(s, uid, course).0)
  {
    var s1 := if uid in s.students then s else s.(students := s.students[uid := DefaultProfile]);
    assert StateValid(s1);
    if TakenCourse(uid, course) !in s1.taken {
      var t := s1.taken + [TakenCourse(uid, course)];
      assert forall i :: 0 <= i < |t| ==> t[i].student < s.nextUserId by {
        assert forall i :: 0 <= i < |s1.taken| ==> t[i] == s1.taken[i];
      }
    }
  }

  /** Validity is kept by a step. */
  lemma StepKeepsValid(cfg: Config, s: EnrollState, course: CourseId, email: string)
    requires StateValid(s)
    ensures EnrollStep(cfg, s, course, email).StepDone? ==> StateValid(EnrollStep(cfg, s, course, email).state)
  {
    var matches := UsersWithEmail(s.users, email);
    if |matches| <= 1 {
      if matches == {} {
        CreateStepValid(cfg, s, email);
        EnrollUserValid(CreateStep(cfg, s, email), s.nextUserId, course);
      } else {
        var u := EmailUser(s.users, email);
        assert u in s.users;
        EnrollUserValid(s, u, course);
      }
    }
  }

  /** A step keeps old rows, adds only fresh enrollments for this course, and leaves the
      email's account enrolled. */
  lemma StepEnrolls(cfg: Config, s: EnrollState, course: CourseId, email: string)
    requires StateValid(s)
    requires EnrollStep(cfg, s, course, email).StepDone?
    ensures var s' := EnrollStep(cfg, s, course, email).state;
      KeepsRows(s, s') && FreshEnrollments(s.taken, s'.taken, course) && Enrolled(s', email, course)
  {
    if UsersWithEmail(s.users, email) == {} {
      CreatedEnrolls(cfg, s, course, email);
    } else {
      EnrollUserFacts(s, EmailUser(s.users, email), course);
    }
  }

  /** The creation branch of a step: the new account is the email's only one. */
  lemma CreatedEnrolls(cfg: Config, s: EnrollState, course: CourseId, email: string)
    requires StateValid(s) && UsersWithEmail(s.users, email) == {}
    ensures var s' := EnrollUser(CreateStep(cfg, s, email), s.nextUserId, course).0;
      KeepsRows(s, s') && FreshEnrollments(s.taken, s'.taken, course) && Enrolled(s', email, course)
  {
    CreateStepFacts(cfg, s, email);
    EnrollUserFacts(CreateStep(cfg, s, email), s.nextUserId, course);
  }

  /** The created account takes a fresh id and is the email's only one. */
  lemma CreateStepFacts(cfg: Config, s: EnrollState, email: string)
    requires StateValid(s) && UsersWithEmail(s.users, email) == {}
    ensures var s1 := CreateStep(cfg, s, email);
      && KeepsRows(s, s1) && s1.students == s.students && s1.taken == s.taken
      && UsersWithEmail(s1.users, email) == {s.nextUserId}
  {
    var s1 := CreateStep(cfg, s, email);
    assert s.nextUserId !in s.users;
    assert UsersWithEmail(s1.users, email) == {s.nextUserId};
  }

  /** A created account cannot be enrolled yet, so a created email is also added. */
  lemma StepCreatedIsAdded(cfg: Config, s: EnrollState, course: CourseId, email: string)
    requires StateValid(s)
    requires EnrollStep(cfg, s, course, email).StepDone? && EnrollStep(cfg, s, course, email).created
    ensures EnrollStep(cfg, s, course, email).added
  {
    var s1 := CreateStep(cfg, s, email);
    EnrollUserFacts(s1, s.nextUserId, course);
    assert TakenCourse(s.nextUserId, course) !in s.taken by {
      assert forall i :: 0 <= i < |s.taken| ==> s.taken[i].student < s.nextUserId;
    }
  }

  /** An email whose account is already enrolled changes nothing and is reported
      already enrolled. */
  lemma StepOnEnrolledIsNoop(cfg: Config, s: EnrollState, course: CourseId, email: string)
    requires Enrolled(s, email, course)
    ensures EnrollStep(cfg, s, course, email) == StepDone(s, false, false)
  {
  }

  /** Another email's enrollment survives a step. */
  lemma StepKeepsEnrolled(cfg: Config, s: EnrollState, course: CourseId, email: string, other: string)
    requires StateValid(s) && Enrolled(s, other, course)
    requires EnrollStep(cfg, s, course, email).StepDone?
    ensures Enrolled(EnrollStep(cfg, s, course, email).state, other, course)
  {
    var s' := EnrollStep(cfg, s, course, email).state;
    StepEnrolls(cfg, s, course, email);
    StepUsers(cfg, s, course, email);
    var u := EmailUser(s.users, other);
    if s'.users != s.users {
      assert other != email by {
        assert u in UsersWithEmail(s.users, other);
      }
      var row := CreatedRow(cfg, s.users, email, s.draws);
      assert row.email == email;
      forall id
        ensures id in UsersWithEmail(s'.users, other) <==> id in UsersWithEmail(s.users, other)
      {
        if id == s.nextUserId {
          assert id !in UsersWithEmail(s.users, other);
        }
      }
    }
    assert UsersWithEmail(s'.users, other) == {u};
    assert TakenCourse(u, course) in s.taken;
    assert s.taken <= s'.taken;
  }

  /** The user table after a step: unchanged, or the created row added under the next id. */
  lemma StepUsers(cfg: Config, s: EnrollState, course: CourseId, email: string)
    requires EnrollStep(cfg, s, course, email).StepDone?
    ensures var s' := EnrollStep(cfg, s, course, email).state;
      || s'.users == s.users
      || s'.users == s.users[s.nextUserId := CreatedRow(cfg, s.users, email, s.draws)]
  {
    var matches := UsersWithEmail(s.users, email);
    if matches == {} {
      EnrollUserFacts(CreateStep(cfg, s, email), s.nextUserId, course);
    } else {
      EnrollUserFacts(s, EmailUser(s.users, email), course);
    }
  }

  /** The composition of the view with the receiver for a new account: the stored row
      carries the next student id, is inactive, and holds the password and key of the
      second of exactly two emails sent to it. The first email's password and link are
      the receiver's, which the view then replaced. */
  lemma CreatedAccountGetsTwoEmails(cfg: Config, s: EnrollState, course: CourseId, email: string)
    requires StateValid(s) && UsersWithEmail(s.users, email) == {}
    ensures var s' := EnrollStep(cfg, s, course, email).state;
      var id := s.nextUserId;
      && id in s'.users && UsersWithEmail(s'.users, email) == {id}
      && IdCount(cfg.studentPrefix, cfg.year, s'.users[id].username) == Some(StudentCount(s.users) + 1)
      && StudentCount(s'.users) == StudentCount(s.users) + 1
      && s'.users[id].isStudent && !s'.users[id].isActive
      && |s'.outbox| == |s.outbox| + 2 && s'.outbox[..|s.outbox|] == s.outbox
      && s'.outbox[|s.outbox|].recipients == [email] && s'.outbox[|s.outbox| + 1].recipients == [email]
      && s'.outbox[|s.outbox|].password == cfg.random(s.draws)
      && s'.outbox[|s.outbox| + 1].password == s'.users[id].password
      && KeyOfLink(s'.outbox[|s.outbox| + 1].activationLink) == Some(s'.users[id].activationKey)
  {
    var s1 := CreateStep(cfg, s, email);
    var id := s.nextUserId;
    EnrollUserFacts(s1, id, course);
    IdCountRoundTrip(cfg.studentPrefix, cfg.year, StudentCount(s.users) + 1);
    StudentCountInsert(s.users, id, CreatedRow(cfg, s.users, email, s.draws));
    assert UsersWithEmail(s1.users, email) == {id};
  }

  // ------------------------------------------------------------ batch lemmas

  /** `emails` is `added` and `already` interleaved: each email in exactly one list, both
      lists in input order. */
  predicate Interleaving(emails: seq<string>, added: seq<string>, already: seq<string>)
    decreases |emails|
  {
    if emails == [] then added == [] && already == []
    else
      var e := emails[|emails| - 1];
      var rest := emails[..|emails| - 1];
      || (added != [] && added[|added| - 1] == e && Interleaving(rest, added[..|added| - 1], already))
      || (already != [] && already[|already| - 1] == e && Interleaving(rest, added, already[..|already| - 1]))
  }

  /** What a completed step from a valid state guarantees. */
  ghost predicate GoodStep(st: EnrollState, e: string, r: StepResult, course: CourseId)
    requires r.StepDone?
  {
    && StateValid(r.state)
    && KeepsRows(st, r.state)
    && FreshEnrollments(st.taken, r.state.taken, course)
    && Enrolled(r.state, e, course)
    && (r.created ==> r.added)
    && forall other :: Enrolled(st, other, course) ==> Enrolled(r.state, other, course)
  }

  /** The properties of a step the batch lemmas rely on. */
  ghost predicate WellBehaved(step: (EnrollState, string) -> StepResult, course: CourseId) {
    && (forall st, e :: StateValid(st) && step(st, e).StepDone? ==> GoodStep(st, e, step(st, e), course))
    && (forall st, e :: Enrolled(st, e, course) ==> step(st, e) == StepDone(st, false, false))
  }

  /** The bulk view's step has those properties. */
  lemma EnrollStepWellBehaved(cfg: Config, course: CourseId)
    ensures WellBehaved(StepOf(cfg, course), course)
  {
    var step := StepOf(cfg, course);
    forall st, e | StateValid(st) && step(st, e).StepDone?
      ensures GoodStep(st, e, step(st, e), course)
    {
      assert step(st, e) == EnrollStep(cfg, st, course, e);
      StepKeepsValid(cfg, st, course, e);
      StepEnrolls(cfg, st, course, e);
      if step(st, e).created {
        StepCreatedIsAdded(cfg, st, course, e);
      }
      forall other | Enrolled(st, other, course)
        ensures Enrolled(step(st, e).state, other, course)
      {
        StepKeepsEnrolled(cfg, st, course, e, other);
      }
    }
    forall st, e | Enrolled(st, e, course)
      ensures step(st, e) == StepDone(st, false, false)
    {
      assert step(st, e) == EnrollStep(cfg, st, course, e);
      StepOnEnrolledIsNoop(cfg, st, course, e);
    }
  }

  /** One more email at the end of the batch. */
  lemma RunSnoc(step: (EnrollState, string) -> StepResult, s: EnrollState, init: seq<string>, e: string)
    ensures Run(step, s, init + [e]) ==
      var prev := Run(step, s, init);
      if prev.BatchFailed? then prev
      else
        var r := step(prev.state, e);
        if r.StepFailed? then BatchFailed(prev.state, prev.report)
        else BatchDone(r.state, Record(prev.report, e, r.created, r.added))
  {
    assert (init + [e])[..|init|] == init;
  }

  lemma {:induction false} RunFailedSticks(step: (EnrollState, string) -> StepResult, s: EnrollState, emails: seq<string>, j: nat)
    requires j <= |emails| && Run(step, s, emails[..j]).BatchFailed?
    ensures Run(step, s, emails) == Run(step, s, emails[..j])
    decreases |emails|
  {
    if j < |emails| {
      var init := emails[..|emails| - 1];
      assert init[..j] == emails[..j];
      RunFailedSticks(step, s, init, j);
      RunSnoc(step, s, init, emails[|emails| - 1]);
      assert emails == init + [emails[|emails| - 1]];
    } else {
      assert emails[..j] == emails;
    }
  }

  lemma {:induction false} RunKeepsValid(step: (EnrollState, string) -> StepResult, course: CourseId, s: EnrollState, emails: seq<string>)
    requires WellBehaved(step, course) && StateValid(s)
    ensures StateValid(Run(step, s, emails).state)
    decreases |emails|
  {
    if emails != [] {
      var init := emails[..|emails| - 1];
      var e := emails[|emails| - 1];
      RunKeepsValid(step, course, s, init);
      assert emails == init + [e];
      RunSnoc(step, s, init, e);
      var prev := Run(step, s, init);
      if prev.BatchDone? && step(prev.state, e).StepDone? {
        assert GoodStep(prev.state, e, step(prev.state, e), course);
      }
    }
  }

  lemma RecordInterleaves(emails: seq<string>, r: Report, e: string, c: bool, a: bool)
    requires Interleaving(emails, r.added, r.already) && (forall x :: x in r.created ==> x in r.added)
    requires c ==> a
    ensures var r' := Record(r, e, c, a);
      Interleaving(emails + [e], r'.added, r'.already) && forall x :: x in r'.created ==> x in r'.added
  {
    var r' := Record(r, e, c, a);
    var es := emails + [e];
    assert es[..|es| - 1] == emails && es[|es| - 1] == e;
    if a {
      assert r'.added == r.added + [e] && r'.already == r.already;
      assert r'.added[..|r'.added| - 1] == r.added;
      assert Interleaving(es, r'.added, r'.already);
    } else {
      assert r'.added == r.added && r'.already == r.already + [e];
      assert r'.already[..|r'.already| - 1] == r.already;
      assert Interleaving(es, r'.added, r'.already);
    }
    forall x | x in r'.created
      ensures x in r'.added
    {
      if x != e {
        assert x in r.created;
      }
    }
  }

  lemma {:induction false} RunReports(step: (EnrollState, string) -> StepResult, course: CourseId, s: EnrollState, emails: seq<string>)
    requires WellBehaved(step, course) && StateValid(s)
    requires Run(step, s, emails).BatchDone?
    ensures var r := Run(step, s, emails).report;
      Interleaving(emails, r.added, r.already) && forall e :: e in r.created ==> e in r.added
    decreases |emails|
  {
    if emails != [] {
      var init := emails[..|emails| - 1];
      var e := emails[|emails| - 1];
      RunReports(step, course, s, init);
      RunKeepsValid(step, course, s, init);
      var prev := Run(step, s, init);
      var r := step(prev.state, e);
      assert GoodStep(prev.state, e, r, course);
      assert emails == init + [e];
      RunSnoc(step, s, init, e);
      RecordInterleaves(init, prev.report, e, r.created, r.added);
    }
  }

  lemma FreshTransitive(a: seq<TakenCourse>, b: seq<TakenCourse>, c: seq<TakenCourse>, course: CourseId)
    requires FreshEnrollments(a, b, course) && FreshEnrollments(b, c, course)
    ensures FreshEnrollments(a, c, course)
  {
    forall i | |a| <= i < |b|
      ensures c[i].course == course && c[i] !in c[..i]
    {
      assert c[..i] == b[..i];
    }
  }

  lemma {:induction false} RunEnrollsAll(step: (EnrollState, string) -> StepResult, course: CourseId, s: EnrollState, emails: seq<string>)
    requires WellBehaved(step, course) && StateValid(s)
    requires Run(step, s, emails).BatchDone?
    ensures var s' := Run(step, s, emails).state;
      && (forall e :: e in emails ==> Enrolled(s', e, course))
      && KeepsRows(s, s')
      && FreshEnrollments(s.taken, s'.taken, course)
    decreases |emails|
  {
    if emails != [] {
      var init := emails[..|emails| - 1];
      var e := emails[|emails| - 1];
      RunEnrollsAll(step, course, s, init);
      RunKeepsValid(step, course, s, init);
      assert emails == init + [e];
      RunSnoc(step, s, init, e);
      var prev := Run(step, s, init).state;
      var s' := step(prev, e).state;
      assert GoodStep(prev, e, step(prev, e), course);
      forall x | x in emails
        ensures Enrolled(s', x, course)
      {
        if x != e {
          assert x in init by {
            var k :| 0 <= k < |emails| && emails[k] == x;
            assert k < |emails| - 1 && init[k] == x;
          }
        }
      }
      FreshTransitive(s.taken, prev.taken, s'.taken, course);
    }
  }

  /** The step does nothing on each of the emails. */
  ghost predicate AllIdle(step: (EnrollState, string) -> StepResult, s: EnrollState, emails: seq<string>)
    decreases |emails|
  {
    emails == [] ||
    (AllIdle(step, s, emails[..|emails| - 1]) && step(s, emails[|emails| - 1]) == StepDone(s, false, false))
  }

  lemma {:induction false} AllIdleIntro(step: (EnrollState, string) -> StepResult, s: EnrollState, emails: seq<string>)
    requires forall i :: 0 <= i < |emails| ==> step(s, emails[i]) == StepDone(s, false, false)
    ensures AllIdle(step, s, emails)
    decreases |emails|
  {
    if emails != [] {
      var init := emails[..|emails| - 1];
      assert forall i :: 0 <= i < |init| ==> init[i] == emails[i];
      AllIdleIntro(step, s, init);
    }
  }

  /** Emails on which the step does nothing pass through the loop untouched. */
  lemma {:induction false} RunIdle(step: (EnrollState, string) -> StepResult, s: EnrollState, emails: seq<string>)
    requires AllIdle(step, s, emails)
    ensures Run(step, s, emails) == BatchDone(s, Report([], emails, []))
    decreases |emails|
  {
    if emails != [] {
      var init := emails[..|emails| - 1];
      var e := emails[|emails| - 1];
      RunIdle(step, s, init);
      assert emails == init + [e];
      RunSnoc(step, s, init, e);
      assert Record(Report([], init, []), e, false, false) == Report([], init + [e], []);
    }
  }

  /** A failed lookup ends the batch: later emails are not processed. */
  lemma BatchFailedSticks(cfg: Config, s: EnrollState, course: CourseId, emails: seq<string>, j: nat)
    requires j <= |emails| && EnrollAll(cfg, s, course, emails[..j]).BatchFailed?
    ensures EnrollAll(cfg, s, course, emails) == EnrollAll(cfg, s, course, emails[..j])
  {
    RunFailedSticks(StepOf(cfg, course), s, emails, j);
  }

  /** The next email of the batch, once the ones before it went through. */
  lemma BatchNext(cfg: Config, s: EnrollState, course: CourseId, emails: seq<string>, i: nat,
                  st: EnrollState, r: Report, st': EnrollState, c: bool, a: bool)
    requires i < |emails| && EnrollAll(cfg, s, course, emails[..i]) == BatchDone(st, r)
    requires EnrollStep(cfg, st, course, emails[i]) == StepDone(st', c, a)
    ensures EnrollAll(cfg, s, course, emails[..i + 1]) == BatchDone(st', Record(r, emails[i], c, a))
  {
    assert emails[..i + 1] == emails[..i] + [emails[i]];
    assert StepOf(cfg, course)(st, emails[i]) == StepDone(st', c, a);
    RunSnoc(StepOf(cfg, course), s, emails[..i], emails[i]);
  }

  /** A failing lookup on the next email is where the batch ends. */
  lemma BatchStops(cfg: Config, s: EnrollState, course: CourseId, emails: seq<string>, i: nat, st: EnrollState, r: Report)
    requires i < |emails| && EnrollAll(cfg, s, course, emails[..i]) == BatchDone(st, r)
    requires EnrollStep(cfg, st, course, emails[i]) == StepFailed
    ensures EnrollAll(cfg, s, course, emails) == BatchFailed(st, r)
  {
    assert emails[..i + 1] == emails[..i] + [emails[i]];
    assert StepOf(cfg, course)(st, emails[i]) == StepFailed;
    RunSnoc(StepOf(cfg, course), s, emails[..i], emails[i]);
    RunFailedSticks(StepOf(cfg, course), s, emails, i + 1);
  }

  lemma BatchKeepsValid(cfg: Config, s: EnrollState, course: CourseId, emails: seq<string>)
    requires StateValid(s)
    ensures StateValid(EnrollAll(cfg, s, course, emails).state)
  {
    EnrollStepWellBehaved(cfg, course);
    RunKeepsValid(StepOf(cfg, course), course, s, emails);
  }

  /** Each processed email lands in exactly one of `added` and `already`, in input
      order, and every `created` email is also `added`. */
  lemma BatchReports(cfg: Config, s: EnrollState, course: CourseId, emails: seq<string>)
    requires StateValid(s)
    requires EnrollAll(cfg, s, course, emails).BatchDone?
    ensures var r := EnrollAll(cfg, s, course, emails).report;
      Interleaving(emails, r.added, r.already) && forall e :: e in r.created ==> e in r.added
  {
    EnrollStepWellBehaved(cfg, course);
    RunReports(StepOf(cfg, course), course, s, emails);
  }

  /** After a completed batch every token's account is enrolled, rows that existed are
      untouched, and the batch added no enrollment that already existed (so it never
      creates a second one for the same student and course). */
  lemma BatchEnrollsAll(cfg: Config, s: EnrollState, course: CourseId, emails: seq<string>)
    requires StateValid(s)
    requires EnrollAll(cfg, s, course, emails).BatchDone?
    ensures var s' := EnrollAll(cfg, s, course, emails).state;
      && (forall e :: e in emails ==> Enrolled(s', e, course))
      && KeepsRows(s, s')
      && FreshEnrollments(s.taken, s'.taken, course)
  {
    EnrollStepWellBehaved(cfg, course);
    RunEnrollsAll(StepOf(cfg, course), course, s, emails);
  }

  /** Emails whose accounts are all enrolled change nothing and are all reported
      already enrolled. */
  lemma BatchOnEnrolledIsNoop(cfg: Config, s: EnrollState, course: CourseId, emails: seq<string>)
    requires forall e :: e in emails ==> Enrolled(s, e, course)
    ensures EnrollAll(cfg, s, course, emails) == BatchDone(s, Report([], emails, []))
  {
    EnrollStepWellBehaved(cfg, course);
    var step := StepOf(cfg, course);
    forall i | 0 <= i < |emails|
      ensures step(s, emails[i]) == StepDone(s, false, false)
    {
      assert Enrolled(s, emails[i], course);
    }
    AllIdleIntro(step, s, emails);
    RunIdle(step, s, emails);
  }

  /** Re-running a batch that completed adds nothing, creates nothing, and reports every
      email as already enrolled. */
  lemma BatchRerun(cfg: Config, s: EnrollState, course: CourseId, emails: seq<string>)
    requires StateValid(s)
    requires EnrollAll(cfg, s, course, emails).BatchDone?
    ensures var s' := EnrollAll(cfg, s, course, emails).state;
      EnrollAll(cfg, s', course, emails) == BatchDone(s', Report([], emails, []))
  {
    EnrollStepWellBehaved(cfg, course);
    var step := StepOf(cfg, course);
    RunEnrollsAll(step, course, s, emails);
    var s' := Run(step, s, emails).state;
    forall i | 0 <= i < |emails|
      ensures step(s', emails[i]) == StepDone(s', false, false)
    {
      assert Enrolled(s', emails[i], course);
    }
    AllIdleIntro(step, s', emails);
    RunIdle(step, s', emails);
  }

  /** An email met again later in the same batch is reported already enrolled that
      time, and nothing changes. */
  lemma BatchRepeatIsAlready(cfg: Config, s: EnrollState, course: CourseId, emails: seq<string>, k: nat)
    requires StateValid(s)
    requires k < |emails| && emails[k] in emails[..k]
    requires EnrollAll(cfg, s, course, emails[..k]).BatchDone?
    ensures var prev := EnrollAll(cfg, s, course, emails[..k]);
      EnrollAll(cfg, s, course, emails[..k + 1])
      == BatchDone(prev.state, Report(prev.report.added, prev.report.already + [emails[k]], prev.report.created))
  {
    EnrollStepWellBehaved(cfg, course);
    RunRepeat(StepOf(cfg, course), course, s, emails, k);
  }

  lemma RunRepeat(step: (EnrollState, string) -> StepResult, course: CourseId, s: EnrollState, emails: seq<string>, k: nat)
    requires WellBehaved(step, course) && StateValid(s)
    requires k < |emails| && emails[k] in emails[..k]
    requires Run(step, s, emails[..k]).BatchDone?
    ensures var prev := Run(step, s, emails[..k]);
      Run(step, s, emails[..k + 1])
      == BatchDone(prev.state, Report(prev.report.added, prev.report.already + [emails[k]], prev.report.created))
  {
    RunEnrollsAll(step, course, s, emails[..k]);
    var prev := Run(step, s, emails[..k]);
    assert Enrolled(prev.state, emails[k], course);
    assert step(prev.state, emails[k]) == StepDone(prev.state, false, false);
    assert emails[..k + 1] == emails[..k] + [emails[k]];
    RunSnoc(step, s, emails[..k], emails[k]);
  }

  // ------------------------------------------------------------ methods

  /** The row of a newly inserted student once the receiver has provisioned it. */
  function ProvisionedRow(cfg: Config, users: map<UserId, UserRow>, email: string, d: nat): UserRow {
    InitialStudentRow(email).(username := AccountId(cfg.studentPrefix, cfg.year, StudentCount(users) + 1),
                              password := cfg.random(d), isActive := false, activationKey := cfg.random(d + 1))
  }

  /** The receiver on the insert of `get_or_create`: the id counts the new row itself. */
  lemma ReceiveOnInsert(cfg: Config, users: map<UserId, UserRow>, d: nat, outbox: seq<Email>, id: UserId, email: string)
    requires id !in users
    ensures Receive(cfg, AccountWorld(users[id := InitialStudentRow(email)], d, outbox), id, InitialStudentRow(email), false, true)
      == (ProvisionedRow(cfg, users, email, d),
          AccountWorld(users[id := ProvisionedRow(cfg, users, email, d)], d + 2,
                       outbox + [AccountEmail(id, email, true, cfg.random(d), cfg.random(d + 1))]))
  {
    StudentCountInsert(users, id, InitialStudentRow(email));
    assert users[id := InitialStudentRow(email)][id := ProvisionedRow(cfg, users, email, d)]
        == users[id := ProvisionedRow(cfg, users, email, d)];
  }

  /** The profile get-or-create and the guarded enrollment. */
  method EnrollUserIn(db: Database, env: Env, uid: UserId, course: CourseId) returns (added: bool)
    modifies db`students, db`taken
    ensures (Snapshot(db, env), added) == EnrollUser(old(Snapshot(db, env)), uid, course)
  {
    if uid !in db.students {
      db.students := db.students[uid := DefaultProfile];
    }
    var alreadyTaken := TakenCourse(uid, course) in db.taken;
    if !alreadyTaken {
      db.taken := db.taken + [TakenCourse(uid, course)];
    }
    added := !alreadyTaken;
  }

  /** `User.objects.get_or_create(...)` inserting a new student, whose save fires the
      post-save receiver. */
  method InsertStudentUser(db: Database, env: Env, email: string) returns (user: User)
    requires db.nextUserId !in db.users
    modifies db`users, db`nextUserId, env`draws, env`outbox
    ensures fresh(user) && user.id == old(db.nextUserId) && !user.skipSignal
    ensures db.nextUserId == user.id + 1
    ensures user.Row() == ProvisionedRow(env.config, old(db.users), email, old(env.draws))
    ensures db.users == old(db.users)[user.id := user.Row()]
    ensures env.draws == old(env.draws) + 2
    ensures env.outbox == old(env.outbox) + [AccountEmail(user.id, email, true, env.config.random(old(env.draws)),
                                                          env.config.random(old(env.draws) + 1))]
  {
    var uid := db.nextUserId;
    user := new User(uid, InitialStudentRow(email));
    ReceiveOnInsert(env.config, db.users, env.draws, env.outbox, uid, email);
    db.users := db.users[uid := user.Row()];
    db.nextUserId := uid + 1;
    PostSaveAccountReceiver(db, env, user, true);
  }

  /** The creation branch: insert the user (the receiver provisions it), then set a
      random password, save, and send the account email again. */
  method CreateStudentUser(db: Database, env: Env, email: string) returns (uid: UserId)
    requires db.nextUserId !in db.users
    modifies db`users, db`nextUserId, env`draws, env`outbox
    ensures uid == old(db.nextUserId)
    ensures Snapshot(db, env) == CreateStep(env.config, old(Snapshot(db, env)), email)
  {
    ghost var d := env.draws;
    ghost var users0 := db.users;
    ghost var outbox0 := env.outbox;
    var user := InsertStudentUser(db, env, email);
    uid := user.id;
    ghost var users1 := db.users;
    ghost var outbox1 := env.outbox;
    ResetAndResend(db, env, user);
    CreatedIsProvisioned(env.config, users0, email, d);
    ghost var row := CreatedRow(env.config, users0, email, d);
    assert user.Row() == row;
    OverwriteTwice(users0, uid, ProvisionedRow(env.config, users0, email, d), row);
    AppendTwice(outbox0, AccountEmail(uid, email, true, env.config.random(d), env.config.random(d + 1)),
                AccountEmail(uid, email, true, env.config.random(d + 2), env.config.random(d + 3)));
  }

  lemma OverwriteTwice(m: map<UserId, UserRow>, k: UserId, a: UserRow, b: UserRow)
    ensures m[k := a][k := b] == m[k := b]
  {
  }

  lemma AppendTwice(s: seq<Email>, a: Email, b: Email)
    ensures s + [a] + [b] == s + [a, b]
  {
  }

  /** `user.set_password(...)` with a random password, `user.save()` (not a creation,
      so the receiver leaves it alone), then `send_new_account_email`. */
  method ResetAndResend(db: Database, env: Env, user: User)
    requires user.id in db.users
    modifies user, db`users, env`draws, env`outbox
    ensures user.id == old(user.id)
    ensures user.Row() == old(user.Row()).(password := env.config.random(old(env.draws)), isActive := false,
                                           activationKey := env.config.random(old(env.draws) + 1))
    ensures db.users == old(db.users)[user.id := user.Row()]
    ensures env.draws == old(env.draws) + 2
    ensures env.outbox == old(env.outbox) + [AccountEmail(user.id, user.email, user.isStudent,
                                                          env.config.random(old(env.draws)),
                                                          env.config.random(old(env.draws) + 1))]
  {
    var password := env.Draw();
    user.password := password;
    db.SaveUser(user);
    ghost var row := user.Row();
    ghost var users := db.users;
    ghost var outbox := env.outbox;
    ReceiveIgnores(env.config, AccountWorld(db.users, env.draws, env.outbox), user.id, row, user.skipSignal, false);
    PostSaveAccountReceiver(db, env, user, false);
    assert user.Row() == row && db.users == users && env.outbox == outbox;
    SendNewAccountEmail(db, env, user, password);
  }

  /** The view's password and key replace the receiver's in the provisioned row. */
  lemma CreatedIsProvisioned(cfg: Config, users: map<UserId, UserRow>, email: string, d: nat)
    ensures CreatedRow(cfg, users, email, d)
         == ProvisionedRow(cfg, users, email, d).(password := cfg.random(d + 2), activationKey := cfg.random(d + 3))
  {
  }

  /** One email of the loop. `ok` is false when the lookup raises (two accounts share
      the email); nothing is written then. */
  method EnrollEmail(db: Database, env: Env, course: CourseId, email: string) returns (ok: bool, created: bool, added: bool)
    requires db.Valid()
    modifies db`users, db`nextUserId, db`students, db`taken, env`draws, env`outbox
    ensures db.Valid()
    ensures var r := EnrollStep(env.config, old(Snapshot(db, env)), course, email);
      if ok then r == StepDone(Snapshot(db, env), created, added)
      else r == StepFailed && Snapshot(db, env) == old(Snapshot(db, env))
  {
    var matches := set id | id in db.users && db.users[id].email == email;
    assert matches == UsersWithEmail(db.users, email);
    if |matches| > 1 {
      return false, false, false;
    }
    ok := true;
    if matches == {} {
      created := true;
      added := EnrollNewAccount(db, env, course, email);
    } else {
      var uid :| uid in matches;
      SingletonIs(matches, uid);
      created := false;
      added := EnrollAccount(db, env, course, email, uid);
    }
  }

  /** The step for an email without an account: create it, then enroll it. */
  method EnrollNewAccount(db: Database, env: Env, course: CourseId, email: string) returns (added: bool)
    requires db.Valid() && UsersWithEmail(db.users, email) == {}
    modifies db`users, db`nextUserId, db`students, db`taken, env`draws, env`outbox
    ensures db.Valid()
    ensures EnrollStep(env.config, old(Snapshot(db, env)), course, email) == StepDone(Snapshot(db, env), true, added)
  {
    ghost var s0 := Snapshot(db, env);
    var uid := CreateStudentUser(db, env, email);
    added := EnrollUserIn(db, env, uid, course);
    StepOnNewEmail(env.config, s0, course, email);
    StepKeepsValid(env.config, s0, course, email);
  }

  /** The creation branch of the step, for an email without an account. */
  lemma StepOnNewEmail(cfg: Config, s: EnrollState, course: CourseId, email: string)
    requires UsersWithEmail(s.users, email) == {}
    ensures var (s', a) := EnrollUser(CreateStep(cfg, s, email), s.nextUserId, course);
      EnrollStep(cfg, s, course, email) == StepDone(s', true, a)
  {
  }

  /** The step for an email with exactly one account: enroll that account. */
  method EnrollAccount(db: Database, env: Env, course: CourseId, email: string, uid: UserId) returns (added: bool)
    requires db.Valid() && UsersWithEmail(db.users, email) == {uid}
    modifies db`students, db`taken
    ensures db.Valid()
    ensures EnrollStep(env.config, old(Snapshot(db, env)), course, email) == StepDone(Snapshot(db, env), false, added)
  {
    ghost var s0 := Snapshot(db, env);
    added := EnrollUserIn(db, env, uid, course);
    StepKeepsValid(env.config, s0, course, email);
  }

  datatype BulkOutcome =
    | CourseNotFound
    | TooManyEmails
    | LookupFailed(report: Report)
    | Reported(report: Report)

  /** The loop over the tokens, for a course that exists. */
  method EnrollBatch(db: Database, env: Env, course: CourseId, emails: seq<string>) returns (ok: bool, report: Report)
    requires db.Valid()
    modifies db`users, db`nextUserId, db`students, db`taken, env`draws, env`outbox
    ensures db.Valid()
    ensures EnrollAll(env.config, old(Snapshot(db, env)), course, emails)
            == if ok then BatchDone(Snapshot(db, env), report) else BatchFailed(Snapshot(db, env), report)
  {
    ghost var s0 := Snapshot(db, env);
    report := Report([], [], []);
    var i := 0;
    while i < |emails|
      invariant 0 <= i <= |emails| && db.Valid()
      invariant EnrollAll(env.config, s0, course, emails[..i]) == BatchDone(Snapshot(db, env), report)
    {
      var email := emails[i];
      ghost var st := Snapshot(db, env);
      var stepOk, created, added := EnrollEmail(db, env, course, email);
      if !stepOk {
        BatchStops(env.config, s0, course, emails, i, st, report);
        return false, report;
      }
      BatchNext(env.config, s0, course, emails, i, st, report, Snapshot(db, env), created, added);
      report := Record(report, email, created, added);
      i := i + 1;
    }
    assert emails[..i] == emails;
    ok := true;
  }

  /** The bulk branch of `add_student_to_course`. */
  method BulkAdd(db: Database, env: Env, slug: string, emailsInput: string) returns (outcome: BulkOutcome)
    requires db.Valid()
    modifies db`users, db`nextUserId, db`students, db`taken, env`draws, env`outbox
    ensures db.Valid()
    ensures outcome == CourseNotFound <==> forall id :: id in db.courses ==> db.courses[id].slug != slug
    ensures outcome == TooManyEmails ==> |Tokens(emailsInput)| > MaxBulkEmails
    ensures outcome.Reported? || outcome.LookupFailed? ==> |Tokens(emailsInput)| <= MaxBulkEmails
    ensures outcome == CourseNotFound || outcome == TooManyEmails ==> Snapshot(db, env) == old(Snapshot(db, env))
    ensures outcome.Reported? || outcome.LookupFailed? ==>
      exists course :: course in db.courses && db.courses[course].slug == slug &&
        EnrollAll(env.config, old(Snapshot(db, env)), course, Tokens(emailsInput))
        == (if outcome.Reported? then BatchDone(Snapshot(db, env), outcome.report)
            else BatchFailed(Snapshot(db, env), outcome.report))
  {
    var found := db.CourseBySlug(slug);
    if found.None? {
      return CourseNotFound;
    }
    var course := found.value;
    var emails := Tokens(emailsInput);
    if |emails| > MaxBulkEmails {
      return TooManyEmails;
    }
    var ok, report := EnrollBatch(db, env, course, emails);
    outcome := if ok then Reported(report) else LookupFailed(report);
    assert course in db.courses && db.courses[course].slug == slug;
  }

  datatype SingleOutcome =
    | NoSuchCourse
    | LookupError
    | AddedToCourse(accountCreated: bool)
    | AlreadyEnrolled

  /** The single-add branch, for a form that validated with this email. */
  method SingleAdd(db: Database, env: Env, slug: string, email: string) returns (outcome: SingleOutcome)
    requires db.Valid()
    modifies db`users, db`nextUserId, db`students, db`taken, env`draws, env`outbox
    ensures db.Valid()
    ensures outcome == NoSuchCourse <==> forall id :: id in db.courses ==> db.courses[id].slug != slug
    ensures outcome == NoSuchCourse || outcome == LookupError ==> Snapshot(db, env) == old(Snapshot(db, env))
    ensures outcome != NoSuchCourse ==>
      exists course :: course in db.courses && db.courses[course].slug == slug &&
        var r := EnrollStep(env.config, old(Snapshot(db, env)), course, email);
        match outcome
        case LookupError => r == StepFailed
        case AddedToCourse(c) => r == StepDone(Snapshot(db, env), c, true)
        case AlreadyEnrolled => r == StepDone(Snapshot(db, env), false, false)
        case NoSuchCourse => false
  {
    var found := db.CourseBySlug(slug);
    if found.None? {
      return NoSuchCourse;
    }
    var course := found.value;
    ghost var s0 := Snapshot(db, env);
    var ok, created, added := EnrollEmail(db, env, course, email);
    if !ok {
      outcome := LookupError;
    } else if added {
      outcome := AddedToCourse(created);
    } else {
      if created {
        StepCreatedIsAdded(env.config, s0, course, email);
      }
      outcome := AlreadyEnrolled;
    }
  }
}
