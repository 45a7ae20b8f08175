/** Account id generation, credentials and the new-account email
    (accounts/utils.py). */
module AccountUtils {
  import opened Tables
  import opened Text

  const EmailSubject := "Your Placid Academy account confirmation and credentials"
  const StudentTemplate := "accounts/email/new_student_account_confirmation.html"
  const LecturerTemplate := "accounts/email/new_lecturer_account_confirmation.html"
  const ConfirmPrefix := "http://127.0.0.1:8000/en/accounts/confirm-email/"

  /** `f"{prefix}-{year}-{count}"`. */
  function AccountId(prefix: string, year: string, count: nat): string {
    prefix + "-" + year + "-" + NatToString(count)
  }

  /** Reads the count back out of an id with the given prefix and year. */
  function IdCount(prefix: string, year: string, id: string): Option<nat> {
    var head := prefix + "-" + year + "-";
    if head <= id && |id| > |head| && forall k :: |head| <= k < |id| ==> IsDigit(id[k])
    then Some(ParseDigits(id[|head|..]))
    else None
  }

  /** An id carries its prefix, its year and its count, and the count can be read back. */
  lemma IdCountRoundTrip(prefix: string, year: string, count: nat)
    ensures IdCount(prefix, year, AccountId(prefix, year, count)) == Some(count)
  {
    var head := prefix + "-" + year + "-";
    var id := AccountId(prefix, year, count);
    assert id == head + NatToString(count);
    assert id[|head|..] == NatToString(count);
    ParseNatToString(count);
  }

  /** Two ids of one prefix and year are equal only for equal counts. */
  lemma AccountIdInjective(prefix: string, year: string, m: nat, n: nat)
    requires AccountId(prefix, year, m) == AccountId(prefix, year, n)
    ensures m == n
  {
    IdCountRoundTrip(prefix, year, m);
    IdCountRoundTrip(prefix, year, n);
  }

  /** `User.objects.filter(is_student=True)`. */
  function Students(users: map<UserId, UserRow>): set<UserId> {
    set id | id in users && users[id].isStudent
  }

  function StudentCount(users: map<UserId, UserRow>): nat {
    |Students(users)|
  }

  /** `User.objects.filter(is_lecturer=True)`. */
  function Lecturers(users: map<UserId, UserRow>): set<UserId> {
    set id | id in users && users[id].isLecturer
  }

  function LecturerCount(users: map<UserId, UserRow>): nat {
    |Lecturers(users)|
  }

  /** Inserting a fresh student row raises the student count by exactly one. */
  lemma StudentCountInsert(users: map<UserId, UserRow>, id: UserId, row: UserRow)
    requires id !in users && row.isStudent
    ensures StudentCount(users[id := row]) == StudentCount(users) + 1
  {
    assert Students(users[id := row]) == Students(users) + {id};
  }

  /** `generate_student_id()`. */
  function GenerateStudentId(db: Database, cfg: Config): (id: string)
    reads db
    ensures IdCount(cfg.studentPrefix, cfg.year, id) == Some(StudentCount(db.users))
  {
    IdCountRoundTrip(cfg.studentPrefix, cfg.year, StudentCount(db.users));
    AccountId(cfg.studentPrefix, cfg.year, StudentCount(db.users))
  }

  /** `generate_lecturer_id()`. */
  function GenerateLecturerId(db: Database, cfg: Config): (id: string)
    reads db
    ensures IdCount(cfg.lecturerPrefix, cfg.year, id) == Some(LecturerCount(db.users))
  {
    IdCountRoundTrip(cfg.lecturerPrefix, cfg.year, LecturerCount(db.users));
    AccountId(cfg.lecturerPrefix, cfg.year, LecturerCount(db.users))
  }

  /** `generate_student_credentials()`: the student id and a fresh random password. */
  method GenerateStudentCredentials(db: Database, env: Env) returns (username: string, password: string)
    modifies env`draws
    ensures username == GenerateStudentId(db, env.config)
    ensures password == env.config.random(old(env.draws)) && env.draws == old(env.draws) + 1
  {
    username := GenerateStudentId(db, env.config);
    password := env.Draw();
  }

  /** `generate_lecturer_credentials()`: the lecturer id and a fresh random password. */
  method GenerateLecturerCredentials(db: Database, env: Env) returns (username: string, password: string)
    modifies env`draws
    ensures username == GenerateLecturerId(db, env.config)
    ensures password == env.config.random(old(env.draws)) && env.draws == old(env.draws) + 1
  {
    username := GenerateLecturerId(db, env.config);
    password := env.Draw();
  }

  function ActivationLink(key: string): string {
    ConfirmPrefix + key + "/"
  }

  /** Reads the activation key back out of a confirmation link. */
  function KeyOfLink(link: string): Option<string> {
    if ConfirmPrefix <= link && |link| > |ConfirmPrefix| && link[|link| - 1] == '/'
    then Some(link[|ConfirmPrefix|..|link| - 1])
    else None
  }

  /** The template of a new-account email: the student one for students, the
      lecturer one for everybody else. */
  function TemplateFor(isStudent: bool): (t: string)
    ensures t == StudentTemplate <==> isStudent
    ensures t == LecturerTemplate <==> !isStudent
  {
    if isStudent then StudentTemplate else LecturerTemplate
  }

  /** The email `send_new_account_email` dispatches for a user whose new key is `key`. */
  function AccountEmail(user: UserId, email: string, isStudent: bool, password: string, key: string): (m: Email)
    ensures m.recipients == [email] && m.user == user
    ensures m.password == password
    ensures m.template == StudentTemplate <==> isStudent
    ensures KeyOfLink(m.activationLink) == Some(key)
  {
    var link := ActivationLink(key);
    assert link[|ConfirmPrefix|..|link| - 1] == key;
    Email(EmailSubject, [email], TemplateFor(isStudent), user, password, link)
  }

  /** `send_new_account_email(user, password)`: a fresh activation key, the account
      deactivated and saved, then one email appended to the outbox. The save fires
      `post_save` with `created` false, which the account receiver ignores
      (`AccountSignals.ReceiveIgnores`), so it is modelled as the plain row write. */
  method SendNewAccountEmail(db: Database, env: Env, user: User, password: string)
    modifies user`activationKey, user`isActive, db`users, env`draws, env`outbox
    ensures user.activationKey == env.config.random(old(env.draws)) && !user.isActive
    ensures env.draws == old(env.draws) + 1
    ensures db.users == old(db.users)[user.id := user.Row()]
    ensures env.outbox == old(env.outbox) + [AccountEmail(user.id, user.email, user.isStudent, password, user.activationKey)]
  {
    user.activationKey := env.Draw();
    user.isActive := false;
    db.SaveUser(user);
    var message := AccountEmail(user.id, user.email, user.isStudent, password, user.activationKey);
    env.outbox := env.outbox + [message];
  }
}
