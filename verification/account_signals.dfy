/** The post-save receiver on users that issues credentials once per created
    student or lecturer account (accounts/signals.py). */
module AccountSignals {
  import opened Tables
  import opened AccountUtils

  /** The state the receiver can touch: the user table, the random draws taken so
      far and the mail outbox. */
  datatype AccountWorld = AccountWorld(users: map<UserId, UserRow>, draws: nat, outbox: seq<Email>)

  /** True when the receiver issues credentials for this call. */
  predicate Provisions(row: UserRow, marker: bool, created: bool) {
    created && !marker && (row.isStudent || row.isLecturer)
  }

  /** The username a provisioned account receives: the student id when the user is
      a student, the lecturer id otherwise. */
  function ProvisionedUsername(cfg: Config, users: map<UserId, UserRow>, row: UserRow): string {
    if row.isStudent then AccountId(cfg.studentPrefix, cfg.year, StudentCount(users))
    else AccountId(cfg.lecturerPrefix, cfg.year, LecturerCount(users))
  }

  /** What `post_save_account_receiver` does to the instance (row `row`, marker
      `marker`) saved under `id`, and to the world. */
  function Receive(cfg: Config, w: AccountWorld, id: UserId, row: UserRow, marker: bool, created: bool): (UserRow, AccountWorld)
  {
    if !Provisions(row, marker, created) then (row, w)
    else
      var password := cfg.random(w.draws);
      var key := cfg.random(w.draws + 1);
      var row' := row.(username := ProvisionedUsername(cfg, w.users, row), password := password,
                       isActive := false, activationKey := key);
      (row', AccountWorld(w.users[id := row'], w.draws + 2,
                          w.outbox + [AccountEmail(id, row.email, row.isStudent, password, key)]))
  }

  /** A save that is not a creation, a save made while the marker is present, and the
      creation of a user who is neither student nor lecturer change nothing and send
      nothing. */
  lemma ReceiveIgnores(cfg: Config, w: AccountWorld, id: UserId, row: UserRow, marker: bool, created: bool)
    requires !created || marker || (!row.isStudent && !row.isLecturer)
    ensures Receive(cfg, w, id, row, marker, created) == (row, w)
  {
  }

  /** A provisioned account: student precedence for the id, the password that is
      emailed is the one stored, the account is inactive with the key that the link
      carries, the row is written back, and exactly one email goes out to the user. */
  lemma ReceiveProvisions(cfg: Config, w: AccountWorld, id: UserId, row: UserRow, marker: bool, created: bool)
    requires Provisions(row, marker, created)
    ensures var (row', w') := Receive(cfg, w, id, row, marker, created);
      && (row.isStudent ==> IdCount(cfg.studentPrefix, cfg.year, row'.username) == Some(StudentCount(w.users)))
      && (!row.isStudent ==> IdCount(cfg.lecturerPrefix, cfg.year, row'.username) == Some(LecturerCount(w.users)))
      && row' == row.(username := row'.username, password := row'.password,
                      isActive := false, activationKey := row'.activationKey)
      && w'.users == w.users[id := row'] && id in w'.users
      && |w'.outbox| == |w.outbox| + 1 && w'.outbox[..|w.outbox|] == w.outbox
      && w'.outbox[|w.outbox|].recipients == [row.email]
      && w'.outbox[|w.outbox|].password == row'.password
      && KeyOfLink(w'.outbox[|w.outbox|].activationLink) == Some(row'.activationKey)
      && (w'.outbox[|w.outbox|].template == StudentTemplate <==> row.isStudent)
  {
    IdCountRoundTrip(cfg.studentPrefix, cfg.year, StudentCount(w.users));
    IdCountRoundTrip(cfg.lecturerPrefix, cfg.year, LecturerCount(w.users));
  }

  /** The nested save is harmless: whatever the receiver writes, running it again for
      that save (which is not a creation) changes nothing; and even a save reported
      as a creation is ignored while the marker is present. */
  lemma NestedSaveIsIgnored(cfg: Config, w: AccountWorld, id: UserId, row: UserRow, created: bool)
    ensures var (row', w') := Receive(cfg, w, id, row, false, created);
      && Receive(cfg, w', id, row', false, false) == (row', w')
      && Receive(cfg, w', id, row', true, true) == (row', w')
  {
  }

  /** Exactly one email per call that provisions, none otherwise. */
  lemma ReceiveEmailsOnce(cfg: Config, w: AccountWorld, id: UserId, row: UserRow, marker: bool, created: bool)
    ensures |Receive(cfg, w, id, row, marker, created).1.outbox|
            == |w.outbox| + (if Provisions(row, marker, created) then 1 else 0)
  {
  }

  /** `post_save_account_receiver(sender, instance, created)`. */
  method PostSaveAccountReceiver(db: Database, env: Env, instance: User, created: bool)
    requires instance.id in db.users
    modifies instance, db`users, env`draws, env`outbox
    decreases if created then 2 else 0
    ensures instance.id == old(instance.id) && instance.skipSignal == old(instance.skipSignal)
    ensures (instance.Row(), AccountWorld(db.users, env.draws, env.outbox))
            == Receive(env.config, old(AccountWorld(db.users, env.draws, env.outbox)), instance.id,
                       old(instance.Row()), old(instance.skipSignal), created)
  {
    ghost var w0 := AccountWorld(db.users, env.draws, env.outbox);
    ghost var row0 := instance.Row();
    if !created || instance.skipSignal {
      ReceiveIgnores(env.config, w0, instance.id, row0, instance.skipSignal, created);
      return;
    }
    var username: string, password: string;
    if instance.isStudent {
      username, password := GenerateStudentCredentials(db, env);
    } else if instance.isLecturer {
      username, password := GenerateLecturerCredentials(db, env);
    } else {
      ReceiveIgnores(env.config, w0, instance.id, row0, false, true);
      return;
    }
    assert username == ProvisionedUsername(env.config, w0.users, row0);
    ghost var row1 := row0.(username := username, password := password, isActive := false,
                            activationKey := env.config.random(w0.draws + 1));
    IssueCredentials(db, env, instance, username, password);
    assert instance.Row() == row1;
  }

  /** The common tail of both branches: set the username and the password, save those
      two fields with the marker present (that save fires the receiver again with
      `created` false), remove the marker and send the account email. */
  method IssueCredentials(db: Database, env: Env, instance: User, username: string, password: string)
    requires instance.id in db.users && !instance.skipSignal
    modifies instance, db`users, env`draws, env`outbox
    decreases 1
    ensures instance.id == old(instance.id) && !instance.skipSignal
    ensures instance.Row() == old(instance.Row()).(username := username, password := password, isActive := false,
                                                   activationKey := env.config.random(old(env.draws)))
    ensures db.users == old(db.users)[instance.id := instance.Row()]
    ensures env.draws == old(env.draws) + 1
    ensures env.outbox == old(env.outbox) + [AccountEmail(instance.id, instance.email, instance.isStudent, password, instance.activationKey)]
  {
    instance.username := username;
    instance.password := password;
    instance.skipSignal := true;
    db.SaveCredentials(instance);
    PostSaveAccountReceiver(db, env, instance, false);
    instance.skipSignal := false;
    SendNewAccountEmail(db, env, instance, password);
  }
}
