/**
 * Runs of whole registrations, logins and password changes (pkg/auth/password.go). Beside the tables a run keeps
 * what happened: the password each account was last given and every password evaluated for it. Those alone decide
 * what each login answers.
 */
module PasswordHistory {
  import opened Prelude
  import opened Lockout
  import opened PasswordService
  import Phc

  /** Unique emails among all rows, and unique usernames among those that have one. */
  ghost predicate UniqueNames(users: map<UserId, User>) {
    (forall i, j :: i in users && j in users && i != j ==> users[i].email != users[j].email) &&
    (forall i, j :: i in users && j in users && i != j && users[i].username.Some? ==>
      users[i].username != users[j].username)
  }

  datatype Op =
    | Register(r: Registration)
    | AddUser(user: UserId, email: string)
    | Authenticate(identifier: string, row: Option<UserId>, password: string)
    | ChangePassword(user: UserId, newPassword: string, salt: seq<byte>, policyOk: bool)
    | SoftDelete(user: UserId)
    | Delete(user: UserId)
    | Tick(d: nat)

  /** A password as it was set, with the salt drawn for it. */
  datatype Secret = Secret(password: string, salt: seq<byte>)

  /**
   * The tables, the clock, the ids drawn so far, every password evaluation for each of them, and the password
   * each account was last given.
   */
  datatype Machine = Machine(db: Db, now: int, drawn: set<UserId>, history: map<UserId, seq<Attempt>>,
                             secrets: map<UserId, Secret>)

  const START := Machine(Db(map[], map[]), 0, {}, map[], map[])

  /** Five wrong passwords or more since the last right one, the last of them less than the lockout ago. */
  predicate LockedBy(h: seq<Attempt>, now: int, lockout: int) {
    WrongStreak(h) >= 5 && now < h[|h| - 1].time + lockout
  }

  /** The password gives the key of the one that was set. */
  predicate Matches(kdf: Phc.Kdf, password: string, s: Secret) {
    Phc.Key(kdf, password, s.salt) == Phc.Key(kdf, s.password, s.salt)
  }

  /** The account whose password a login evaluates, if it gets that far. */
  function Evaluates(m: Machine, row: Option<UserId>, lockout: int): Option<UserId> {
    if row.Some? && row.value in m.secrets && row.value in m.history && !LockedBy(m.history[row.value], m.now, lockout)
    then row else None
  }

  ghost function Step(kdf: Phc.Kdf, lockout: int, m: Machine, op: Op): Machine {
    match op
    case Register(r) =>
      if r.id in m.drawn then m
      else
        var (db, result) := RegisterUser(m.db, kdf, r);
        m.(db := db, drawn := m.drawn + {r.id}, history := m.history[r.id := []],
           secrets := if result.Ok? then m.secrets[r.id := Secret(r.password, r.salt)] else m.secrets)
    case AddUser(u, email) =>
      // an account made by a login with Google has no password
      var row := User(email, None, UNLOCKED, false);
      if u in m.drawn || !CanInsertUser(m.db, u, row) then m
      else m.(db := m.db.(users := m.db.users[u := row]), drawn := m.drawn + {u}, history := m.history[u := []])
    case Authenticate(identifier, row, password) =>
      if !MayReturn(m.db, identifier, row) then m
      else
        var (db, result) := Login(m.db, kdf, row, password, m.now, lockout);
        var e := Evaluates(m, row, lockout);
        if e.None? then m.(db := db)
        else
          var attempt := Attempt(m.now, Matches(kdf, password, m.secrets[e.value]));
          m.(db := db, history := m.history[e.value := m.history[e.value] + [attempt]])
    case ChangePassword(u, password, salt, policyOk) =>
      m.(db := SetPassword(m.db, u, Phc.HashPassword(kdf, password, salt), policyOk).0,
         secrets := if policyOk && u in m.secrets then m.secrets[u := Secret(password, salt)] else m.secrets)
    case SoftDelete(u) =>
      if u in m.db.users then m.(db := m.db.(users := m.db.users[u := m.db.users[u].(deleted := true)])) else m
    case Delete(u) => m.(db := Db(m.db.users - {u}, m.db.creds - {u}), secrets := m.secrets - {u})
    case Tick(d) => m.(now := m.now + d)
  }

  ghost function Exec(kdf: Phc.Kdf, lockout: int, m: Machine, ops: seq<Op>): Machine
    decreases |ops|
  {
    if ops == [] then m else Exec(kdf, lockout, Step(kdf, lockout, m, ops[0]), ops[1..])
  }

  /** The stored hashes are those of the passwords last set. */
  predicate HashesOf(kdf: Phc.Kdf, creds: map<UserId, string>, secrets: map<UserId, Secret>) {
    creds.Keys == secrets.Keys &&
    forall u | u in secrets :: creds[u] == Phc.HashPassword(kdf, secrets[u].password, secrets[u].salt)
  }

  type History = map<UserId, seq<Attempt>>

  /** The rows of the users table, and what they say. */
  ghost predicate RowsOk(lockout: int, users: map<UserId, User>, drawn: set<UserId>, history: History) {
    users.Keys <= drawn && drawn == history.Keys && UniqueNames(users) &&
    forall u :: u in users ==> Summarizes(users[u].lock, history[u], lockout)
  }

  ghost predicate Inv(kdf: Phc.Kdf, lockout: int, m: Machine) {
    RowsOk(lockout, m.db.users, m.drawn, m.history) && m.db.creds.Keys <= m.db.users.Keys &&
    HashesOf(kdf, m.db.creds, m.secrets)
  }

  lemma SetLockKeeps(lockout: int, db: Db, drawn: set<UserId>, history: History, u: UserId, l: Lock, h: seq<Attempt>)
    requires RowsOk(lockout, db.users, drawn, history) && u in db.users && Summarizes(l, h, lockout)
    ensures RowsOk(lockout, SetLock(db, u, l).users, drawn, history[u := h])
  {
  }

  lemma NewSecret(kdf: Phc.Kdf, creds: map<UserId, string>, secrets: map<UserId, Secret>, u: UserId, s: Secret)
    requires HashesOf(kdf, creds, secrets)
    ensures HashesOf(kdf, creds[u := Phc.HashPassword(kdf, s.password, s.salt)], secrets[u := s])
  {
  }

  /** A new id, with a row without failures if the constraints allow it. */
  lemma NewRow(lockout: int, db: Db, drawn: set<UserId>, history: History, u: UserId, row: User)
    requires RowsOk(lockout, db.users, drawn, history) && u !in drawn && row.lock == UNLOCKED
    ensures RowsOk(lockout, db.users, drawn + {u}, history[u := []])
    ensures CanInsertUser(db, u, row) ==> RowsOk(lockout, db.users[u := row], drawn + {u}, history[u := []])
  {
    assert Summarizes(UNLOCKED, [], lockout);
  }

  /** Changes that touch no name, no counter and no deadline. */
  lemma FewerRows(lockout: int, users: map<UserId, User>, users': map<UserId, User>, drawn: set<UserId>,
                  history: History)
    requires RowsOk(lockout, users, drawn, history) && users'.Keys <= users.Keys
    requires forall u | u in users' :: users'[u].(deleted := false) == users[u].(deleted := false)
    ensures RowsOk(lockout, users', drawn, history)
  {
  }

  /** What a login answers and does, told from the passwords set and evaluated. */
  lemma LoginAnswers(kdf: Phc.Kdf, lockout: int, m: Machine, row: Option<UserId>, password: string)
    requires Phc.KeepsKeyLength(kdf) && Inv(kdf, lockout, m) && (row.Some? ==> row.value in m.db.users)
    ensures var answer := Login(m.db, kdf, row, password, m.now, lockout).1;
      match row
      case None => answer == Err(InvalidCredentials)
      case Some(u) =>
        answer ==
          if LockedBy(m.history[u], m.now, lockout) then Err(AccountLocked)
          else if u in m.secrets && Matches(kdf, password, m.secrets[u]) then Ok(u)
          else Err(InvalidCredentials)
    ensures Login(m.db, kdf, row, password, m.now, lockout).0 ==
      if Evaluates(m, row, lockout).None? then m.db
      else if Matches(kdf, password, m.secrets[row.value]) then SetLock(m.db, row.value, UNLOCKED)
      else SetLock(m.db, row.value, Increment(m.db.users[row.value].lock, m.now, lockout))
  {
    if row.Some? && row.value in m.secrets {
      var s := m.secrets[row.value];
      Phc.VerifyIffSameKey(kdf, s.password, password, s.salt);
    }
  }

  /** A password has been evaluated. */
  lemma EvaluatedKeeps(kdf: Phc.Kdf, lockout: int, m: Machine, u: UserId, ok: bool, db: Db)
    requires Inv(kdf, lockout, m) && u in m.db.users
    requires db == SetLock(m.db, u, if ok then UNLOCKED else Increment(m.db.users[u].lock, m.now, lockout))
    ensures Inv(kdf, lockout, m.(db := db, history := m.history[u := m.history[u] + [Attempt(m.now, ok)]]))
  {
    var h, l := m.history[u], m.db.users[u].lock;
    var h' := h + [Attempt(m.now, ok)];
    if ok { assert h'[|h'| - 1].ok; }
    else { WrongExtends(l, h, m.now, lockout); }
    SetLockKeeps(lockout, m.db, m.drawn, m.history, u, db.users[u].lock, h');
  }

  lemma AuthenticateKeeps(kdf: Phc.Kdf, lockout: int, m: Machine, identifier: string, row: Option<UserId>,
                          password: string)
    requires Phc.KeepsKeyLength(kdf) && Inv(kdf, lockout, m) && MayReturn(m.db, identifier, row)
    ensures Inv(kdf, lockout, Step(kdf, lockout, m, Authenticate(identifier, row, password)))
  {
    LoginAnswers(kdf, lockout, m, row, password);
    if Evaluates(m, row, lockout).Some? {
      var ok := Matches(kdf, password, m.secrets[row.value]);
      EvaluatedKeeps(kdf, lockout, m, row.value, ok, Login(m.db, kdf, row, password, m.now, lockout).0);
    }
  }

  lemma RegisterKeeps(kdf: Phc.Kdf, lockout: int, m: Machine, r: Registration)
    requires Inv(kdf, lockout, m)
    ensures Inv(kdf, lockout, Step(kdf, lockout, m, Register(r)))
  {
    if r.id !in m.drawn {
      var (db, result) := RegisterUser(m.db, kdf, r);
      if result.Ok? { RegisteredKeeps(kdf, lockout, m, r, db); }
      else { RefusedKeeps(kdf, lockout, m, r.id, NewUser(r)); }
    }
  }

  lemma RefusedKeeps(kdf: Phc.Kdf, lockout: int, m: Machine, u: UserId, row: User)
    requires Inv(kdf, lockout, m) && u !in m.drawn && row.lock == UNLOCKED
    ensures Inv(kdf, lockout, m.(drawn := m.drawn + {u}, history := m.history[u := []]))
  {
    NewRow(lockout, m.db, m.drawn, m.history, u, row);
  }

  lemma RegisteredKeeps(kdf: Phc.Kdf, lockout: int, m: Machine, r: Registration, db: Db)
    requires Inv(kdf, lockout, m) && r.id !in m.drawn && CanInsertUser(m.db, r.id, NewUser(r))
    requires db == Db(m.db.users[r.id := NewUser(r)], m.db.creds[r.id := Phc.HashPassword(kdf, r.password, r.salt)])
    ensures Inv(kdf, lockout, m.(db := db, drawn := m.drawn + {r.id}, history := m.history[r.id := []],
      secrets := m.secrets[r.id := Secret(r.password, r.salt)]))
  {
    NewRow(lockout, m.db, m.drawn, m.history, r.id, NewUser(r));
    NewSecret(kdf, m.db.creds, m.secrets, r.id, Secret(r.password, r.salt));
  }

  lemma ChangeKeeps(kdf: Phc.Kdf, lockout: int, m: Machine, op: Op)
    requires Inv(kdf, lockout, m) && op.ChangePassword?
    ensures Inv(kdf, lockout, Step(kdf, lockout, m, op))
  {
    NewSecret(kdf, m.db.creds, m.secrets, op.user, Secret(op.newPassword, op.salt));
  }

  lemma SoftDeleteKeeps(kdf: Phc.Kdf, lockout: int, m: Machine, u: UserId)
    requires Inv(kdf, lockout, m) && u in m.db.users
    ensures Inv(kdf, lockout, Step(kdf, lockout, m, SoftDelete(u)))
  {
    FewerRows(lockout, m.db.users, m.db.users[u := m.db.users[u].(deleted := true)], m.drawn, m.history);
  }

  lemma DeleteKeeps(kdf: Phc.Kdf, lockout: int, m: Machine, u: UserId)
    requires Inv(kdf, lockout, m)
    ensures Inv(kdf, lockout, Step(kdf, lockout, m, Delete(u)))
  {
    FewerRows(lockout, m.db.users, m.db.users - {u}, m.drawn, m.history);
  }

  lemma StepKeeps(kdf: Phc.Kdf, lockout: int, m: Machine, op: Op)
    requires Phc.KeepsKeyLength(kdf) && Inv(kdf, lockout, m)
    ensures Inv(kdf, lockout, Step(kdf, lockout, m, op))
  {
    match op
    case Register(r) => RegisterKeeps(kdf, lockout, m, r);
    case AddUser(u, email) =>
      if u !in m.drawn { NewRow(lockout, m.db, m.drawn, m.history, u, User(email, None, UNLOCKED, false)); }
    case Authenticate(identifier, row, password) =>
      if MayReturn(m.db, identifier, row) { AuthenticateKeeps(kdf, lockout, m, identifier, row, password); }
    case ChangePassword(_, _, _, _) => ChangeKeeps(kdf, lockout, m, op);
    case SoftDelete(u) => if u in m.db.users { SoftDeleteKeeps(kdf, lockout, m, u); }
    case Delete(u) => DeleteKeeps(kdf, lockout, m, u);
    case Tick(_) =>
  }

  lemma {:induction false} ExecKeeps(kdf: Phc.Kdf, lockout: int, m: Machine, ops: seq<Op>)
    requires Phc.KeepsKeyLength(kdf) && Inv(kdf, lockout, m)
    ensures Inv(kdf, lockout, Exec(kdf, lockout, m, ops))
    decreases |ops|
  {
    if ops != [] {
      StepKeeps(kdf, lockout, m, ops[0]);
      ExecKeeps(kdf, lockout, Step(kdf, lockout, m, ops[0]), ops[1..]);
    }
  }

  // ---- the results

  /**
   * After every run of requests, each account's counter is the number of wrong passwords evaluated since
   * its last successful login, it has a deadline exactly from the fifth on, and then that of the last failure.
   */
  lemma RowSummarizesHistory(kdf: Phc.Kdf, lockout: int, ops: seq<Op>, u: UserId)
    requires Phc.KeepsKeyLength(kdf) && u in Exec(kdf, lockout, START, ops).db.users
    ensures var m := Exec(kdf, lockout, START, ops);
      u in m.history && Summarizes(m.db.users[u].lock, m.history[u], lockout)
  {
    ExecKeeps(kdf, lockout, START, ops);
  }

  /**
   * What a login answers after every run, whichever row its lookup returns. With no row it is refused. With one, it
   * is told that the account is locked exactly when five wrong passwords or more have been evaluated since the last
   * right one and now is before the last of them plus the lockout; else it is signed in as that account exactly
   * when it has a password, and the given one derives the key of the one last set.
   */
  lemma LoginExactly(kdf: Phc.Kdf, lockout: int, ops: seq<Op>, identifier: string, row: Option<UserId>,
                     password: string)
    requires Phc.KeepsKeyLength(kdf) && MayReturn(Exec(kdf, lockout, START, ops).db, identifier, row)
    ensures var m := Exec(kdf, lockout, START, ops);
      var answer := Login(m.db, kdf, row, password, m.now, lockout).1;
      match row
      case None => answer == Err(InvalidCredentials)
      case Some(u) =>
        u in m.history &&
        answer ==
          if LockedBy(m.history[u], m.now, lockout) then Err(AccountLocked)
          else if u in m.secrets && Matches(kdf, password, m.secrets[u]) then Ok(u)
          else Err(InvalidCredentials)
  {
    ExecKeeps(kdf, lockout, START, ops);
    LoginAnswers(kdf, lockout, Exec(kdf, lockout, START, ops), row, password);
  }

  /**
   * In every reachable database a registration succeeds exactly when its input is fine, its id is new, and no row,
   * deleted or not, has the email or the username. It says so first of a live account that has the email, then of
   * one that has the username; a deleted one shows only as a storage error. A failed one leaves no row.
   */
  lemma RegisterExactly(kdf: Phc.Kdf, lockout: int, ops: seq<Op>, r: Registration)
    requires Phc.KeepsKeyLength(kdf)
    ensures var db := Exec(kdf, lockout, START, ops).db; var (db', result) := RegisterUser(db, kdf, r);
      var users := db.users;
      var sameEmail := exists v | v in users :: users[v].email == r.email && !users[v].deleted;
      var sameName := r.username.Some? && r.username.value != "" &&
        exists v | v in users :: users[v].username == r.username && !users[v].deleted;
      var free := r.id !in users && forall v | v in users ::
        users[v].email != r.email && (r.username.Some? ==> users[v].username != r.username);
      (result == Ok(r.id) <==> r.inputOk && free) &&
      (result == Err(BadInput) <==> !r.inputOk) &&
      (result == Err(UserAlreadyExists) <==> r.inputOk && sameEmail) &&
      (result == Err(UsernameAlreadyExists) <==> r.inputOk && !sameEmail && sameName) &&
      (result == Err(Storage) <==> r.inputOk && !sameEmail && !sameName && !free) &&
      (result.Err? ==> db' == db) &&
      (result.Ok? ==>
        db'.users == db.users[r.id := User(r.email, r.username, Lock(0, None), false)] &&
        db'.creds.Keys == db.creds.Keys + {r.id})
  {
    ExecKeeps(kdf, lockout, START, ops);
  }

  /** A change of password is refused for its policy, then for want of a password to change. */
  lemma ChangeExactly(kdf: Phc.Kdf, lockout: int, ops: seq<Op>, u: UserId, hash: string, policyOk: bool)
    requires Phc.KeepsKeyLength(kdf)
    ensures var m := Exec(kdf, lockout, START, ops); var (db', result) := SetPassword(m.db, u, hash, policyOk);
      (result == Err(BadInput) <==> !policyOk) && (result == Err(UserNotFound) <==> policyOk && u !in m.secrets) &&
      (result == Ok(()) <==> policyOk && u in m.secrets) && (result.Err? ==> db' == m.db)
  {
    ExecKeeps(kdf, lockout, START, ops);
  }
}
