/**
 * Registration, password login and lockout on the users and user_password tables (pkg/auth/password.go,
 * pkg/repository/users_repo.go, pkg/repository/credentials_repo.go, pkg/repository/db.go). Emails and
 * usernames stand for their case-folded text, as CITEXT columns compare them.
 */
module PasswordService {
  import opened Prelude
  import opened Lockout
  import Phc

  datatype User = User(email: string, username: Option<string>, lock: Lock, deleted: bool)

  datatype Db = Db(users: map<UserId, User>, creds: map<UserId, string>)

  datatype AuthError =
    | BadInput | UserAlreadyExists | UsernameAlreadyExists | InvalidCredentials | AccountLocked | UserNotFound | Storage

  /** What Register is given, with its validated email, a new id, a new salt and the verdict of the input checks. */
  datatype Registration = Registration(email: string, username: Option<string>, password: string,
                                       id: UserId, salt: seq<byte>, inputOk: bool)

  // ---- queries

  predicate Answers(u: User, identifier: string) {
    !u.deleted && (u.email == identifier || u.username == Some(identifier))
  }

  /** Rows GetByEmailOrUsername may return: any one that matches, or none when nothing does. */
  ghost predicate MayReturn(db: Db, identifier: string, row: Option<UserId>) {
    if row.Some? then row.value in db.users && Answers(db.users[row.value], identifier)
    else forall id :: id in db.users ==> !Answers(db.users[id], identifier)
  }

  predicate EmailExists(db: Db, email: string) {
    exists id :: id in db.users && !db.users[id].deleted && db.users[id].email == email
  }

  predicate UsernameExists(db: Db, username: string) {
    exists id :: id in db.users && !db.users[id].deleted && db.users[id].username == Some(username)
  }

  /** The primary key and the unique indexes on email and username, which also cover soft-deleted rows. */
  predicate CanInsertUser(db: Db, id: UserId, u: User) {
    id !in db.users &&
    (forall k :: k in db.users ==> db.users[k].email != u.email) &&
    (u.username.Some? ==> forall k :: k in db.users ==> db.users[k].username != u.username)
  }

  predicate CanInsertCredential(db: Db, id: UserId) { id in db.users && id !in db.creds }

  // ---- the operations as functions on table values

  function NewUser(r: Registration): User { User(r.email, r.username, UNLOCKED, false) }

  function RegisterUser(db: Db, kdf: Phc.Kdf, r: Registration): (Db, Result<UserId, AuthError>) {
    if !r.inputOk then (db, Err(BadInput))
    else if EmailExists(db, r.email) then (db, Err(UserAlreadyExists))
    else if r.username.Some? && r.username.value != "" && UsernameExists(db, r.username.value)
    then (db, Err(UsernameAlreadyExists))
    else if CanInsertUser(db, r.id, NewUser(r)) && r.id !in db.creds
    then (Db(db.users[r.id := NewUser(r)], db.creds[r.id := Phc.HashPassword(kdf, r.password, r.salt)]), Ok(r.id))
    else (db, Err(Storage))
  }

  function SetLock(db: Db, id: UserId, l: Lock): Db
    requires id in db.users
  {
    db.(users := db.users[id := db.users[id].(lock := l)])
  }

  /** Authenticate, given the row its lookup returned. */
  function Login(db: Db, kdf: Phc.Kdf, row: Option<UserId>, password: string, now: int, lockout: int)
    : (Db, Result<UserId, AuthError>)
    requires row.Some? ==> row.value in db.users
  {
    if row.None? then (db, Err(InvalidCredentials))
    else
      var id := row.value;
      var l := db.users[id].lock;
      if IsLocked(l, now) then (db, Err(AccountLocked))
      else if id !in db.creds then (db, Err(InvalidCredentials))
      else if !Phc.VerifyPassword(kdf, password, db.creds[id])
      then (SetLock(db, id, Increment(l, now, lockout)), Err(InvalidCredentials))
      else (SetLock(db, id, UNLOCKED), Ok(id))
  }

  /** ChangePassword, given the hash of the new password. */
  function SetPassword(db: Db, id: UserId, hash: string, policyOk: bool): (Db, Result<(), AuthError>) {
    if !policyOk then (db, Err(BadInput))
    else if id !in db.creds then (db, Err(UserNotFound))
    else (db.(creds := db.creds[id := hash]), Ok(()))
  }

  /** One more failure, a deadline from the fifth on, and nothing else in the row. */
  predicate Counted(before: User, after: User, now: int, lockout: int) {
    after.lock.failed == before.lock.failed + 1 &&
    (after.lock.failed >= MAX_FAILED ==> after.lock.lockedUntil == Some(now + lockout)) &&
    (after.lock.failed < MAX_FAILED ==> after.lock.lockedUntil == before.lock.lockedUntil) &&
    after.(lock := before.lock) == before
  }

  // ---- the service

  class Service {
    const kdf: Phc.Kdf
    const lockout: int
    var users: map<UserId, User>
    var creds: map<UserId, string>

    constructor (kdf: Phc.Kdf, lockout: int)
      ensures this.kdf == kdf && this.lockout == lockout && State() == Db(map[], map[])
    {
      this.kdf, this.lockout := kdf, lockout;
      users, creds := map[], map[];
    }

    ghost function State(): Db
      reads this
    {
      Db(users, creds)
    }

    method InsertUser(id: UserId, u: User) returns (ok: bool)
      modifies this`users
      ensures ok <==> CanInsertUser(old(State()), id, u)
      ensures users == if ok then old(users)[id := u] else old(users)
    {
      ok := CanInsertUser(Db(users, creds), id, u);
      if ok {
        users := users[id := u];
      }
    }

    method InsertCredential(id: UserId, hash: string) returns (ok: bool)
      modifies this`creds
      ensures ok <==> CanInsertCredential(old(State()), id)
      ensures creds == if ok then old(creds)[id := hash] else old(creds)
    {
      ok := id in users && id !in creds;
      if ok {
        creds := creds[id := hash];
      }
    }

    method IncrementFailedLoginAttempts(id: UserId, now: int)
      modifies this`users
      ensures users.Keys == old(users).Keys && forall k | k in users && k != id :: users[k] == old(users)[k]
      ensures id in users && old(users)[id].deleted ==> users[id] == old(users)[id]
      ensures id in users && !old(users)[id].deleted ==> Counted(old(users)[id], users[id], now, lockout)
    {
      if id in users && !users[id].deleted {
        users := users[id := users[id].(lock := Increment(users[id].lock, now, lockout))];
      }
    }

    method ResetFailedLoginAttempts(id: UserId)
      modifies this`users
      ensures users.Keys == old(users).Keys && forall k | k in users && k != id :: users[k] == old(users)[k]
      ensures id in users ==> users[id].(lock := old(users)[id].lock) == old(users)[id]
      ensures id in users && old(users)[id].deleted ==> users[id] == old(users)[id]
      ensures id in users && !old(users)[id].deleted ==> users[id].lock == Lock(0, None)
    {
      if id in users && !users[id].deleted {
        users := users[id := users[id].(lock := UNLOCKED)];
      }
    }

    method Register(r: Registration) returns (result: Result<UserId, AuthError>)
      modifies this
      ensures (State(), result) == RegisterUser(old(State()), kdf, r)
    {
      if !r.inputOk {
        return Err(BadInput);
      }
      var db := Db(users, creds);
      if EmailExists(db, r.email) {
        return Err(UserAlreadyExists);
      }
      if r.username.Some? && r.username.value != "" && UsernameExists(db, r.username.value) {
        return Err(UsernameAlreadyExists);
      }
      var hash := Phc.HashPassword(kdf, r.password, r.salt);
      var beginUsers, beginCreds := users, creds;
      var ok := InsertUser(r.id, NewUser(r));
      if ok {
        ok := InsertCredential(r.id, hash);
      }
      if !ok {
        users, creds := beginUsers, beginCreds;
        return Err(Storage);
      }
      return Ok(r.id);
    }

    method Authenticate(identifier: string, row: Option<UserId>, password: string, now: int)
      returns (result: Result<UserId, AuthError>)
      requires MayReturn(State(), identifier, row)
      modifies this`users
      ensures (State(), result) == Login(old(State()), kdf, row, password, now, lockout)
    {
      if row.None? {
        return Err(InvalidCredentials);
      }
      var u := users[row.value];
      if u.lock.lockedUntil.Some? && now < u.lock.lockedUntil.value {
        return Err(AccountLocked);
      }
      if row.value !in creds {
        return Err(InvalidCredentials);
      }
      result := Conclude(row.value, Phc.VerifyPassword(kdf, password, creds[row.value]), now);
    }

    /** The end of Authenticate, once the password of a live account has been found right or wrong. */
    method Conclude(id: UserId, right: bool, now: int) returns (result: Result<UserId, AuthError>)
      requires id in users && !users[id].deleted
      modifies this`users
      ensures State() ==
        SetLock(old(State()), id, if right then UNLOCKED else Increment(old(users)[id].lock, now, lockout))
      ensures result == if right then Ok(id) else Err(InvalidCredentials)
    {
      if !right {
        IncrementFailedLoginAttempts(id, now);
        assert users[id] == old(users)[id].(lock := Increment(old(users)[id].lock, now, lockout));
        return Err(InvalidCredentials);
      }
      if users[id].lock.failed > 0 || users[id].lock.lockedUntil.Some? {
        ResetFailedLoginAttempts(id);
      }
      assert users[id] == old(users)[id].(lock := UNLOCKED);
      return Ok(id);
    }

    method ChangePassword(id: UserId, password: string, salt: seq<byte>, policyOk: bool)
      returns (result: Result<(), AuthError>)
      modifies this`creds
      ensures (State(), result) == SetPassword(old(State()), id, Phc.HashPassword(kdf, password, salt), policyOk)
    {
      if !policyOk {
        return Err(BadInput);
      }
      if id !in creds {
        return Err(UserNotFound);
      }
      creds := creds[id := Phc.HashPassword(kdf, password, salt)];
      return Ok(());
    }
  }

  // ---- register, then log in

  /** No live account other than id answers to the identifier. */
  ghost predicate OnlyAnswer(db: Db, id: UserId, identifier: string) {
    forall k :: k in db.users && k != id ==> !Answers(db.users[k], identifier)
  }

  /**
   * After a successful registration the same password logs in under the email and, if given, the username,
   * whichever matching row the lookup returns, provided no other account answers to that identifier; and a
   * password is accepted exactly when it derives the same key.
   */
  lemma RegisterThenLogin(db: Db, kdf: Phc.Kdf, r: Registration, identifier: string, row: Option<UserId>,
                          password: string, now: int, lockout: int)
    requires Phc.KeepsKeyLength(kdf)
    requires RegisterUser(db, kdf, r).1.Ok?
    requires identifier == r.email || r.username == Some(identifier)
    requires OnlyAnswer(db, r.id, identifier)
    requires MayReturn(RegisterUser(db, kdf, r).0, identifier, row)
    ensures row == Some(r.id)
    ensures Login(RegisterUser(db, kdf, r).0, kdf, row, password, now, lockout).1 ==
      if Phc.Key(kdf, password, r.salt) == Phc.Key(kdf, r.password, r.salt) then Ok(r.id) else Err(InvalidCredentials)
  {
    var db' := RegisterUser(db, kdf, r).0;
    assert Answers(db'.users[r.id], identifier);
    Phc.VerifyIffSameKey(kdf, r.password, password, r.salt);
  }
}
