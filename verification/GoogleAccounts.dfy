/**
 * Finding, linking or creating the account of a Google subject (pkg/auth/google.go) on the users and
 * user_identities tables (pkg/repository/users_repo.go, pkg/repository/identities_repo.go). Identities are keyed
 * by their unique subject; emails stand for their case-folded text, as CITEXT columns compare them.
 */
module GoogleAccounts {
  import opened Prelude

  type Subject = string
  type Email = string

  datatype Claims = Claims(subject: Subject, email: Email, emailVerified: bool)

  datatype User = User(email: Email, emailVerified: bool)

  datatype Db = Db(users: Users, identities: map<Subject, UserId>)

  datatype GoogleError = Storage

  // ---- statements

  type Users = map<UserId, User>

  predicate HasEmail(users: Users, u: UserId, email: Email) { u in users && users[u].email == email }

  ghost predicate UniqueEmails(users: Users) {
    forall u, v, e | HasEmail(users, u, e) && HasEmail(users, v, e) :: u == v
  }

  /** GetByEmail */
  ghost function FindUser(users: Users, email: Email): (row: Option<UserId>)
    ensures row.Some? ==> HasEmail(users, row.value, email)
    ensures row.None? ==> forall u :: !HasEmail(users, u, email)
  {
    if exists u :: HasEmail(users, u, email) then
      var u :| HasEmail(users, u, email);
      Some(u)
    else None
  }

  /** The primary key and the unique index on email. */
  predicate CanInsertUser(db: Db, u: UserId, email: Email) {
    u !in db.users && forall v | v in db.users :: db.users[v].email != email
  }

  /** UNIQUE(provider, provider_subject) and the foreign key. */
  predicate CanInsertIdentity(db: Db, s: Subject, u: UserId) { s !in db.identities && u in db.users }

  // ---- Authenticate as a function on table values

  function Link(db: Db, s: Subject, u: UserId): (Db, Result<UserId, GoogleError>) {
    if CanInsertIdentity(db, s, u) then (db.(identities := db.identities[s := u]), Ok(u)) else (db, Err(Storage))
  }

  /** One transaction: the user row and its identity, or neither. */
  function Create(db: Db, c: Claims, u: UserId): (Db, Result<UserId, GoogleError>) {
    if CanInsertUser(db, u, c.email) && c.subject !in db.identities
    then (Db(db.users[u := User(c.email, c.emailVerified)], db.identities[c.subject := u]), Ok(u))
    else (db, Err(Storage))
  }

  ghost function Authenticate(db: Db, c: Claims, drawn: UserId): (Db, Result<UserId, GoogleError>) {
    if c.subject in db.identities then (db, Ok(db.identities[c.subject]))
    else
      var row := FindUser(db.users, c.email);
      if row.Some? && c.emailVerified then Link(db, c.subject, row.value) else Create(db, c, drawn)
  }

  // ---- the service

  class Service {
    var users: Users
    var identities: map<Subject, UserId>

    ghost predicate Valid()
      reads this
    {
      UniqueEmails(users) && forall s | s in identities :: identities[s] in users
    }

    ghost function State(): Db
      reads this
    {
      Db(users, identities)
    }

    constructor ()
      ensures Valid() && State() == Db(map[], map[])
    {
      users, identities := map[], map[];
    }

    method GetByEmail(email: Email) returns (row: Option<UserId>)
      requires Valid()
      ensures row == FindUser(users, email)
    {
      if u :| u in users && users[u].email == email {
        assert HasEmail(users, u, email);
        return Some(u);
      }
      assert forall u :: !HasEmail(users, u, email);
      return None;
    }

    method InsertUser(u: UserId, row: User) returns (ok: bool)
      modifies this`users
      ensures ok <==> CanInsertUser(old(State()), u, row.email)
      ensures users == if ok then old(users)[u := row] else old(users)
    {
      ok := u !in users && forall v | v in users :: users[v].email != row.email;
      if ok {
        users := users[u := row];
      }
    }

    method InsertIdentity(s: Subject, u: UserId) returns (ok: bool)
      modifies this`identities
      ensures ok <==> CanInsertIdentity(old(State()), s, u)
      ensures identities == if ok then old(identities)[s := u] else old(identities)
    {
      ok := s !in identities && u in users;
      if ok {
        identities := identities[s := u];
      }
    }

    method LogIn(c: Claims, drawn: UserId) returns (r: Result<UserId, GoogleError>)
      requires Valid()
      modifies this
      ensures Valid()
      ensures (State(), r) == Authenticate(old(State()), c, drawn)
    {
      if c.subject in identities {
        return Ok(identities[c.subject]);
      }
      var row := GetByEmail(c.email);
      if row.Some? && c.emailVerified {
        var linked := InsertIdentity(c.subject, row.value);
        if !linked {
          return Err(Storage);
        }
        return Ok(row.value);
      }
      var beginUsers, beginIdentities := users, identities;
      var ok := InsertUser(drawn, User(c.email, c.emailVerified));
      if ok {
        ok := InsertIdentity(c.subject, drawn);
      }
      if !ok {
        users, identities := beginUsers, beginIdentities;
        return Err(Storage);
      }
      CreateKeepsUnique(old(State()), c, drawn);
      return Ok(drawn);
    }
  }

  lemma InsertKeepsUnique(db: Db, u: UserId, row: User)
    requires UniqueEmails(db.users) && CanInsertUser(db, u, row.email)
    ensures UniqueEmails(db.users[u := row])
  {
    var users := db.users[u := row];
    forall v, w, e | HasEmail(users, v, e) && HasEmail(users, w, e) ensures v == w {
      assert v != u ==> HasEmail(db.users, v, e);
      assert w != u ==> HasEmail(db.users, w, e);
    }
  }

  /**
   * What a login answers and leaves. A known subject gets its user. Another gets the user that has its email, if that
   * email is verified; or else a new user, if no row has the email and the drawn id is new; and otherwise an error.
   * Whoever it gets, the subject is theirs from then on, and no other row or identity is touched.
   */
  lemma LogInExactly(db: Db, c: Claims, drawn: UserId, u: UserId)
    requires UniqueEmails(db.users) && forall s | s in db.identities :: db.identities[s] in db.users
    ensures var (db', r) := Authenticate(db, c, drawn);
      var known := c.subject in db.identities;
      var taken := exists v :: HasEmail(db.users, v, c.email);
      (r == Ok(u) <==>
        if known then u == db.identities[c.subject]
        else if c.emailVerified && taken then HasEmail(db.users, u, c.email)
        else u == drawn && !taken && drawn !in db.users) &&
      (r.Err? <==> !known && !(c.emailVerified && taken) && (taken || drawn in db.users)) &&
      (r.Err? ==> db' == db) &&
      (r.Ok? ==> db'.identities == db.identities[c.subject := r.value]) &&
      db'.users == if !known && r.Ok? && !taken
        then db.users[drawn := User(c.email, c.emailVerified)] else db.users
  {
    var taken := exists v :: HasEmail(db.users, v, c.email);
    if c.subject in db.identities {
      assert db.identities[c.subject := db.identities[c.subject]] == db.identities;
    } else if taken {
      assert FindUser(db.users, c.email).Some?;
      var v := FindUser(db.users, c.email).value;
      assert HasEmail(db.users, v, c.email);
    } else {
      assert forall v | v in db.users :: !HasEmail(db.users, v, c.email);
    }
  }

  lemma CreateKeepsUnique(db: Db, c: Claims, u: UserId)
    requires UniqueEmails(db.users)
    ensures UniqueEmails(Create(db, c, u).0.users)
  {
    if CanInsertUser(db, u, c.email) { InsertKeepsUnique(db, u, User(c.email, c.emailVerified)); }
  }
}
