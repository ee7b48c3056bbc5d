/**
 * Setting up, enabling, using and disabling MFA on the users, mfa_secrets and mfa_recovery_codes tables
 * (pkg/auth/mfa.go, internal/http/features/mfa/handler.go). SetupTOTP and DisableMFA open a transaction their
 * statements do not run in, so a storage failure leaves the statements before it in force: `writes` counts the
 * statements that write, and commits, that get through.
 */
module MfaEnrolment {
  import opened Prelude
  import opened SessionTable

  type SecretId = nat
  type CodeId = nat

  const CODE_COUNT: nat := 8

  /** A recovery code row, keyed by its hash. */
  datatype Code = Code(user: UserId, usedAt: Option<int>)

  /** users holds mfa_enabled; secrets gives the owner of each TOTP secret. */
  datatype Db = Db(users: map<UserId, bool>, secrets: map<SecretId, UserId>, codes: map<CodeId, Code>, sessions: Table)

  datatype MfaError =
    | UserNotFound | AlreadyEnabled | NotEnabled | InvalidCode | InvalidRecoveryCode | Storage

  datatype Response = Done | Unauthorized | ServerError

  // ---- statements

  function SecretsOf(db: Db, u: UserId): set<SecretId> {
    set s | s in db.secrets && db.secrets[s] == u
  }

  function CodesOf(codes: map<CodeId, Code>, u: UserId): set<CodeId> {
    set c | c in codes && codes[c].user == u
  }

  function UnusedOf(codes: map<CodeId, Code>, u: UserId): set<CodeId> {
    set c | c in codes && codes[c].user == u && codes[c].usedAt.None?
  }

  function DeleteSecrets(db: Db, u: UserId): Db {
    db.(secrets := map s | s in db.secrets && db.secrets[s] != u :: db.secrets[s])
  }

  function DeleteCodes(db: Db, u: UserId): Db {
    db.(codes := map c | c in db.codes && db.codes[c].user != u :: db.codes[c])
  }

  /** The primary key, the foreign key and UNIQUE(user_id, method). */
  predicate CanInsertSecret(db: Db, s: SecretId, u: UserId) {
    s !in db.secrets && u in db.users && SecretsOf(db, u) == {}
  }

  /** The rows inserted by one transaction, or None when a key repeats and it rolls back. */
  function InsertCodes(codes: map<CodeId, Code>, u: UserId, ids: seq<CodeId>): Option<map<CodeId, Code>>
    decreases ids
  {
    if ids == [] then Some(codes)
    else if ids[0] in codes then None
    else InsertCodes(codes[ids[0] := Code(u, None)], u, ids[1..])
  }

  // ---- the operations as functions on table values

  function SetupTotp(db: Db, u: UserId, secret: SecretId, ids: seq<CodeId>, writes: nat): (Db, Result<(), MfaError>) {
    if u !in db.users then (db, Err(UserNotFound))
    else if db.users[u] then (db, Err(AlreadyEnabled))
    else if writes == 0 then (db, Err(Storage))
    else
      var db1 := DeleteSecrets(db, u);
      if writes == 1 then (db1, Err(Storage))
      else
        var db2 := DeleteCodes(db1, u);
        if writes == 2 || !CanInsertSecret(db2, secret, u) then (db2, Err(Storage))
        else
          var db3 := db2.(secrets := db2.secrets[secret := u]);
          var codes := InsertCodes(db3.codes, u, ids);
          if writes == 3 || codes.None? then (db3, Err(Storage))
          else (db3.(codes := codes.value), if writes == 4 then Err(Storage) else Ok(()))
  }

  /** The second write only notes when the secret was last used. */
  function VerifyTotpAndEnable(db: Db, u: UserId, codeOk: bool, writes: nat): (Db, Result<(), MfaError>) {
    if SecretsOf(db, u) == {} then (db, Err(NotEnabled))
    else if !codeOk then (db, Err(InvalidCode))
    else if writes == 0 then (db, Err(Storage))
    else if u !in db.users then (db, Err(UserNotFound))
    else (db.(users := db.users[u := true]), if writes == 1 then Err(Storage) else Ok(()))
  }

  /** VerifyRecoveryCode; lookup is whatever row the search by hash returned. */
  function UseRecoveryCode(db: Db, u: UserId, lookup: Option<CodeId>, now: int, writes: nat)
    : (Db, Result<(), MfaError>)
  {
    if lookup.None? || lookup.value !in db.codes then (db, Err(InvalidRecoveryCode))
    else if db.codes[lookup.value] != Code(u, None) then (db, Err(InvalidRecoveryCode))
    else if writes == 0 then (db, Err(Storage))
    else (db.(codes := db.codes[lookup.value := Code(u, Some(now))]), Ok(()))
  }

  function DisableMfa(db: Db, u: UserId, writes: nat): (Db, Result<(), MfaError>) {
    if writes == 0 then (db, Err(Storage))
    else
      var db1 := DeleteSecrets(db, u);
      if writes == 1 then (db1, Err(Storage))
      else
        var db2 := DeleteCodes(db1, u);
        if writes == 2 then (db2, Err(Storage))
        else if u !in db.users then (db2, Err(UserNotFound))
        else (db2.(users := db2.users[u := false]), if writes == 3 then Err(Storage) else Ok(()))
  }

  /** What DisableMfa takes: three statements and a commit. */
  const DISABLE_WRITES: nat := 4

  /** POST /v1/me/mfa/disable; the outcome of revoking the sessions is ignored. */
  function DisableRequest(db: Db, u: UserId, passwordOk: bool, totpOk: bool, lookup: Option<CodeId>, now: int,
                          writes: nat)
    : (Db, Response)
  {
    if u !in db.users then (db, ServerError)
    else if !passwordOk then (db, Unauthorized)
    else
      var validTotp := totpOk && SecretsOf(db, u) != {} && writes > 0;
      var (db1, used) := if validTotp then (db, Ok(())) else UseRecoveryCode(db, u, lookup, now, writes);
      if used.Err? then (db1, Unauthorized)
      else
        var (db2, r) := DisableMfa(db1, u, writes - 1);
        if r.Err? then (db2, ServerError)
        else if writes - 1 == DISABLE_WRITES then (db2, Done)
        else (db2.(sessions := RevokeAll(db2.sessions, u, now)), Done)
  }

  function Status(db: Db, u: UserId): Result<(bool, nat), MfaError> {
    if u !in db.users then Err(UserNotFound)
    else if !db.users[u] then Ok((false, 0))
    else Ok((true, |UnusedOf(db.codes, u)|))
  }

  // ---- the service

  class Service {
    var users: map<UserId, bool>
    var secrets: map<SecretId, UserId>
    var codes: map<CodeId, Code>
    var sessions: Table
    /** How many more statements that write the storage will carry out. */
    var writes: nat

    constructor ()
      ensures State() == Db(map[], map[], map[], map[]) && writes == 0
    {
      users, secrets, codes, sessions, writes := map[], map[], map[], map[], 0;
    }

    function State(): Db
      reads this
    {
      Db(users, secrets, codes, sessions)
    }

    method DeleteAllSecrets(u: UserId) returns (ok: bool)
      modifies this`secrets, this`writes
      ensures ok <==> old(writes) > 0
      ensures State() == if ok then DeleteSecrets(old(State()), u) else old(State())
      ensures writes == if ok then old(writes) - 1 else 0
    {
      ok := writes > 0;
      if ok {
        secrets := map s | s in secrets && secrets[s] != u :: secrets[s];
        writes := writes - 1;
      }
    }

    method DeleteAllCodes(u: UserId) returns (ok: bool)
      modifies this`codes, this`writes
      ensures ok <==> old(writes) > 0
      ensures State() == if ok then DeleteCodes(old(State()), u) else old(State())
      ensures writes == if ok then old(writes) - 1 else 0
    {
      ok := writes > 0;
      if ok {
        codes := map c | c in codes && codes[c].user != u :: codes[c];
        writes := writes - 1;
      }
    }

    method CreateSecret(s: SecretId, u: UserId) returns (ok: bool)
      modifies this`secrets, this`writes
      ensures ok <==> old(writes) > 0 && CanInsertSecret(old(State()), s, u)
      ensures State() == if ok then old(State()).(secrets := old(secrets)[s := u]) else old(State())
      ensures writes == if ok then old(writes) - 1 else old(writes)
    {
      ok := writes > 0 && CanInsertSecret(State(), s, u);
      if ok {
        secrets := secrets[s := u];
        writes := writes - 1;
      }
    }

    /** One transaction of its own: all rows or none. */
    method CreateBatch(batch: seq<(CodeId, Code)>, ghost u: UserId, ghost ids: seq<CodeId>) returns (ok: bool)
      requires |batch| == |ids| && forall k :: 0 <= k < |ids| ==> batch[k] == (ids[k], Code(u, None))
      modifies this`codes, this`writes
      ensures ok <==> old(writes) > 0 && InsertCodes(old(codes), u, ids).Some?
      ensures State() == if ok then old(State()).(codes := InsertCodes(old(codes), u, ids).value) else old(State())
      ensures ok ==> writes == old(writes) - 1
    {
      if writes == 0 {
        return false;
      }
      var tx: map<CodeId, Code> := codes;
      var i := 0;
      while i < |batch|
        invariant 0 <= i <= |batch|
        invariant InsertCodes(tx, u, ids[i..]) == InsertCodes(codes, u, ids)
        invariant State() == old(State()) && writes == old(writes)
      {
        if batch[i].0 in tx {
          return false;
        }
        assert ids[i..][1..] == ids[i + 1..];
        tx := tx[batch[i].0 := batch[i].1];
        i := i + 1;
      }
      codes, writes := tx, writes - 1;
      return true;
    }

    /** The commit of a transaction that nothing ran in. */
    method Commit() returns (ok: bool)
      modifies this`writes
      ensures ok <==> old(writes) > 0
      ensures writes == if ok then old(writes) - 1 else 0
    {
      ok := writes > 0;
      if ok {
        writes := writes - 1;
      }
    }

    method UpdateMfaEnabled(u: UserId, enabled: bool) returns (r: Result<(), MfaError>)
      modifies this`users, this`writes
      ensures r == if old(writes) == 0 then Err(Storage) else if u !in old(users) then Err(UserNotFound) else Ok(())
      ensures users == if r.Ok? then old(users)[u := enabled] else old(users)
      ensures writes == if old(writes) == 0 then 0 else old(writes) - 1
    {
      if writes == 0 {
        return Err(Storage);
      }
      writes := writes - 1;
      if u !in users {
        return Err(UserNotFound);
      }
      users := users[u := enabled];
      return Ok(());
    }

    method Setup(u: UserId, secret: SecretId, drawn: seq<CodeId>) returns (r: Result<(), MfaError>)
      requires |drawn| == CODE_COUNT
      modifies this
      ensures (State(), r) == SetupTotp(old(State()), u, secret, drawn, old(writes))
    {
      if u !in users {
        return Err(UserNotFound);
      }
      if users[u] {
        return Err(AlreadyEnabled);
      }
      var batch: seq<(CodeId, Code)> := [];
      for i := 0 to CODE_COUNT
        invariant |batch| == i && forall k :: 0 <= k < i ==> batch[k] == (drawn[k], Code(u, None))
      {
        batch := batch + [(drawn[i], Code(u, None))];
      }
      var ok := DeleteAllSecrets(u);
      if !ok {
        return Err(Storage);
      }
      ok := DeleteAllCodes(u);
      if !ok {
        return Err(Storage);
      }
      ok := CreateSecret(secret, u);
      if !ok {
        return Err(Storage);
      }
      ok := CreateBatch(batch, u, drawn);
      if !ok {
        return Err(Storage);
      }
      ok := Commit();
      return if ok then Ok(()) else Err(Storage);
    }

    /** last_used_at itself is not part of the tables here. */
    method UpdateLastUsed() returns (ok: bool)
      modifies this`writes
      ensures ok <==> old(writes) > 0
      ensures writes == if ok then old(writes) - 1 else 0
    {
      ok := writes > 0;
      if ok {
        writes := writes - 1;
      }
    }

    method Enable(u: UserId, codeOk: bool) returns (r: Result<(), MfaError>)
      modifies this
      ensures (State(), r) == VerifyTotpAndEnable(old(State()), u, codeOk, old(writes))
    {
      if SecretsOf(State(), u) == {} {
        return Err(NotEnabled);
      }
      if !codeOk {
        return Err(InvalidCode);
      }
      r := UpdateMfaEnabled(u, true);
      if r.Ok? {
        var touched := UpdateLastUsed();
        if !touched {
          return Err(Storage);
        }
      }
    }

    method VerifyTotp(u: UserId, totpOk: bool) returns (valid: bool)
      modifies this`writes
      ensures valid <==> totpOk && SecretsOf(State(), u) != {} && old(writes) > 0
      ensures writes == if valid then old(writes) - 1 else old(writes)
    {
      if SecretsOf(State(), u) == {} || !totpOk {
        return false;
      }
      valid := UpdateLastUsed();
    }

    method VerifyRecoveryCode(u: UserId, lookup: Option<CodeId>, now: int) returns (r: Result<(), MfaError>)
      modifies this`codes, this`writes
      ensures (State(), r) == UseRecoveryCode(old(State()), u, lookup, now, old(writes))
      ensures writes == if r.Ok? then old(writes) - 1 else old(writes)
    {
      if lookup.None? || lookup.value !in codes {
        return Err(InvalidRecoveryCode);
      }
      var row := codes[lookup.value];
      if row.user != u {
        return Err(InvalidRecoveryCode);
      }
      if row.usedAt.Some? {
        return Err(InvalidRecoveryCode);
      }
      if writes == 0 {
        return Err(Storage);
      }
      codes, writes := codes[lookup.value := row.(usedAt := Some(now))], writes - 1;
      return Ok(());
    }

    method Disable(u: UserId) returns (r: Result<(), MfaError>)
      modifies this
      ensures (State(), r) == DisableMfa(old(State()), u, old(writes))
      ensures r.Ok? ==> writes == old(writes) - DISABLE_WRITES
    {
      var ok := DeleteAllSecrets(u);
      if !ok {
        return Err(Storage);
      }
      ok := DeleteAllCodes(u);
      if !ok {
        return Err(Storage);
      }
      r := UpdateMfaEnabled(u, false);
      if r.Ok? {
        ok := Commit();
        return if ok then Ok(()) else Err(Storage);
      }
    }

    method PostDisable(u: UserId, passwordOk: bool, totpOk: bool, lookup: Option<CodeId>, now: int)
      returns (answer: Response)
      modifies this
      ensures (State(), answer) == DisableRequest(old(State()), u, passwordOk, totpOk, lookup, now, old(writes))
    {
      if u !in users {
        return ServerError;
      }
      if !passwordOk {
        return Unauthorized;
      }
      var validTotp := VerifyTotp(u, totpOk);
      var validRecovery := false;
      if !validTotp {
        var r := VerifyRecoveryCode(u, lookup, now);
        validRecovery := r.Ok?;
      }
      if !validTotp && !validRecovery {
        return Unauthorized;
      }
      var r := Disable(u);
      if r.Err? {
        return ServerError;
      }
      if writes > 0 {
        sessions := RevokeAll(sessions, u, now);
      }
      return Done;
    }
  }
}
