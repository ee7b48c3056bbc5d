/**
 * What the MFA tables say about the requests made so far: in every run of whole requests they are described by
 * the history alone. With storage failures in the middle of a request, exactly which ones leave them consistent.
 */
module MfaHistory {
  import opened Prelude
  import opened Counting
  import opened SessionTable
  import opened MfaEnrolment

  datatype Op =
    | Register(user: UserId)
    | Setup(user: UserId, secret: SecretId, ids: seq<CodeId>)
    | Enable(user: UserId, codeOk: bool)
    | UseCode(user: UserId, lookup: Option<CodeId>, now: int)
    | Disable(user: UserId, passwordOk: bool, totpOk: bool, lookup: Option<CodeId>, now: int)
    | DeleteUser(user: UserId)

  /** A request, and whether it succeeded. */
  datatype Event = Event(op: Op, ok: bool)

  const START := Db(map[], map[], map[], map[])

  function Cascade(db: Db, u: UserId): Db {
    DeleteCodes(DeleteSecrets(db, u), u).(users := db.users - {u}, sessions := CascadeUser(db.sessions, u))
  }

  /** The random source never repeats an id or a code. */
  ghost predicate Drawn(db: Db, secret: SecretId, ids: seq<CodeId>) {
    secret !in db.secrets && |ids| == CODE_COUNT && Distinct(ids) && Elements(ids) !! db.codes.Keys
  }

  ghost function Step(db: Db, op: Op): (Db, bool) {
    match op
    case Register(u) => if u in db.users then (db, false) else (db.(users := db.users[u := false]), true)
    case Setup(u, secret, ids) =>
      if !Drawn(db, secret, ids) then (db, false)
      else
        var (db', r) := SetupTotp(db, u, secret, ids, 5);
        (db', r.Ok?)
    case Enable(u, codeOk) =>
      var (db', r) := VerifyTotpAndEnable(db, u, codeOk, 2);
      (db', r.Ok?)
    case UseCode(u, lookup, now) =>
      var (db', r) := UseRecoveryCode(db, u, lookup, now, 1);
      (db', r.Ok?)
    case Disable(u, passwordOk, totpOk, lookup, now) =>
      var (db', r) := DisableRequest(db, u, passwordOk, totpOk, lookup, now, 6);
      (db', r == Done)
    case DeleteUser(u) => (Cascade(db, u), true)
  }

  ghost function Run(ops: seq<Op>): (Db, seq<Event>)
    decreases |ops|
  {
    if ops == [] then (START, [])
    else
      var (db, h) := Run(ops[..|ops| - 1]);
      var (db', ok) := Step(db, ops[|ops| - 1]);
      (db', h + [Event(ops[|ops| - 1], ok)])
  }

  // ---- what the history says of one user

  /** None without a setup in force; otherwise the recovery codes used up since the latest one. */
  function UsesSince(h: seq<Event>, u: UserId): Option<nat>
    decreases |h|
  {
    if h == [] then None
    else
      var last, before := h[|h| - 1], UsesSince(h[..|h| - 1], u);
      if last.op.user != u || !last.ok then before
      else if last.op.Setup? then Some(0)
      else if last.op.Disable? || last.op.DeleteUser? then None
      else if last.op.UseCode? && before.Some? then Some(before.value + 1)
      else before
  }

  predicate Enabled(h: seq<Event>, u: UserId)
    decreases |h|
  {
    if h == [] then false
    else
      var last := h[|h| - 1];
      if last.op.user != u || !last.ok then Enabled(h[..|h| - 1], u)
      else if last.op.Enable? then true
      else if last.op.Disable? || last.op.DeleteUser? || last.op.Register? then false
      else Enabled(h[..|h| - 1], u)
  }

  /** The rows of one user are those the history calls for. */
  ghost predicate Described(db: Db, u: UserId, uses: Option<nat>, enabled: bool) {
    (u in db.users ==> db.users[u] == enabled) &&
    if uses.None? then SecretsOf(db, u) == {} && CodesOf(db.codes, u) == {} && (u in db.users ==> !enabled)
    else
      u in db.users && |SecretsOf(db, u)| == 1 && |CodesOf(db.codes, u)| == CODE_COUNT &&
      uses.value + |UnusedOf(db.codes, u)| == CODE_COUNT
  }

  // ---- single statements

  /** The batch goes in whole exactly when its ids are distinct and new. */
  lemma {:induction false} InsertCodesIff(codes: map<CodeId, Code>, u: UserId, ids: seq<CodeId>)
    ensures InsertCodes(codes, u, ids).Some? <==> Distinct(ids) && Elements(ids) !! codes.Keys
    decreases |ids|
  {
    if ids != [] {
      var codes' := codes[ids[0] := Code(u, None)];
      InsertCodesIff(codes', u, ids[1..]);
      DistinctCons(ids);
      assert Elements(ids) == {ids[0]} + Elements(ids[1..]);
      assert codes'.Keys == codes.Keys + {ids[0]};
    }
  }

  /** It then adds one unused row of the user for each id, and changes no other row. */
  lemma {:induction false} InsertCodesRows(codes: map<CodeId, Code>, u: UserId, ids: seq<CodeId>)
    requires InsertCodes(codes, u, ids).Some?
    ensures var codes' := InsertCodes(codes, u, ids).value;
      codes'.Keys == codes.Keys + Elements(ids) &&
      forall c | c in codes' :: codes'[c] == if c in codes then codes[c] else Code(u, None)
    decreases |ids|
  {
    if ids != [] {
      InsertCodesRows(codes[ids[0] := Code(u, None)], u, ids[1..]);
      assert Elements(ids) == {ids[0]} + Elements(ids[1..]);
    }
  }

  lemma BatchRows(codes: map<CodeId, Code>, u: UserId, ids: seq<CodeId>)
    requires Distinct(ids) && CodesOf(codes, u) == {} && Elements(ids) !! codes.Keys
    ensures InsertCodes(codes, u, ids).Some?
    ensures var codes' := InsertCodes(codes, u, ids).value;
      |CodesOf(codes', u)| == |ids| && |UnusedOf(codes', u)| == |ids|
  {
    InsertCodesIff(codes, u, ids);
    OnlyNewCodes(codes, u, ids);
    DistinctSize(ids);
  }

  lemma BatchTouchesOne(codes: map<CodeId, Code>, u: UserId, ids: seq<CodeId>, v: UserId)
    requires v != u && InsertCodes(codes, u, ids).Some?
    ensures var codes' := InsertCodes(codes, u, ids).value;
      CodesOf(codes', v) == CodesOf(codes, v) && UnusedOf(codes', v) == UnusedOf(codes, v)
  {
    InsertCodesRows(codes, u, ids);
  }

  /** Statements about u leave the rows of v alone. */
  ghost predicate Untouched(db: Db, db': Db, v: UserId) {
    (v in db.users <==> v in db'.users) && (v in db.users ==> db.users[v] == db'.users[v]) &&
    SecretsOf(db, v) == SecretsOf(db', v) && CodesOf(db.codes, v) == CodesOf(db'.codes, v) &&
    UnusedOf(db.codes, v) == UnusedOf(db'.codes, v)
  }

  lemma SetupTouchesOne(db: Db, u: UserId, secret: SecretId, ids: seq<CodeId>, writes: nat, v: UserId)
    requires v != u
    ensures Untouched(db, SetupTotp(db, u, secret, ids, writes).0, v)
  {
    var db2 := DeleteCodes(DeleteSecrets(db, u), u);
    assert Untouched(db, db2, v);
    if InsertCodes(db2.codes, u, ids).Some? { BatchTouchesOne(db2.codes, u, ids, v); }
  }

  lemma UseTouchesOne(db: Db, u: UserId, lookup: Option<CodeId>, now: int, writes: nat, v: UserId)
    requires v != u
    ensures Untouched(db, UseRecoveryCode(db, u, lookup, now, writes).0, v)
  {
  }

  lemma DisableTouchesOne(db: Db, u: UserId, writes: nat, v: UserId)
    requires v != u
    ensures Untouched(db, DisableMfa(db, u, writes).0, v)
  {
  }

  lemma DisableRequestTouchesOne(db: Db, op: Op, v: UserId)
    requires op.Disable? && v != op.user
    ensures Untouched(db, Step(db, op).0, v)
  {
    UseTouchesOne(db, op.user, op.lookup, op.now, 6, v);
    DisableTouchesOne(db, op.user, 5, v);
    DisableTouchesOne(UseRecoveryCode(db, op.user, op.lookup, op.now, 6).0, op.user, 5, v);
  }

  lemma CascadeTouchesOne(db: Db, u: UserId, v: UserId)
    requires v != u
    ensures Untouched(db, Cascade(db, u), v)
  {
    assert Untouched(db, DeleteSecrets(db, u), v);
    assert Untouched(db, DeleteCodes(DeleteSecrets(db, u), u), v);
  }

  lemma StepTouchesOne(db: Db, op: Op, v: UserId)
    requires v != op.user
    ensures Untouched(db, Step(db, op).0, v)
  {
    if op.Setup? {
      SetupTouchesOne(db, op.user, op.secret, op.ids, 5, v);
    } else if op.UseCode? {
      UseTouchesOne(db, op.user, op.lookup, op.now, 1, v);
    } else if op.Disable? {
      DisableRequestTouchesOne(db, op, v);
    } else if op.DeleteUser? {
      CascadeTouchesOne(db, op.user, v);
    }
  }

  /** A setup that gets through puts in one secret and unused codes. */
  lemma SetupDescribed(db: Db, u: UserId, secret: SecretId, ids: seq<CodeId>, writes: nat)
    requires u in db.users && !db.users[u] && Drawn(db, secret, ids) && writes >= 4
    ensures SetupTotp(db, u, secret, ids, writes).1.Ok? <==> writes > 4
    ensures Described(SetupTotp(db, u, secret, ids, writes).0, u, Some(0), false)
  {
    var db2 := DeleteCodes(DeleteSecrets(db, u), u);
    BatchRows(db2.codes, u, ids);
    assert SecretsOf(SetupTotp(db, u, secret, ids, writes).0, u) == {secret};
  }

  lemma UseCodeDescribed(db: Db, u: UserId, lookup: Option<CodeId>, now: int, uses: Option<nat>, enabled: bool)
    requires Described(db, u, uses, enabled) && UseRecoveryCode(db, u, lookup, now, 1).1.Ok?
    ensures uses.Some? && Described(UseRecoveryCode(db, u, lookup, now, 1).0, u, Some(uses.value + 1), enabled)
  {
    var db' := UseRecoveryCode(db, u, lookup, now, 1).0;
    assert lookup.value in CodesOf(db.codes, u) && lookup.value in UnusedOf(db.codes, u);
    assert CodesOf(db'.codes, u) == CodesOf(db.codes, u);
    assert UnusedOf(db'.codes, u) == UnusedOf(db.codes, u) - {lookup.value};
    assert SecretsOf(db', u) == SecretsOf(db, u);
  }

  lemma StepDescribed(db: Db, op: Op, h: seq<Event>)
    requires Described(db, op.user, UsesSince(h, op.user), Enabled(h, op.user))
    ensures var (db', ok) := Step(db, op);
      var h' := h + [Event(op, ok)];
      Described(db', op.user, UsesSince(h', op.user), Enabled(h', op.user))
  {
    var (db', ok) := Step(db, op);
    var h', u := h + [Event(op, ok)], op.user;
    assert h'[..|h'| - 1] == h;
    if op.Setup? {
      if ok { SetupDescribed(db, u, op.secret, op.ids, 5); }
      else if Drawn(db, op.secret, op.ids) && u in db.users && !db.users[u] {
        SetupDescribed(db, u, op.secret, op.ids, 5);
      }
    } else if op.UseCode? {
      if ok { UseCodeDescribed(db, u, op.lookup, op.now, UsesSince(h, u), Enabled(h, u)); }
    } else if op.Enable? {
      assert SecretsOf(db', u) == SecretsOf(db, u);
    } else if op.Disable? {
      DisableDescribed(db, op, UsesSince(h, u), Enabled(h, u));
    } else if op.Register? {
      assert SecretsOf(db', u) == SecretsOf(db, u);
    }
  }

  /** A disable request either empties the user's rows or changes none of them. */
  lemma DisableDescribed(db: Db, op: Op, uses: Option<nat>, enabled: bool)
    requires op.Disable? && Described(db, op.user, uses, enabled)
    ensures var (db', ok) := Step(db, op);
      if ok then Described(db', op.user, None, false) else db' == db
  {
  }

  // ---- the results

  lemma {:induction false} RunDescribed(ops: seq<Op>, u: UserId)
    ensures var (db, h) := Run(ops); Described(db, u, UsesSince(h, u), Enabled(h, u))
    decreases |ops|
  {
    if ops != [] {
      var op := ops[|ops| - 1];
      RunDescribed(ops[..|ops| - 1], u);
      var (db, h) := Run(ops[..|ops| - 1]);
      var (db', h') := Run(ops);
      assert h'[..|h'| - 1] == h;
      if op.user == u { StepDescribed(db, op, h); }
      else { StepTouchesOne(db, op, u); }
    }
  }

  function Remaining(uses: Option<nat>, enabled: bool): int {
    if enabled && uses.Some? then CODE_COUNT - uses.value else 0
  }

  /**
   * In every run, a user has no or one secret, eight codes a secret, MFA on only with a secret, and as many
   * unused codes as the latest setup left after the uses since; the status reports just that.
   */
  lemma EnrolmentInvariant(ops: seq<Op>, u: UserId)
    ensures
      var (db, h) := Run(ops);
      var uses := UsesSince(h, u);
      |SecretsOf(db, u)| == (if uses.Some? then 1 else 0) &&
      |CodesOf(db.codes, u)| == CODE_COUNT * |SecretsOf(db, u)| &&
      (u in db.users && db.users[u] ==> |SecretsOf(db, u)| == 1) &&
      (uses.Some? ==> uses.value + |UnusedOf(db.codes, u)| == CODE_COUNT) &&
      (u in db.users ==> Status(db, u) == Ok((Enabled(h, u), Remaining(uses, Enabled(h, u)))))
  {
    RunDescribed(ops, u);
  }

  /**
   * A setup is refused for a missing user, and while MFA is on; otherwise it succeeds exactly if its four statements
   * and the commit get through. Then the user has the one new secret, the new codes, all unused, and MFA off still.
   */
  lemma SetupExactly(db: Db, u: UserId, secret: SecretId, ids: seq<CodeId>, writes: nat)
    requires Drawn(db, secret, ids)
    ensures var (db', r) := SetupTotp(db, u, secret, ids, writes);
      (r == Err(UserNotFound) <==> u !in db.users) && (r == Err(AlreadyEnabled) <==> u in db.users && db.users[u]) &&
      (r == Ok(()) <==> u in db.users && !db.users[u] && writes > 4) &&
      (r == Err(Storage) <==> u in db.users && !db.users[u] && writes <= 4) &&
      (r == Err(UserNotFound) || r == Err(AlreadyEnabled) ==> db' == db) &&
      (r.Ok? ==> SecretsOf(db', u) == {secret} && CodesOf(db'.codes, u) == UnusedOf(db'.codes, u) == Elements(ids)) &&
      db'.users == db.users && db'.sessions == db.sessions
  {
    if u in db.users && !db.users[u] {
      var db2 := DeleteCodes(DeleteSecrets(db, u), u);
      assert SecretsOf(db2, u) == {};
      InsertCodesIff(db2.codes, u, ids);
      if writes > 4 { SetupRows(db, u, secret, ids, writes); }
    }
  }

  lemma SetupRows(db: Db, u: UserId, secret: SecretId, ids: seq<CodeId>, writes: nat)
    requires u in db.users && !db.users[u] && Drawn(db, secret, ids) && writes > 4
    ensures var (db', r) := SetupTotp(db, u, secret, ids, writes);
      r.Ok? && SecretsOf(db', u) == {secret} && CodesOf(db'.codes, u) == UnusedOf(db'.codes, u) == Elements(ids)
  {
    var db2 := DeleteCodes(DeleteSecrets(db, u), u);
    assert CodesOf(db2.codes, u) == {} && SecretsOf(db2, u) == {};
    InsertCodesIff(db2.codes, u, ids);
    OnlyNewCodes(db2.codes, u, ids);
    assert SecretsOf(SetupTotp(db, u, secret, ids, writes).0, u) == {secret};
  }

  lemma OnlyNewCodes(codes: map<CodeId, Code>, u: UserId, ids: seq<CodeId>)
    requires CodesOf(codes, u) == {} && InsertCodes(codes, u, ids).Some?
    ensures var codes' := InsertCodes(codes, u, ids).value;
      CodesOf(codes', u) == Elements(ids) && UnusedOf(codes', u) == Elements(ids)
  {
    InsertCodesRows(codes, u, ids);
    InsertCodesIff(codes, u, ids);
    var codes' := InsertCodes(codes, u, ids).value;
    forall c | c in codes ensures codes[c].user != u { assert c !in CodesOf(codes, u); }
  }

  /**
   * An enable is refused without a secret, and then for a wrong code; otherwise it succeeds exactly if the user
   * exists and both statements get through. MFA turns on exactly with the first of them, and nothing else changes.
   */
  lemma EnableExactly(db: Db, u: UserId, codeOk: bool, writes: nat)
    ensures var (db', r) := VerifyTotpAndEnable(db, u, codeOk, writes);
      var admitted := SecretsOf(db, u) != {} && codeOk;
      (r == Err(NotEnabled) <==> SecretsOf(db, u) == {}) &&
      (r == Err(InvalidCode) <==> SecretsOf(db, u) != {} && !codeOk) &&
      (r == Ok(()) <==> admitted && u in db.users && writes > 1) &&
      (r == Err(UserNotFound) <==> admitted && u !in db.users && writes > 0) &&
      (r == Err(Storage) <==> admitted && (writes == 0 || (u in db.users && writes == 1))) &&
      db' == db.(users := if admitted && u in db.users && writes > 0 then db.users[u := true] else db.users)
  {
  }

  /** A recovery code is accepted exactly if the row found is an unused one of the user, and is used up then. */
  lemma UseExactly(db: Db, u: UserId, lookup: Option<CodeId>, now: int, writes: nat)
    ensures var (db', r) := UseRecoveryCode(db, u, lookup, now, writes);
      var found := lookup.Some? && lookup.value in UnusedOf(db.codes, u);
      (r == Ok(()) <==> found && writes > 0) && (r == Err(InvalidRecoveryCode) <==> !found) &&
      (r == Err(Storage) <==> found && writes == 0) && (r.Err? ==> db' == db) &&
      (r.Ok? ==>
        UnusedOf(db'.codes, u) == UnusedOf(db.codes, u) - {lookup.value} &&
        CodesOf(db'.codes, u) == CodesOf(db.codes, u) &&
        db' == db.(codes := db.codes[lookup.value := Code(u, Some(now))]))
  {
  }

  /**
   * A disable request succeeds exactly with the right password and a second factor, when its statements up to
   * the commit get through; then nothing of the user's MFA is left, and if one more statement gets through every
   * session of the user, and no other, is revoked. It is refused as unauthorized for a wrong password, or for want of
   * a factor or of the statement that notes its use.
   */
  lemma DisableExactly(db: Db, u: UserId, passwordOk: bool, totpOk: bool, lookup: Option<CodeId>, now: int, writes: nat)
    ensures var (db', r) := DisableRequest(db, u, passwordOk, totpOk, lookup, now, writes);
      (r.Done? <==> u in db.users && passwordOk && writes > DISABLE_WRITES && FactorOk(db, u, totpOk, lookup)) &&
      (r.Unauthorized? <==>
        u in db.users && (!passwordOk || !FactorOk(db, u, totpOk, lookup) || writes == 0)) &&
      (r.Unauthorized? ==> db' == db) &&
      (r.Done? ==> !db'.users[u] && SecretsOf(db', u) == {} && CodesOf(db'.codes, u) == {}) &&
      (r.Done? && writes > DISABLE_WRITES + 1 ==>
        forall s :: IsLive(db'.sessions, s) <==> IsLive(db.sessions, s) && db.sessions[s].userId != u) &&
      (!r.Done? || writes <= DISABLE_WRITES + 1 ==> db'.sessions == db.sessions)
  {
  }

  /** Disabling by the service: each answer and its condition, and what is left once it is done. */
  lemma DisableMfaExactly(db: Db, u: UserId, writes: nat)
    ensures var (db', r) := DisableMfa(db, u, writes);
      (r == Ok(()) <==> u in db.users && writes > 3) && (r == Err(UserNotFound) <==> u !in db.users && writes > 2) &&
      (r == Err(Storage) <==> writes <= 2 || (u in db.users && writes == 3)) &&
      (writes > 1 ==> SecretsOf(db', u) == {} && CodesOf(db'.codes, u) == {}) &&
      db'.users == if u in db.users && writes > 2 then db.users[u := false] else db.users
  {
  }

  // ---- the flag

  /** The latest of the user's requests that set the flag was an enable with a right code. */
  ghost predicate EnabledAt(h: seq<Event>, k: nat, u: UserId) {
    k < |h| && h[k].ok && h[k].op == Enable(u, true) &&
    forall j | k < j < |h| && h[j].ok && h[j].op.user == u ::
      !(h[j].op.Disable? || h[j].op.DeleteUser? || h[j].op.Register?)
  }

  lemma {:induction false} EnabledMeans(ops: seq<Op>, u: UserId)
    ensures var h := Run(ops).1; Enabled(h, u) <==> exists k: nat | k < |h| :: EnabledAt(h, k, u)
    decreases |ops|
  {
    if ops != [] {
      var op := ops[|ops| - 1];
      EnabledMeans(ops[..|ops| - 1], u);
      var (db, h) := Run(ops[..|ops| - 1]);
      var h' := Run(ops).1;
      var last := h'[|h|];
      assert h'[..|h|] == h && |h'| == |h| + 1;
      forall k: nat | k < |h| ensures EnabledAt(h', k, u) <==>
        EnabledAt(h, k, u) && !(last.ok && op.user == u && (op.Disable? || op.DeleteUser? || op.Register?)) {}
      if op.Enable? { EnableExactly(db, op.user, op.codeOk, 2); }
      if last.ok && op == Enable(u, true) { assert EnabledAt(h', |h|, u); }
    }
  }

  /**
   * In every run MFA is on for a user exactly if some enable with a right code succeeded for it, and no disable, new
   * registration or deletion has succeeded since.
   */
  lemma OnByRightCode(ops: seq<Op>, u: UserId)
    ensures var (db, h) := Run(ops);
      u in db.users ==> (db.users[u] <==> exists k: nat | k < |h| :: EnabledAt(h, k, u))
  {
    RunDescribed(ops, u);
    EnabledMeans(ops, u);
  }

  predicate FactorOk(db: Db, u: UserId, totpOk: bool, lookup: Option<CodeId>) {
    (totpOk && SecretsOf(db, u) != {}) || (lookup.Some? && lookup.value in UnusedOf(db.codes, u))
  }

  predicate IsLive(t: Table, s: SessionHash) { s in t && t[s].revokedAt.None? }

  // ---- storage failing within a request

  /** The table invariant without the history. */
  predicate Consistent(db: Db, u: UserId) {
    |SecretsOf(db, u)| <= 1 && |CodesOf(db.codes, u)| == CODE_COUNT * |SecretsOf(db, u)| &&
    (u in db.users && db.users[u] ==> |SecretsOf(db, u)| == 1)
  }

  /**
   * Which failures of a setup leave the tables consistent: all but one between the two deletions, when there was
   * a setup before, and one between the secret and its codes.
   */
  lemma SetupConsistentIff(db: Db, u: UserId, secret: SecretId, ids: seq<CodeId>, writes: nat)
    requires Consistent(db, u) && Drawn(db, secret, ids)
    requires u in db.users && !db.users[u]
    ensures Consistent(SetupTotp(db, u, secret, ids, writes).0, u) <==>
      writes != 3 && (writes == 1 ==> SecretsOf(db, u) == {})
    ensures forall v | v != u && Consistent(db, v) :: Consistent(SetupTotp(db, u, secret, ids, writes).0, v)
  {
    var db' := SetupTotp(db, u, secret, ids, writes).0;
    var db1 := DeleteSecrets(db, u);
    var db2 := DeleteCodes(db1, u);
    assert SecretsOf(db1, u) == {} && SecretsOf(db2, u) == {} && CodesOf(db2.codes, u) == {};
    if writes == 3 {
      assert SecretsOf(db', u) == {secret};
    } else if writes >= 4 {
      SetupDescribed(db, u, secret, ids, writes);
    }
    forall v | v != u && Consistent(db, v) ensures Consistent(db', v) {
      SetupTouchesOne(db, u, secret, ids, writes, v);
    }
  }

  /** Likewise for disabling: a failure that matters comes after the first deletion, or before the flag is off. */
  lemma DisableConsistentIff(db: Db, u: UserId, writes: nat)
    requires Consistent(db, u) && u in db.users
    ensures Consistent(DisableMfa(db, u, writes).0, u) <==>
      (writes == 1 ==> SecretsOf(db, u) == {}) && (writes == 2 ==> !db.users[u])
    ensures forall v | v != u && Consistent(db, v) :: Consistent(DisableMfa(db, u, writes).0, v)
  {
    var db' := DisableMfa(db, u, writes).0;
    var db1 := DeleteSecrets(db, u);
    assert SecretsOf(db1, u) == {} && CodesOf(DeleteCodes(db1, u).codes, u) == {};
    if writes >= 2 {
      assert SecretsOf(db', u) == {} && CodesOf(db'.codes, u) == {};
    }
    forall v | v != u && Consistent(db, v) ensures Consistent(db', v) {
      DisableTouchesOne(db, u, writes, v);
    }
  }

  /** An enable cut short at any point leaves the tables consistent. */
  lemma EnableConsistent(db: Db, u: UserId, codeOk: bool, writes: nat, v: UserId)
    requires Consistent(db, v)
    ensures Consistent(VerifyTotpAndEnable(db, u, codeOk, writes).0, v)
  {
    var db' := VerifyTotpAndEnable(db, u, codeOk, writes).0;
    assert SecretsOf(db', v) == SecretsOf(db, v);
    if SecretsOf(db, v) != {} {
      var s :| s in SecretsOf(db, v);
      assert |SecretsOf(db, v) - {s}| == |SecretsOf(db, v)| - 1;
    }
  }
}
