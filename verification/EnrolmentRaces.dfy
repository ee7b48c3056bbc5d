/**
 * MFA setups, enables and disables running at the same time, statement by statement (pkg/auth/mfa.go): none of
 * them runs in the transaction it opens. What the statements carried out say about the tables in every
 * interleaving, and two interleavings that leave them inconsistent.
 */
module EnrolmentRaces {
  import opened Prelude
  import opened MfaEnrolment
  import H = MfaHistory
  import C = Counting

  type RequestId = nat

  /** A setup or disable counts the statements it has carried out. */
  datatype Request =
    | SetupChecking(user: UserId, secret: SecretId, ids: seq<CodeId>)
    | SettingUp(user: UserId, secret: SecretId, ids: seq<CodeId>, done: nat)
    | EnableReading(user: UserId, codeOk: bool)
    | Enabling(user: UserId)
    | Disabling(user: UserId, done: nat)
    | LookingUp(user: UserId, lookup: Option<CodeId>)
    | Marking(user: UserId, code: CodeId)
    | Over

  datatype Action =
    | Arrive(id: RequestId, r: Request)
    | Run(id: RequestId)
    | Abort(id: RequestId)
    | AddUser(user: UserId)
    | RemoveUser(user: UserId)

  /** The statements that took effect on one user's rows. */
  datatype Statement =
    | DeletedSecrets(user: UserId)
    | DeletedCodes(user: UserId)
    | InsertedSecret(user: UserId)
    | InsertedCodes(user: UserId)
    | SetFlag(user: UserId, on: bool)
    | Removed(user: UserId)

  type Answer = Result<(), MfaError>

  /** The tables, the requests and their answers, with every secret and code drawn so far. */
  datatype World = World(db: Db, requests: map<RequestId, Request>, answers: map<RequestId, Answer>,
                         log: seq<Statement>, secrets: set<SecretId>, codes: set<CodeId>)

  const START := World(Db(map[], map[], map[], map[]), map[], map[], [], {}, {})

  predicate Arrives(r: Request) {
    r.SetupChecking? || r.EnableReading? || (r.Disabling? && r.done == 0) || r.LookingUp?
  }

  /** The random source never repeats a secret or a code. */
  ghost predicate FreshDraw(w: World, secret: SecretId, ids: seq<CodeId>) {
    secret !in w.secrets && |ids| == CODE_COUNT && C.Distinct(ids) && C.Elements(ids) !! w.codes
  }

  function Set(w: World, id: RequestId, r: Request): World {
    w.(requests := w.requests[id := r])
  }

  /** The request is over and has answered. */
  function End(w: World, id: RequestId, answer: Answer): World {
    Set(w, id, Over).(answers := w.answers[id := answer])
  }

  function Write(w: World, db: Db, s: Statement): World {
    w.(db := db, log := w.log + [s])
  }

  function AdvanceSetup(w: World, id: RequestId): World
    requires id in w.requests && w.requests[id].SettingUp?
  {
    var SettingUp(u, secret, ids, done) := w.requests[id];
    if done == 0 then Set(Write(w, DeleteSecrets(w.db, u), DeletedSecrets(u)), id, SettingUp(u, secret, ids, 1))
    else if done == 1 then Set(Write(w, DeleteCodes(w.db, u), DeletedCodes(u)), id, SettingUp(u, secret, ids, 2))
    else if done == 2 then
      if CanInsertSecret(w.db, secret, u)
      then
        var db := w.db.(secrets := w.db.secrets[secret := u]);
        Set(Write(w, db, InsertedSecret(u)), id, SettingUp(u, secret, ids, 3))
      else End(w, id, Err(Storage))
    else
      var codes := InsertCodes(w.db.codes, u, ids);
      if u in w.db.users && codes.Some?
      then End(Write(w, w.db.(codes := codes.value), InsertedCodes(u)), id, Ok(()))
      else End(w, id, Err(Storage))
  }

  function AdvanceDisable(w: World, id: RequestId): World
    requires id in w.requests && w.requests[id].Disabling?
  {
    var Disabling(u, done) := w.requests[id];
    if done == 0 then Set(Write(w, DeleteSecrets(w.db, u), DeletedSecrets(u)), id, Disabling(u, 1))
    else if done == 1 then Set(Write(w, DeleteCodes(w.db, u), DeletedCodes(u)), id, Disabling(u, 2))
    else if u in w.db.users
    then End(Write(w, w.db.(users := w.db.users[u := false]), SetFlag(u, false)), id, Ok(()))
    else End(w, id, Err(UserNotFound))
  }

  /** UPDATE .. SET used_at = NOW() WHERE id = $1 AND used_at IS NULL */
  function MarkUsed(db: Db, c: CodeId): Db {
    if c in db.codes && db.codes[c].usedAt.None?
    then db.(codes := db.codes[c := db.codes[c].(usedAt := Some(0))]) else db
  }

  function Advance(w: World, id: RequestId): World
    requires id in w.requests
  {
    match w.requests[id]
    case SetupChecking(u, secret, ids) =>
      if u !in w.db.users then End(w, id, Err(UserNotFound))
      else if w.db.users[u] then End(w, id, Err(AlreadyEnabled))
      else Set(w, id, SettingUp(u, secret, ids, 0))
    case SettingUp(_, _, _, _) => AdvanceSetup(w, id)
    case EnableReading(u, codeOk) =>
      if SecretsOf(w.db, u) == {} then End(w, id, Err(NotEnabled))
      else if !codeOk then End(w, id, Err(InvalidCode))
      else Set(w, id, Enabling(u))
    case Enabling(u) =>
      if u in w.db.users
      then End(Write(w, w.db.(users := w.db.users[u := true]), SetFlag(u, true)), id, Ok(()))
      else End(w, id, Err(UserNotFound))
    case Disabling(_, _) => AdvanceDisable(w, id)
    case LookingUp(u, lookup) =>
      if lookup.Some? && lookup.value in w.db.codes && w.db.codes[lookup.value] == Code(u, None)
      then Set(w, id, Marking(u, lookup.value))
      else End(w, id, Err(InvalidRecoveryCode))
    case Marking(_, c) =>
      var unused := c in w.db.codes && w.db.codes[c].usedAt.None?;
      End(w.(db := MarkUsed(w.db, c)), id, if unused then Ok(()) else Err(InvalidRecoveryCode))
    case Over => w
  }

  ghost function Apply(w: World, a: Action): World {
    match a
    case Arrive(id, r) =>
      if id in w.requests || !Arrives(r) then w
      else if !r.SetupChecking? then Set(w, id, r)
      else if !FreshDraw(w, r.secret, r.ids) then w
      else Set(w, id, r).(secrets := w.secrets + {r.secret}, codes := w.codes + C.Elements(r.ids))
    case Run(id) => if id in w.requests then Advance(w, id) else w
    case Abort(id) => if id in w.requests && !w.requests[id].Over? then End(w, id, Err(Storage)) else w
    case AddUser(u) =>
      if u in w.db.users then w else Write(w, w.db.(users := w.db.users[u := false]), SetFlag(u, false))
    case RemoveUser(u) => Write(w, H.Cascade(w.db, u), Removed(u))
  }

  ghost function Exec(w: World, schedule: seq<Action>): World
    decreases |schedule|
  {
    if schedule == [] then w else Exec(Apply(w, schedule[0]), schedule[1..])
  }

  // ---- draws

  predicate IsSetup(r: Request) { r.SetupChecking? || r.SettingUp? }

  /** What a setup has drawn is new to the tables until it goes in. */
  ghost predicate Waiting(w: World, r: Request) {
    IsSetup(r) ==>
      |r.ids| == CODE_COUNT && C.Distinct(r.ids) &&
      C.Elements(r.ids) <= w.codes && C.Elements(r.ids) !! w.db.codes.Keys &&
      r.secret in w.secrets && (r.SetupChecking? || r.done <= 2 ==> r.secret !in w.db.secrets)
  }

  ghost predicate Apart(r: Request, q: Request) {
    IsSetup(r) && IsSetup(q) ==> r.secret != q.secret && C.Elements(r.ids) !! C.Elements(q.ids)
  }

  ghost predicate FreshDraws(w: World) {
    w.db.secrets.Keys <= w.secrets && w.db.codes.Keys <= w.codes &&
    (forall id | id in w.requests :: Waiting(w, w.requests[id])) &&
    forall i, j | i in w.requests && j in w.requests && i != j :: Apart(w.requests[i], w.requests[j])
  }

  /** A step that inserts nothing. */
  lemma DeletingFresh(w: World, w': World, id: RequestId)
    requires FreshDraws(w) && id in w.requests && id in w'.requests && w'.requests == w.requests[id := w'.requests[id]]
    requires w'.secrets == w.secrets && w'.codes == w.codes
    requires w'.db.secrets.Keys <= w.db.secrets.Keys && w'.db.codes.Keys <= w.db.codes.Keys
    requires var r, r' := w.requests[id], w'.requests[id];
      IsSetup(r') ==> IsSetup(r) && r'.secret == r.secret && r'.ids == r.ids && (r'.SetupChecking? || r'.done <= 2 ==>
        r.SetupChecking? || r.done <= 2)
    ensures FreshDraws(w')
  {
    forall j | j in w'.requests ensures Waiting(w', w'.requests[j]) {
      assert Waiting(w, w.requests[j]);
    }
    forall i, j | i in w'.requests && j in w'.requests && i != j ensures Apart(w'.requests[i], w'.requests[j]) {
      assert Apart(w.requests[i], w.requests[j]);
    }
  }

  lemma InsertingSecretFresh(w: World, id: RequestId)
    requires FreshDraws(w) && id in w.requests && w.requests[id].SettingUp? && w.requests[id].done == 2
    requires CanInsertSecret(w.db, w.requests[id].secret, w.requests[id].user)
    ensures FreshDraws(AdvanceSetup(w, id))
  {
    var r, w' := w.requests[id], AdvanceSetup(w, id);
    assert Waiting(w, r);
    forall j | j in w'.requests ensures Waiting(w', w'.requests[j]) {
      assert Waiting(w, w.requests[j]);
      if j != id { assert Apart(w.requests[j], r); }
    }
    forall i, j | i in w'.requests && j in w'.requests && i != j ensures Apart(w'.requests[i], w'.requests[j]) {
      assert Apart(w.requests[i], w.requests[j]);
    }
  }

  lemma InsertingCodesFresh(w: World, id: RequestId)
    requires FreshDraws(w) && id in w.requests && w.requests[id].SettingUp? && w.requests[id].done > 2
    requires w.requests[id].user in w.db.users && InsertCodes(w.db.codes, w.requests[id].user, w.requests[id].ids).Some?
    ensures FreshDraws(AdvanceSetup(w, id))
  {
    var r, w' := w.requests[id], AdvanceSetup(w, id);
    assert Waiting(w, r);
    H.InsertCodesRows(w.db.codes, r.user, r.ids);
    forall j | j in w'.requests ensures Waiting(w', w'.requests[j]) {
      assert Waiting(w, w.requests[j]);
      if j != id { assert Apart(w.requests[j], r); }
    }
    forall i, j | i in w'.requests && j in w'.requests && i != j ensures Apart(w'.requests[i], w'.requests[j]) {
      assert Apart(w.requests[i], w.requests[j]);
    }
  }

  lemma SetupFresh(w: World, id: RequestId)
    requires FreshDraws(w) && id in w.requests && w.requests[id].SettingUp?
    ensures FreshDraws(AdvanceSetup(w, id))
  {
    var r := w.requests[id];
    if r.done == 2 && CanInsertSecret(w.db, r.secret, r.user) { InsertingSecretFresh(w, id); }
    else if r.done > 2 && r.user in w.db.users && InsertCodes(w.db.codes, r.user, r.ids).Some? {
      InsertingCodesFresh(w, id);
    } else { DeletingFresh(w, AdvanceSetup(w, id), id); }
  }

  lemma ArrivingFresh(w: World, id: RequestId, r: Request)
    requires FreshDraws(w)
    ensures FreshDraws(Apply(w, Arrive(id, r)))
  {
    var w' := Apply(w, Arrive(id, r));
    forall j | j in w'.requests ensures Waiting(w', w'.requests[j]) {
      if j in w.requests { assert Waiting(w, w.requests[j]); }
    }
    forall i, j | i in w'.requests && j in w'.requests && i != j ensures Apart(w'.requests[i], w'.requests[j]) {
      if i in w.requests && j in w.requests { assert Apart(w.requests[i], w.requests[j]); }
      else if i in w.requests { assert Waiting(w, w.requests[i]); }
      else if j in w.requests { assert Waiting(w, w.requests[j]); }
    }
  }

  lemma ApplyFresh(w: World, a: Action)
    requires FreshDraws(w)
    ensures FreshDraws(Apply(w, a))
  {
    match a
    case Arrive(id, r) => ArrivingFresh(w, id, r);
    case Run(id) => if id in w.requests { RunFresh(w, id); }
    case Abort(id) => if id in w.requests { DeletingFresh(w, Apply(w, a), id); }
    case _ =>
      var w' := Apply(w, a);
      forall j | j in w'.requests ensures Waiting(w', w'.requests[j]) { assert Waiting(w, w.requests[j]); }
  }

  lemma DisableFresh(w: World, id: RequestId)
    requires FreshDraws(w) && id in w.requests && w.requests[id].Disabling?
    ensures FreshDraws(AdvanceDisable(w, id))
  {
    DeletingFresh(w, AdvanceDisable(w, id), id);
  }

  lemma CheckFresh(w: World, id: RequestId)
    requires FreshDraws(w) && id in w.requests && w.requests[id].SetupChecking?
    ensures FreshDraws(Advance(w, id))
  {
    DeletingFresh(w, Advance(w, id), id);
  }

  lemma EnableFresh(w: World, id: RequestId)
    requires FreshDraws(w) && id in w.requests && (w.requests[id].EnableReading? || w.requests[id].Enabling?)
    ensures FreshDraws(Advance(w, id))
  {
    DeletingFresh(w, Advance(w, id), id);
  }

  lemma UseFresh(w: World, id: RequestId)
    requires FreshDraws(w) && id in w.requests && (w.requests[id].LookingUp? || w.requests[id].Marking?)
    ensures FreshDraws(Advance(w, id))
  {
    DeletingFresh(w, Advance(w, id), id);
  }

  lemma RunFresh(w: World, id: RequestId)
    requires FreshDraws(w) && id in w.requests
    ensures FreshDraws(Advance(w, id))
  {
    match w.requests[id]
    case SetupChecking(_, _, _) => CheckFresh(w, id);
    case SettingUp(_, _, _, _) => SetupFresh(w, id);
    case Disabling(_, _) => DisableFresh(w, id);
    case LookingUp(_, _) => UseFresh(w, id);
    case Marking(_, _) => UseFresh(w, id);
    case Over =>
    case _ => EnableFresh(w, id);
  }

  // ---- what the statements say

  /** Secrets inserted since the last deletion. */
  function SecretsBy(log: seq<Statement>, u: UserId): nat {
    if log == [] then 0
    else
      var s, before := log[|log| - 1], SecretsBy(log[..|log| - 1], u);
      if s.user != u then before
      else if s.InsertedSecret? then before + 1
      else if s.DeletedSecrets? || s.Removed? then 0
      else before
  }

  /** Batches of codes inserted since the last deletion. */
  function BatchesBy(log: seq<Statement>, u: UserId): nat {
    if log == [] then 0
    else
      var s, before := log[|log| - 1], BatchesBy(log[..|log| - 1], u);
      if s.user != u then before
      else if s.InsertedCodes? then before + 1
      else if s.DeletedCodes? || s.Removed? then 0
      else before
  }

  function FlagBy(log: seq<Statement>, u: UserId): bool {
    if log == [] then false
    else
      var s := log[|log| - 1];
      if s.user == u && s.SetFlag? then s.on
      else if s.user == u && s.Removed? then false
      else FlagBy(log[..|log| - 1], u)
  }

  /** The sizes of one user's rows are those the statements give. */
  ghost predicate Tallies(db: Db, u: UserId, log: seq<Statement>) {
    |SecretsOf(db, u)| == SecretsBy(log, u) && |CodesOf(db.codes, u)| == CODE_COUNT * BatchesBy(log, u) &&
    (if u in db.users then db.users[u] == FlagBy(log, u) else !FlagBy(log, u)) && |SecretsOf(db, u)| <= 1
  }

  lemma Logged(log: seq<Statement>, s: Statement)
    ensures (log + [s])[..|log|] == log
  {
  }

  lemma Then(log: seq<Statement>, s: Statement)
    ensures SecretsBy(log + [s], s.user) ==
      if s.InsertedSecret? then SecretsBy(log, s.user) + 1
      else if s.DeletedSecrets? || s.Removed? then 0 else SecretsBy(log, s.user)
    ensures BatchesBy(log + [s], s.user) ==
      if s.InsertedCodes? then BatchesBy(log, s.user) + 1
      else if s.DeletedCodes? || s.Removed? then 0 else BatchesBy(log, s.user)
    ensures FlagBy(log + [s], s.user) == if s.SetFlag? then s.on else !s.Removed? && FlagBy(log, s.user)
  {
    Logged(log, s);
  }

  lemma OtherTallies(db: Db, db': Db, log: seq<Statement>, s: Statement, v: UserId)
    requires Tallies(db, v, log) && s.user != v && H.Untouched(db, db', v)
    ensures Tallies(db', v, log + [s])
  {
    Logged(log, s);
  }

  lemma DeleteSecretsTallies(db: Db, log: seq<Statement>, u: UserId, v: UserId)
    requires Tallies(db, v, log)
    ensures Tallies(DeleteSecrets(db, u), v, log + [DeletedSecrets(u)])
  {
    Logged(log, DeletedSecrets(u));
    if v == u { assert SecretsOf(DeleteSecrets(db, u), u) == {}; }
    else { OtherTallies(db, DeleteSecrets(db, u), log, DeletedSecrets(u), v); }
  }

  lemma DeleteCodesTallies(db: Db, log: seq<Statement>, u: UserId, v: UserId)
    requires Tallies(db, v, log)
    ensures Tallies(DeleteCodes(db, u), v, log + [DeletedCodes(u)])
  {
    Logged(log, DeletedCodes(u));
    if v == u {
      assert CodesOf(DeleteCodes(db, u).codes, u) == {} && SecretsOf(DeleteCodes(db, u), u) == SecretsOf(db, u);
    } else { OtherTallies(db, DeleteCodes(db, u), log, DeletedCodes(u), v); }
  }

  lemma InsertSecretTallies(db: Db, log: seq<Statement>, secret: SecretId, u: UserId, v: UserId)
    requires Tallies(db, v, log) && CanInsertSecret(db, secret, u)
    ensures Tallies(db.(secrets := db.secrets[secret := u]), v, log + [InsertedSecret(u)])
  {
    var db' := db.(secrets := db.secrets[secret := u]);
    Logged(log, InsertedSecret(u));
    if v == u { assert SecretsOf(db', u) == {secret}; }
    else { OtherTallies(db, db', log, InsertedSecret(u), v); }
  }

  lemma InsertCodesTallies(db: Db, log: seq<Statement>, ids: seq<CodeId>, u: UserId, v: UserId)
    requires Tallies(db, v, log) && InsertCodes(db.codes, u, ids).Some? && |ids| == CODE_COUNT
    ensures Tallies(db.(codes := InsertCodes(db.codes, u, ids).value), v, log + [InsertedCodes(u)])
  {
    var db' := db.(codes := InsertCodes(db.codes, u, ids).value);
    Logged(log, InsertedCodes(u));
    assert SecretsOf(db', v) == SecretsOf(db, v);
    if v == u { MoreCodes(db.codes, u, ids); }
    else {
      H.BatchTouchesOne(db.codes, u, ids, v);
      OtherTallies(db, db', log, InsertedCodes(u), v);
    }
  }

  lemma MoreCodes(codes: map<CodeId, Code>, u: UserId, ids: seq<CodeId>)
    requires InsertCodes(codes, u, ids).Some?
    ensures |CodesOf(InsertCodes(codes, u, ids).value, u)| == |CodesOf(codes, u)| + |ids|
  {
    H.InsertCodesIff(codes, u, ids);
    H.InsertCodesRows(codes, u, ids);
    C.DistinctSize(ids);
    assert CodesOf(InsertCodes(codes, u, ids).value, u) == CodesOf(codes, u) + C.Elements(ids);
  }

  lemma FlagTallies(db: Db, log: seq<Statement>, u: UserId, on: bool, v: UserId)
    requires Tallies(db, v, log) && (u in db.users || !on)
    ensures Tallies(db.(users := db.users[u := on]), v, log + [SetFlag(u, on)])
  {
    var db' := db.(users := db.users[u := on]);
    Logged(log, SetFlag(u, on));
    assert SecretsOf(db', v) == SecretsOf(db, v);
    if v != u { OtherTallies(db, db', log, SetFlag(u, on), v); }
  }

  lemma RemoveTallies(db: Db, log: seq<Statement>, u: UserId, v: UserId)
    requires Tallies(db, v, log)
    ensures Tallies(H.Cascade(db, u), v, log + [Removed(u)])
  {
    Logged(log, Removed(u));
    if v == u {
      assert SecretsOf(H.Cascade(db, u), u) == {} && CodesOf(H.Cascade(db, u).codes, u) == {};
    } else {
      H.CascadeTouchesOne(db, u, v);
      OtherTallies(db, H.Cascade(db, u), log, Removed(u), v);
    }
  }

  lemma MarkTallies(db: Db, log: seq<Statement>, c: CodeId, v: UserId)
    requires Tallies(db, v, log)
    ensures Tallies(MarkUsed(db, c), v, log)
  {
    var db' := MarkUsed(db, c);
    assert SecretsOf(db', v) == SecretsOf(db, v) && CodesOf(db'.codes, v) == CodesOf(db.codes, v);
  }

  lemma AdvanceTallies(w: World, id: RequestId, v: UserId)
    requires id in w.requests && Tallies(w.db, v, w.log) && FreshDraws(w)
    ensures Tallies(Advance(w, id).db, v, Advance(w, id).log)
  {
    var r := w.requests[id];
    if r.SettingUp? {
      if r.done == 0 { DeleteSecretsTallies(w.db, w.log, r.user, v); }
      else if r.done == 1 { DeleteCodesTallies(w.db, w.log, r.user, v); }
      else if r.done == 2 {
        if CanInsertSecret(w.db, r.secret, r.user) { InsertSecretTallies(w.db, w.log, r.secret, r.user, v); }
      } else if InsertCodes(w.db.codes, r.user, r.ids).Some? {
        assert Waiting(w, r);
        InsertCodesTallies(w.db, w.log, r.ids, r.user, v);
      }
    } else if r.Disabling? {
      if r.done == 0 { DeleteSecretsTallies(w.db, w.log, r.user, v); }
      else if r.done == 1 { DeleteCodesTallies(w.db, w.log, r.user, v); }
      else { FlagTallies(w.db, w.log, r.user, false, v); }
    } else if r.Enabling? {
      if r.user in w.db.users { FlagTallies(w.db, w.log, r.user, true, v); }
    } else if r.Marking? {
      MarkTallies(w.db, w.log, r.code, v);
    }
  }

  lemma StepTallies(w: World, a: Action, v: UserId)
    requires Tallies(w.db, v, w.log) && FreshDraws(w)
    ensures Tallies(Apply(w, a).db, v, Apply(w, a).log)
  {
    if a.Run? && a.id in w.requests { AdvanceTallies(w, a.id, v); }
    else if a.AddUser? && a.user !in w.db.users { FlagTallies(w.db, w.log, a.user, false, v); }
    else if a.RemoveUser? { RemoveTallies(w.db, w.log, a.user, v); }
  }

  lemma {:induction false} ExecTallies(w: World, schedule: seq<Action>, v: UserId)
    requires Tallies(w.db, v, w.log) && FreshDraws(w)
    ensures Tallies(Exec(w, schedule).db, v, Exec(w, schedule).log) && FreshDraws(Exec(w, schedule))
    decreases |schedule|
  {
    if schedule != [] {
      ApplyFresh(w, schedule[0]);
      StepTallies(w, schedule[0], v);
      ExecTallies(Apply(w, schedule[0]), schedule[1..], v);
    }
  }

  // ---- two such races

  ghost predicate Reachable(w: World) {
    exists schedule :: Exec(START, schedule) == w
  }

  lemma {:induction false} OneMoreStep(w: World, schedule: seq<Action>, a: Action)
    ensures Exec(w, schedule + [a]) == Apply(Exec(w, schedule), a)
    decreases |schedule|
  {
    if schedule == [] {
      assert [a][1..] == [] && schedule + [a] == [a];
    } else {
      assert (schedule + [a])[1..] == schedule[1..] + [a];
      OneMoreStep(Apply(w, schedule[0]), schedule[1..], a);
    }
  }

  lemma StepReachable(w: World, a: Action)
    requires Reachable(w)
    ensures Reachable(Apply(w, a))
  {
    var schedule :| Exec(START, schedule) == w;
    OneMoreStep(START, schedule, a);
  }

  /** A request that has come in. */
  lemma Arrived(w: World, id: RequestId, r: Request) returns (w': World)
    requires Reachable(w) && id !in w.requests && Arrives(r)
    requires r.SetupChecking? ==> FreshDraw(w, r.secret, r.ids)
    ensures Reachable(w') && w'.db == w.db && w'.log == w.log && w'.requests == w.requests[id := r]
    ensures w'.secrets == w.secrets + if r.SetupChecking? then {r.secret} else {}
    ensures w'.codes == w.codes + if r.SetupChecking? then C.Elements(r.ids) else {}
  {
    StepReachable(w, Arrive(id, r));
    w' := Apply(w, Arrive(id, r));
  }

  /** A step of a setup or a disable that adds one statement to the log and moves on. */
  lemma Ran(w: World, id: RequestId) returns (w': World)
    requires Reachable(w) && id in w.requests
    ensures Reachable(w') && w' == Advance(w, id)
  {
    StepReachable(w, Run(id));
    w' := Apply(w, Run(id));
  }

  lemma Account() returns (w: World)
    ensures Reachable(w) && w == World(Db(map[0 := false], map[], map[], map[]), map[], map[],
      [SetFlag(0, false)], {}, {})
  {
    assert Exec(START, []) == START;
    StepReachable(START, AddUser(0));
    w := Apply(START, AddUser(0));
  }

  /** A setup of user 0 up to its third statement. */
  lemma SetUpToSecret(w: World, id: RequestId, secret: SecretId, ids: seq<CodeId>) returns (w': World)
    requires Reachable(w) && id in w.requests && w.requests[id] == SettingUp(0, secret, ids, 0)
    requires 0 in w.db.users && secret !in w.db.secrets
    ensures Reachable(w') && w'.requests == w.requests[id := SettingUp(0, secret, ids, 3)] && w'.db.users == w.db.users
    ensures w'.db.secrets == DeleteSecrets(w.db, 0).secrets[secret := 0] && w'.db.codes == DeleteCodes(w.db, 0).codes
    ensures w'.log == w.log + [DeletedSecrets(0)] + [DeletedCodes(0)] + [InsertedSecret(0)]
  {
    var w1 := Ran(w, id);
    var w2 := Ran(w1, id);
    assert SecretsOf(w2.db, 0) == {};
    w' := Ran(w2, id);
  }

  /** A whole disable of user 0. */
  lemma DisableAll(w: World, id: RequestId) returns (w': World)
    requires Reachable(w) && id in w.requests && w.requests[id] == Disabling(0, 0) && 0 in w.db.users
    ensures Reachable(w') && w'.requests == w.requests[id := Over] && w'.db.users == w.db.users[0 := false]
    ensures w'.log == w.log + [DeletedSecrets(0)] + [DeletedCodes(0)] + [SetFlag(0, false)]
  {
    var w1 := Ran(w, id);
    var w2 := Ran(w1, id);
    w' := Ran(w2, id);
  }

  /** An enable reads the secret, a disable takes everything away, and the enable turns MFA on: on with no secret. */
  lemma EnabledWithoutSecret() returns (w: World)
    ensures Reachable(w) && 0 in w.db.users && w.db.users[0] && SecretsOf(w.db, 0) == {} && !H.Consistent(w.db, 0)
  {
    var w1 := SecretRead();
    var w2 := Arrived(w1, 3, Disabling(0, 0));
    var w3 := DisableAll(w2, 3);
    w := Ran(w3, 2);
    NoSecretLeft(w3, w);
  }

  /** A setup has put in a secret, and an enable has read it. */
  lemma SecretRead() returns (w: World)
    ensures Reachable(w) && 0 in w.db.users && 3 !in w.requests && 2 in w.requests && w.requests[2] == Enabling(0)
  {
    var w0 := Account();
    var w1 := Arrived(w0, 1, SetupChecking(0, 7, Eight(0)));
    var w2 := Ran(w1, 1);
    var w3 := SetUpToSecret(w2, 1, 7, Eight(0));
    var w4 := Arrived(w3, 2, EnableReading(0, true));
    assert 7 in SecretsOf(w4.db, 0);
    w := Ran(w4, 2);
  }

  lemma NoSecretLeft(w: World, w': World)
    requires Reachable(w') && w'.log == w.log + [SetFlag(0, true)] && 0 in w'.db.users && w'.db.users[0]
    requires exists log :: w.log == log + [DeletedSecrets(0)] + [DeletedCodes(0)] + [SetFlag(0, false)]
    ensures SecretsOf(w'.db, 0) == {} && !H.Consistent(w'.db, 0)
  {
    var log :| w.log == log + [DeletedSecrets(0)] + [DeletedCodes(0)] + [SetFlag(0, false)];
    var schedule :| Exec(START, schedule) == w';
    assert SecretsOf(START.db, 0) == {} && CodesOf(START.db.codes, 0) == {};
    ExecTallies(START, schedule, 0);
    Then(log, DeletedSecrets(0));
    Then(log + [DeletedSecrets(0)], DeletedCodes(0));
    Then(log + [DeletedSecrets(0)] + [DeletedCodes(0)], SetFlag(0, false));
    Then(w.log, SetFlag(0, true));
  }

  /** The eight numbers from first on. */
  function Eight(first: CodeId): seq<CodeId> {
    seq(CODE_COUNT, i => first + i)
  }

  lemma EightsDiffer()
    ensures C.Distinct(Eight(0)) && C.Distinct(Eight(8)) && C.Elements(Eight(0)) !! C.Elements(Eight(8))
  {
  }

  /** Both batches go in. */
  lemma BothBatches(w1: World) returns (w: World)
    requires Reachable(w1) && w1.db.codes == map[] && 0 in w1.db.users
    requires w1.requests == map[1 := SettingUp(0, 7, Eight(0), 3), 2 := SettingUp(0, 8, Eight(8), 3)]
    ensures Reachable(w) && w.log == w1.log + [InsertedCodes(0)] + [InsertedCodes(0)]
  {
    EightsDiffer();
    var w2 := CodesIn(w1, 1, 7, Eight(0));
    H.InsertCodesRows(w1.db.codes, 0, Eight(0));
    assert w2.db.codes.Keys == C.Elements(Eight(0));
    w := CodesIn(w2, 2, 8, Eight(8));
  }

  /** Two setups have both got past their deletions; the log ends with those of the second. */
  lemma BothDeleted() returns (w: World, log: seq<Statement>)
    ensures Reachable(w) && w.db.codes == map[] && 0 in w.db.users
    ensures w.requests == map[1 := SettingUp(0, 7, Eight(0), 3), 2 := SettingUp(0, 8, Eight(8), 3)]
    ensures w.log == log + [DeletedSecrets(0)] + [DeletedCodes(0)] + [InsertedSecret(0)]
  {
    var w0 := Account();
    var w1 := Arrived(w0, 1, SetupChecking(0, 7, Eight(0)));
    var w2 := Arrived(w1, 2, SetupChecking(0, 8, Eight(8)));
    var w3 := Ran(w2, 1);
    var w4 := Ran(w3, 2);
    var w5 := SetUpToSecret(w4, 1, 7, Eight(0));
    w := SetUpToSecret(w5, 2, 8, Eight(8));
    log := w5.log;
    assert DeleteCodes(w4.db, 0).codes == map[];
  }

  lemma TwoBatches(w: World, log: seq<Statement>)
    requires Reachable(w)
    requires w.log == log + [DeletedSecrets(0)] + [DeletedCodes(0)] + [InsertedSecret(0)] + [InsertedCodes(0)] +
      [InsertedCodes(0)]
    ensures |SecretsOf(w.db, 0)| == 1 && |CodesOf(w.db.codes, 0)| == 2 * CODE_COUNT
  {
    var schedule :| Exec(START, schedule) == w;
    assert SecretsOf(START.db, 0) == {} && CodesOf(START.db.codes, 0) == {};
    ExecTallies(START, schedule, 0);
    var log2 := log + [DeletedSecrets(0)] + [DeletedCodes(0)];
    Then(log, DeletedSecrets(0));
    Then(log + [DeletedSecrets(0)], DeletedCodes(0));
    Then(log2, InsertedSecret(0));
    Then(log2 + [InsertedSecret(0)], InsertedCodes(0));
    Then(log2 + [InsertedSecret(0)] + [InsertedCodes(0)], InsertedCodes(0));
  }

  /** Two setups whose deletions both come before either's codes: one secret and sixteen codes. */
  lemma SixteenCodes() returns (w: World)
    ensures Reachable(w) && |SecretsOf(w.db, 0)| == 1 && |CodesOf(w.db.codes, 0)| == 2 * CODE_COUNT
    ensures !H.Consistent(w.db, 0)
  {
    var w1, log := BothDeleted();
    w := BothBatches(w1);
    TwoBatches(w, log);
  }

  /** The last statement of a setup of user 0 with new codes. */
  lemma CodesIn(w: World, id: RequestId, secret: SecretId, ids: seq<CodeId>) returns (w': World)
    requires Reachable(w) && id in w.requests && w.requests[id] == SettingUp(0, secret, ids, 3) && 0 in w.db.users
    requires |ids| == CODE_COUNT && C.Distinct(ids) && C.Elements(ids) !! w.db.codes.Keys
    ensures Reachable(w') && w'.requests == w.requests[id := Over] && w'.db.users == w.db.users
    ensures InsertCodes(w.db.codes, 0, ids).Some? && w'.db.codes == InsertCodes(w.db.codes, 0, ids).value
    ensures w'.log == w.log + [InsertedCodes(0)]
  {
    H.InsertCodesIff(w.db.codes, 0, ids);
    w' := Ran(w, id);
  }
}
