/**
 * What the order of their statements makes of any number of MFA setups, enables and disables of one user that are
 * under way at the same time (pkg/auth/mfa.go): the tables they leave, and exactly when those are consistent, read
 * off the schedule alone.
 */
module EnrolmentOrder {
  import opened Prelude
  import opened MfaEnrolment
  import opened EnrolmentRaces
  import H = MfaHistory

  /** The requests under way in a state, one user, and what happens from then on. */
  datatype Race = Race(start: World, user: UserId, schedule: seq<Action>)

  datatype Write = DeleteSecrets | DeleteCodes | InsertSecret | InsertCodes | ReadSecret | TurnOn | TurnOff | Nothing

  /** A setup past its check, an enable, or a disable, none of whose writes has been made. */
  predicate Writes(r: Request, u: UserId) {
    ((r.SettingUp? || r.Disabling?) && r.user == u && r.done == 0) || ((r.EnableReading? || r.Enabling?) && r.user == u)
  }

  predicate Bystander(r: Request, u: UserId) {
    r.Over? || r.LookingUp? || r.Marking? || r.user != u
  }

  predicate IsWriter(c: Race, id: RequestId) {
    id in c.start.requests && Writes(c.start.requests[id], c.user)
  }

  /** Nothing else writes to the rows of the user, who stays, and no writer is broken off. */
  predicate Quiet(c: Race) {
    c.user in c.start.db.users &&
    (forall id | id in c.start.requests :: IsWriter(c, id) || Bystander(c.start.requests[id], c.user)) &&
    forall t | 0 <= t < |c.schedule| ::
      match c.schedule[t]
      case Arrive(_, r) => Bystander(r, c.user)
      case Abort(id) => !IsWriter(c, id)
      case RemoveUser(v) => v != c.user
      case _ => true
  }

  /** How many steps of a request come before place n of the schedule. */
  function Taken(c: Race, id: RequestId, n: nat): nat {
    if n == 0 then 0 else Taken(c, id, n - 1) + if n <= |c.schedule| && c.schedule[n - 1] == Run(id) then 1 else 0
  }

  /** The statement of a writer at place t. */
  function WriteAt(c: Race, t: nat): Write {
    if t >= |c.schedule| || !c.schedule[t].Run? || !IsWriter(c, c.schedule[t].id) then Nothing
    else StepOf(c.start.requests[c.schedule[t].id], Taken(c, c.schedule[t].id, t))
  }

  function StepOf(r: Request, k: nat): Write {
    match r
    case SettingUp(_, _, _, _) =>
      [DeleteSecrets, DeleteCodes, InsertSecret, InsertCodes, Nothing][if k < 4 then k else 4]
    case Disabling(_, _) => [DeleteSecrets, DeleteCodes, TurnOff, Nothing][if k < 3 then k else 3]
    case EnableReading(_, _) => [ReadSecret, TurnOn, Nothing][if k < 2 then k else 2]
    case Enabling(_) => if k == 0 then TurnOn else Nothing
    case _ => Nothing
  }

  // ---- what the order says

  /** At place n it is on: it was switched on last, or was on at the beginning and never switched off. */
  ghost predicate Stands(on: nat -> bool, off: nat -> bool, initially: bool, n: nat) {
    (exists t: nat | t < n :: on(t) && NoneIn(off, t + 1, n)) || (initially && NoneIn(off, 0, n))
  }

  ghost predicate NoneIn(p: nat -> bool, from: nat, to: nat) {
    forall s: nat | from <= s < to :: !p(s)
  }

  ghost function At(c: Race, write: Write): nat -> bool {
    (t: nat) => WriteAt(c, t) == write
  }

  /** At place n the user has a secret. */
  ghost predicate HasSecret(c: Race, n: nat) {
    Stands(At(c, InsertSecret), At(c, DeleteSecrets), SecretsOf(c.start.db, c.user) != {}, n)
  }

  /** Before place n the setup has put in its secret: where it tried there was none. */
  ghost predicate WentIn(c: Race, id: RequestId, n: nat) {
    exists t: nat | t < n ::
      t < |c.schedule| && c.schedule[t] == Run(id) && WriteAt(c, t) == InsertSecret && !HasSecret(c, t)
  }

  /** Before place n the enable has found a secret, and its code was right. */
  ghost predicate Passed(c: Race, id: RequestId, n: nat) {
    id in c.start.requests && c.start.requests[id].EnableReading? && c.start.requests[id].codeOk &&
    exists t: nat | t < n ::
      t < |c.schedule| && c.schedule[t] == Run(id) && WriteAt(c, t) == ReadSecret && HasSecret(c, t)
  }

  ghost predicate TurnsOn(c: Race, t: nat) {
    WriteAt(c, t) == TurnOn && (c.start.requests[c.schedule[t].id].Enabling? || Passed(c, c.schedule[t].id, t))
  }

  ghost function TurningOn(c: Race): nat -> bool {
    (t: nat) => TurnsOn(c, t)
  }

  ghost predicate FlagOn(c: Race, n: nat) {
    Stands(TurningOn(c), At(c, TurnOff), c.user in c.start.db.users && c.start.db.users[c.user], n)
  }

  ghost predicate AddsCodes(c: Race, t: nat) {
    WriteAt(c, t) == InsertCodes && WentIn(c, c.schedule[t].id, t)
  }

  ghost predicate NoDeletion(c: Race, from: nat, to: nat) {
    forall s: nat | from <= s < to :: WriteAt(c, s) != DeleteCodes
  }

  /** The batches of codes the user has at place n, by the places where they went in. */
  ghost function Batches(c: Race, n: nat): set<nat> {
    set t: nat | t < n && AddsCodes(c, t) && NoDeletion(c, t + 1, n)
  }

  /** How many codes are left from the beginning. */
  ghost function OldCodes(c: Race, n: nat): nat {
    if NoDeletion(c, 0, n) then |CodesOf(c.start.db.codes, c.user)| else 0
  }

  lemma StandsStep(on: nat -> bool, off: nat -> bool, initially: bool, n: nat)
    requires !(on(n) && off(n))
    ensures Stands(on, off, initially, n + 1) <==> on(n) || (!off(n) && Stands(on, off, initially, n))
  {
    if on(n) {
      assert NoneIn(off, n + 1, n + 1);
    } else if !off(n) {
      if Stands(on, off, initially, n) {
        StandsOn(on, off, initially, n);
      } else if t: nat :| t < n + 1 && on(t) && NoneIn(off, t + 1, n + 1) {
        assert t < n && NoneIn(off, t + 1, n);
      }
    }
  }

  lemma StandsOn(on: nat -> bool, off: nat -> bool, initially: bool, n: nat)
    requires !off(n) && Stands(on, off, initially, n)
    ensures Stands(on, off, initially, n + 1)
  {
    if t: nat :| t < n && on(t) && NoneIn(off, t + 1, n) { assert NoneIn(off, t + 1, n + 1); }
    else { assert NoneIn(off, 0, n + 1); }
  }

  lemma SecretStep(c: Race, n: nat)
    ensures HasSecret(c, n + 1) <==>
      WriteAt(c, n) == InsertSecret || (WriteAt(c, n) != DeleteSecrets && HasSecret(c, n))
  {
    StandsStep(At(c, InsertSecret), At(c, DeleteSecrets), SecretsOf(c.start.db, c.user) != {}, n);
  }

  lemma FlagStep(c: Race, n: nat)
    ensures FlagOn(c, n + 1) <==> TurnsOn(c, n) || (WriteAt(c, n) != TurnOff && FlagOn(c, n))
  {
    StandsStep(TurningOn(c), At(c, TurnOff), c.user in c.start.db.users && c.start.db.users[c.user], n);
  }

  lemma BatchStep(c: Race, n: nat)
    ensures WriteAt(c, n) == DeleteCodes ==> Batches(c, n + 1) == {} && OldCodes(c, n + 1) == 0
    ensures WriteAt(c, n) != DeleteCodes ==>
      Batches(c, n + 1) == Batches(c, n) + (if AddsCodes(c, n) then {n} else {}) && OldCodes(c, n + 1) == OldCodes(c, n)
  {
    DeletionStep(c, 0, n);
    forall t: nat | t < n + 1 && AddsCodes(c, t)
      ensures NoDeletion(c, t + 1, n + 1) <==> t == n || (WriteAt(c, n) != DeleteCodes && NoDeletion(c, t + 1, n))
    {
      if t < n { DeletionStep(c, t + 1, n); }
    }
  }

  lemma DeletionStep(c: Race, from: nat, n: nat)
    requires from <= n
    ensures NoDeletion(c, from, n + 1) <==> WriteAt(c, n) != DeleteCodes && NoDeletion(c, from, n)
  {
  }

  lemma WentInStep(c: Race, id: RequestId, n: nat)
    ensures WentIn(c, id, n + 1) <==>
      WentIn(c, id, n) ||
      (n < |c.schedule| && c.schedule[n] == Run(id) && WriteAt(c, n) == InsertSecret && !HasSecret(c, n))
  {
  }

  lemma PassedStep(c: Race, id: RequestId, n: nat)
    requires id in c.start.requests && c.start.requests[id].EnableReading?
    ensures Passed(c, id, n + 1) <==>
      Passed(c, id, n) ||
      (c.start.requests[id].codeOk && n < |c.schedule| && c.schedule[n] == Run(id) && WriteAt(c, n) == ReadSecret &&
        HasSecret(c, n))
  {
  }

  // ---- the run follows it

  /** Where a writer is at place n. */
  ghost function Expected(c: Race, id: RequestId, n: nat): Request
    requires IsWriter(c, id)
  {
    var r, k := c.start.requests[id], Taken(c, id, n);
    match r
    case SettingUp(u, secret, ids, _) =>
      if k <= 2 || (k == 3 && WentIn(c, id, n)) then SettingUp(u, secret, ids, k) else Over
    case Disabling(u, _) => if k <= 2 then Disabling(u, k) else Over
    case EnableReading(u, codeOk) => if k == 0 then r else if k == 1 && Passed(c, id, n) then Enabling(u) else Over
    case _ => if k == 0 then r else Over
  }

  ghost predicate RequestsMatch(c: Race, n: nat, w: World) {
    (forall id | IsWriter(c, id) :: id in w.requests && w.requests[id] == Expected(c, id, n)) &&
    forall id | id in w.requests && !IsWriter(c, id) :: Bystander(w.requests[id], c.user)
  }

  ghost predicate RowsMatch(c: Race, n: nat, w: World) {
    c.user in w.db.users && (SecretsBy(w.log, c.user) > 0 <==> HasSecret(c, n)) &&
    (FlagBy(w.log, c.user) <==> FlagOn(c, n)) &&
    CODE_COUNT * BatchesBy(w.log, c.user) == CODE_COUNT * |Batches(c, n)| + OldCodes(c, n)
  }

  ghost predicate Matches(c: Race, n: nat, w: World) {
    FreshDraws(w) && Tallies(w.db, c.user, w.log) && RequestsMatch(c, n, w) && RowsMatch(c, n, w)
  }

  /** The last statement of the log, if any, is another user's. */
  ghost predicate Spared(log: seq<Statement>, log': seq<Statement>, u: UserId) {
    log' == log || exists s: Statement :: s.user != u && log' == log + [s]
  }

  lemma SparedSays(log: seq<Statement>, log': seq<Statement>, u: UserId)
    requires Spared(log, log', u)
    ensures SecretsBy(log', u) == SecretsBy(log, u) && BatchesBy(log', u) == BatchesBy(log, u) &&
      FlagBy(log', u) == FlagBy(log, u)
  {
    if log' != log {
      var s: Statement :| s.user != u && log' == log + [s];
      Logged(log, s);
    }
  }

  /** A step of no writer leaves the user's rows alone. */
  lemma BystanderStep(c: Race, n: nat, w: World)
    requires Quiet(c) && n < |c.schedule| && RequestsMatch(c, n, w) && c.user in w.db.users
    requires c.schedule[n].Run? ==> !IsWriter(c, c.schedule[n].id)
    ensures var w' := Apply(w, c.schedule[n]);
      c.user in w'.db.users && Spared(w.log, w'.log, c.user) && RequestsMatch(c, n + 1, w')
  {
    var a, w' := c.schedule[n], Apply(w, c.schedule[n]);
    if a.Run? && a.id in w.requests {
      assert Bystander(w.requests[a.id], c.user);
      OtherUsersStep(w, a.id, c.user);
    } else if a.RemoveUser? {
      assert w'.log == w.log + [Removed(a.user)];
    }
    forall id | IsWriter(c, id)
      ensures id in w'.requests && w'.requests[id] == Expected(c, id, n + 1)
    {
      Unmoved(c, id, n);
    }
  }

  /** A writer that does not run stays where it is. */
  lemma Unmoved(c: Race, id: RequestId, n: nat)
    requires IsWriter(c, id) && n < |c.schedule| && c.schedule[n] != Run(id)
    ensures Expected(c, id, n + 1) == Expected(c, id, n)
  {
    WentInStep(c, id, n);
    if c.start.requests[id].EnableReading? { PassedStep(c, id, n); }
  }

  lemma OtherUsersStep(w: World, id: RequestId, u: UserId)
    requires id in w.requests && Bystander(w.requests[id], u)
    ensures var w' := Advance(w, id);
      Spared(w.log, w'.log, u) && (u in w.db.users ==> u in w'.db.users) &&
      w'.requests == w.requests[id := w'.requests[id]] && Bystander(w'.requests[id], u)
  {
    var r := w.requests[id];
    if r.SettingUp? { OtherUsersSetup(w, id, u); }
    else if r.Disabling? { OtherUsersDisable(w, id, u); }
    else if r.Enabling? && r.user in w.db.users { assert Advance(w, id).log == w.log + [SetFlag(r.user, true)]; }
  }

  lemma OtherUsersSetup(w: World, id: RequestId, u: UserId)
    requires id in w.requests && w.requests[id].SettingUp? && w.requests[id].user != u
    ensures var w' := AdvanceSetup(w, id);
      Spared(w.log, w'.log, u) && w'.db.users == w.db.users &&
      w'.requests == w.requests[id := w'.requests[id]] && Bystander(w'.requests[id], u)
  {
    var r, w' := w.requests[id], AdvanceSetup(w, id);
    if w'.log != w.log { assert w'.log == w.log + [w'.log[|w.log|]]; }
  }

  lemma OtherUsersDisable(w: World, id: RequestId, u: UserId)
    requires id in w.requests && w.requests[id].Disabling? && w.requests[id].user != u
    ensures var w' := AdvanceDisable(w, id);
      Spared(w.log, w'.log, u) && (u in w.db.users ==> u in w'.db.users) &&
      w'.requests == w.requests[id := w'.requests[id]] && Bystander(w'.requests[id], u)
  {
    var r, w' := w.requests[id], AdvanceDisable(w, id);
    if w'.log != w.log { assert w'.log == w.log + [w'.log[|w.log|]]; }
  }

  /** The log after a writer's statement, as the order has it. */
  ghost function LogAfter(c: Race, n: nat, log: seq<Statement>): seq<Statement> {
    match WriteAt(c, n)
    case DeleteSecrets => log + [DeletedSecrets(c.user)]
    case DeleteCodes => log + [DeletedCodes(c.user)]
    case InsertSecret => if HasSecret(c, n) then log else log + [InsertedSecret(c.user)]
    case InsertCodes => if AddsCodes(c, n) then log + [InsertedCodes(c.user)] else log
    case TurnOn => if TurnsOn(c, n) then log + [SetFlag(c.user, true)] else log
    case TurnOff => log + [SetFlag(c.user, false)]
    case _ => log
  }

  /** A writer about to take its next step, from where the order has it. */
  ghost predicate Runs(c: Race, n: nat, w: World, id: RequestId) {
    n < |c.schedule| && c.schedule[n] == Run(id) && IsWriter(c, id) && c.user in w.db.users &&
    id in w.requests && w.requests[id] == Expected(c, id, n)
  }

  /** It takes the step as the order has it. */
  ghost predicate StepFollows(c: Race, n: nat, w: World, id: RequestId)
    requires Runs(c, n, w, id)
  {
    var w' := Advance(w, id);
    w'.requests == w.requests[id := Expected(c, id, n + 1)] && c.user in w'.db.users &&
    w'.log == LogAfter(c, n, w.log)
  }

  /** What the tables have to say to it. */
  ghost predicate TablesAgree(c: Race, n: nat, w: World, id: RequestId)
    requires Runs(c, n, w, id)
  {
    Waiting(w, w.requests[id]) && (SecretsOf(w.db, c.user) != {} <==> HasSecret(c, n))
  }

  lemma SetupStep(c: Race, n: nat, w: World, id: RequestId)
    requires Runs(c, n, w, id) && TablesAgree(c, n, w, id) && c.start.requests[id].SettingUp?
    ensures StepFollows(c, n, w, id)
  {
    var k := Taken(c, id, n);
    if k < 2 { SetupDeletes(c, n, w, id); }
    else if k == 2 { SetupInsertsSecret(c, n, w, id); }
    else if k == 3 { SetupInsertsCodes(c, n, w, id); }
  }

  lemma SetupDeletes(c: Race, n: nat, w: World, id: RequestId)
    requires Runs(c, n, w, id) && c.start.requests[id].SettingUp? && Taken(c, id, n) < 2
    ensures StepFollows(c, n, w, id)
  {
  }

  lemma SetupInsertsSecret(c: Race, n: nat, w: World, id: RequestId)
    requires Runs(c, n, w, id) && TablesAgree(c, n, w, id) && c.start.requests[id].SettingUp? && Taken(c, id, n) == 2
    ensures StepFollows(c, n, w, id)
  {
    NotYet(c, id, n);
    WentInStep(c, id, n);
  }

  /** A setup that has taken two steps has not tried to put in its secret. */
  lemma {:induction false} NotYet(c: Race, id: RequestId, n: nat)
    requires IsWriter(c, id) && c.start.requests[id].SettingUp? && Taken(c, id, n) <= 2
    ensures !WentIn(c, id, n)
  {
    if WentIn(c, id, n) {
      var t: nat :| t < n && t < |c.schedule| && c.schedule[t] == Run(id) && WriteAt(c, t) == InsertSecret;
      TakenGrows(c, id, t + 1, n);
    }
  }

  lemma {:induction false} TakenGrows(c: Race, id: RequestId, m: nat, n: nat)
    requires m <= n
    ensures Taken(c, id, m) <= Taken(c, id, n)
  {
    if m < n { TakenGrows(c, id, m, n - 1); }
  }

  lemma SetupInsertsCodes(c: Race, n: nat, w: World, id: RequestId)
    requires Runs(c, n, w, id) && TablesAgree(c, n, w, id) && c.start.requests[id].SettingUp? && Taken(c, id, n) == 3
    ensures StepFollows(c, n, w, id)
  {
    var r := w.requests[id];
    assert AddsCodes(c, n) <==> WentIn(c, id, n);
    if r.SettingUp? { H.InsertCodesIff(w.db.codes, r.user, r.ids); }
  }

  lemma DisableStep(c: Race, n: nat, w: World, id: RequestId)
    requires Runs(c, n, w, id) && c.start.requests[id].Disabling?
    ensures StepFollows(c, n, w, id)
  {
  }

  lemma EnableStep(c: Race, n: nat, w: World, id: RequestId)
    requires Runs(c, n, w, id) && TablesAgree(c, n, w, id) && c.start.requests[id].EnableReading?
    ensures StepFollows(c, n, w, id)
  {
    if Taken(c, id, n) == 0 { EnableReads(c, n, w, id); }
    else { EnableWrites(c, n, w, id); }
  }

  lemma EnableReads(c: Race, n: nat, w: World, id: RequestId)
    requires Runs(c, n, w, id) && TablesAgree(c, n, w, id)
    requires c.start.requests[id].EnableReading? && Taken(c, id, n) == 0
    ensures StepFollows(c, n, w, id)
  {
    NotPassedYet(c, id, n);
    PassedStep(c, id, n);
  }

  lemma EnableWrites(c: Race, n: nat, w: World, id: RequestId)
    requires Runs(c, n, w, id) && c.start.requests[id].EnableReading? && Taken(c, id, n) > 0
    ensures StepFollows(c, n, w, id)
  {
    PassedStep(c, id, n);
  }

  lemma {:induction false} NotPassedYet(c: Race, id: RequestId, n: nat)
    requires Taken(c, id, n) == 0
    ensures !Passed(c, id, n)
  {
    if Passed(c, id, n) {
      var t: nat :| t < n && t < |c.schedule| && c.schedule[t] == Run(id);
      TakenGrows(c, id, t + 1, n);
    }
  }

  lemma TurnOnStep(c: Race, n: nat, w: World, id: RequestId)
    requires Runs(c, n, w, id) && c.start.requests[id].Enabling?
    ensures StepFollows(c, n, w, id)
  {
  }

  lemma WriterStep(c: Race, n: nat, w: World, id: RequestId)
    requires Runs(c, n, w, id) && TablesAgree(c, n, w, id)
    ensures StepFollows(c, n, w, id)
  {
    match c.start.requests[id]
    case SettingUp(_, _, _, _) => SetupStep(c, n, w, id);
    case Disabling(_, _) => DisableStep(c, n, w, id);
    case EnableReading(_, _) => EnableStep(c, n, w, id);
    case Enabling(_) => TurnOnStep(c, n, w, id);
    case _ =>
  }

  /** What a logged statement, if any, does to the tallies. */
  lemma LogSays(c: Race, n: nat, log: seq<Statement>)
    ensures var log', u, at := LogAfter(c, n, log), c.user, WriteAt(c, n);
      SecretsBy(log', u) == (if at == DeleteSecrets then 0
        else SecretsBy(log, u) + if at == InsertSecret && !HasSecret(c, n) then 1 else 0) &&
      BatchesBy(log', u) == (if at == DeleteCodes then 0
        else BatchesBy(log, u) + if AddsCodes(c, n) then 1 else 0) &&
      (FlagBy(log', u) <==> TurnsOn(c, n) || (at != TurnOff && FlagBy(log, u)))
  {
    if LogAfter(c, n, log) != log {
      Then(log, LogAfter(c, n, log)[|log|]);
      assert LogAfter(c, n, log) == log + [LogAfter(c, n, log)[|log|]];
    }
  }

  lemma LogFollows(c: Race, n: nat, w: World, w': World)
    requires RowsMatch(c, n, w) && c.user in w'.db.users && w'.log == LogAfter(c, n, w.log)
    ensures RowsMatch(c, n + 1, w')
  {
    LogSays(c, n, w.log);
    SecretStep(c, n);
    FlagStep(c, n);
    BatchStep(c, n);
  }

  lemma WritersMatch(c: Race, n: nat, w: World, id: RequestId)
    requires Runs(c, n, w, id) && StepFollows(c, n, w, id) && RequestsMatch(c, n, w)
    ensures RequestsMatch(c, n + 1, Apply(w, Run(id)))
  {
    var w' := Apply(w, Run(id));
    forall j | IsWriter(c, j) ensures j in w'.requests && w'.requests[j] == Expected(c, j, n + 1) {
      if j != id { Unmoved(c, j, n); }
    }
  }

  lemma StepKeepsMatching(c: Race, n: nat, w: World)
    requires Quiet(c) && n < |c.schedule| && Matches(c, n, w)
    ensures Matches(c, n + 1, Apply(w, c.schedule[n]))
  {
    var a := c.schedule[n];
    ApplyFresh(w, a);
    StepTallies(w, a, c.user);
    if a.Run? && IsWriter(c, a.id) {
      WriterStep(c, n, w, a.id);
      LogFollows(c, n, w, Apply(w, a));
      WritersMatch(c, n, w, a.id);
    } else {
      BystanderStep(c, n, w);
      SparedSays(w.log, Apply(w, a).log, c.user);
      SecretStep(c, n);
      FlagStep(c, n);
      BatchStep(c, n);
    }
  }

  /** What every step takes from one place to the next holds at the end. */
  lemma {:induction false} HoldsAtEnd(holds: (nat, World) -> bool, w: World, s: seq<Action>, n: nat)
    requires holds(n, w)
    requires forall k: nat, v | n <= k < n + |s| && holds(k, v) :: holds(k + 1, Apply(v, s[k - n]))
    ensures holds(n + |s|, Exec(w, s))
    decreases |s|
  {
    if s != [] {
      assert holds(n + 1, Apply(w, s[n - n]));
      HoldsAtEnd(holds, Apply(w, s[0]), s[1..], n + 1);
    }
  }

  lemma StepsKeepMatching(c: Race, holds: (nat, World) -> bool)
    requires Quiet(c) && forall k, v :: holds(k, v) <==> Matches(c, k, v)
    ensures forall k: nat, v | k < |c.schedule| && holds(k, v) :: holds(k + 1, Apply(v, c.schedule[k - 0]))
  {
    forall k: nat, v | k < |c.schedule| && holds(k, v) ensures holds(k + 1, Apply(v, c.schedule[k - 0])) {
      StepKeepsMatching(c, k, v);
    }
  }

  lemma RunMatches(c: Race)
    requires Quiet(c) && Matches(c, 0, c.start)
    ensures Matches(c, |c.schedule|, Exec(c.start, c.schedule))
  {
    var holds := (k: nat, v: World) => Matches(c, k, v);
    StepsKeepMatching(c, holds);
    HoldsAtEnd(holds, c.start, c.schedule, 0);
  }

  lemma StartMatches(before: seq<Action>, c: Race)
    requires c.start == Exec(START, before) && Quiet(c)
    ensures Matches(c, 0, c.start)
  {
    var u, w := c.user, c.start;
    assert SecretsOf(START.db, u) == {} && CodesOf(START.db.codes, u) == {};
    ExecTallies(START, before, u);
    assert NoDeletion(c, 0, 0) && Batches(c, 0) == {};
    assert NoneIn(At(c, DeleteSecrets), 0, 0) && NoneIn(At(c, TurnOff), 0, 0);
  }

  /**
   * The tables a race leaves are those its order calls for: from every reachable state, with any number of writers
   * of the user under way, wherever the schedule ends.
   */
  lemma TablesFollowOrder(before: seq<Action>, c: Race)
    requires c.start == Exec(START, before) && Quiet(c)
    ensures var db, n, u := Exec(c.start, c.schedule).db, |c.schedule|, c.user;
      u in db.users && |SecretsOf(db, u)| == (if HasSecret(c, n) then 1 else 0) && (db.users[u] <==> FlagOn(c, n)) &&
      |CodesOf(db.codes, u)| == CODE_COUNT * |Batches(c, n)| + OldCodes(c, n)
  {
    StartMatches(before, c);
    RunMatches(c);
  }

  lemma ConsistentByOrder(before: seq<Action>, c: Race)
    requires c.start == Exec(START, before) && Quiet(c)
    ensures var n := |c.schedule|;
      H.Consistent(Exec(c.start, c.schedule).db, c.user) <==>
        CODE_COUNT * |Batches(c, n)| + OldCodes(c, n) == (if HasSecret(c, n) then CODE_COUNT else 0) &&
        (FlagOn(c, n) ==> HasSecret(c, n))
  {
    TablesFollowOrder(before, c);
  }
}
