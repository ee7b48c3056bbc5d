/**
 * Two MFA requests of one user at the same time (pkg/auth/mfa.go): exactly which orders of their statements leave
 * the tables consistent.
 */
module EnrolmentPairs {
  import opened Prelude
  import opened MfaEnrolment
  import opened EnrolmentRaces
  import opened EnrolmentOrder
  import H = MfaHistory

  /** The p-th step of one request comes before the q-th of another. */
  predicate Before(c: Race, i: RequestId, p: nat, j: RequestId, q: nat) {
    exists t | 0 <= t < |c.schedule| :: c.schedule[t] == Run(j) && Taken(c, j, t) + 1 == q && Taken(c, i, t) >= p
  }

  predicate IsPlace(c: Race, id: RequestId, k: nat, t: nat) {
    t < |c.schedule| && c.schedule[t] == Run(id) && Taken(c, id, t) == k
  }

  predicate Finishes(c: Race, id: RequestId) {
    id in c.start.requests && StepOf(c.start.requests[id], Taken(c, id, |c.schedule|)) == Nothing
  }

  /** Two writers and no other are under way, and both take all their steps. */
  ghost predicate Pair(c: Race, i: RequestId, j: RequestId) {
    Quiet(c) && i != j && (forall id :: IsWriter(c, id) <==> id == i || id == j) && Finishes(c, i) && Finishes(c, j)
  }

  lemma {:induction false} Place(c: Race, id: RequestId, k: nat, n: nat) returns (t: nat)
    requires n <= |c.schedule| && Taken(c, id, n) > k
    ensures IsPlace(c, id, k, t) && t < n
  {
    if Taken(c, id, n - 1) > k { t := Place(c, id, k, n - 1); }
    else { t := n - 1; }
  }

  /** A step has one place, and the steps of a request come in order. */
  lemma PlacesInOrder(c: Race, id: RequestId, k: nat, s: nat, m: nat, t: nat)
    requires IsPlace(c, id, k, s) && IsPlace(c, id, m, t)
    ensures k < m <==> s < t
  {
    if s < t { TakenGrows(c, id, s + 1, t); }
    if t < s { TakenGrows(c, id, t + 1, s); }
  }

  lemma BeforeIff(c: Race, i: RequestId, p: nat, s: nat, j: RequestId, q: nat, t: nat)
    requires i != j && IsPlace(c, i, p, s) && IsPlace(c, j, q, t)
    ensures Before(c, i, p + 1, j, q + 1) <==> s < t
  {
    if s < t {
      TakenGrows(c, i, s + 1, t);
      assert c.schedule[t] == Run(j) && Taken(c, j, t) + 1 == q + 1 && Taken(c, i, t) >= p + 1;
    } else if Before(c, i, p + 1, j, q + 1) {
      TakenGrows(c, i, t, s);
      var x :| 0 <= x < |c.schedule| && c.schedule[x] == Run(j) && Taken(c, j, x) + 1 == q + 1 &&
        Taken(c, i, x) >= p + 1;
      OnePlace(c, j, q, x, t);
    }
  }

  lemma OnePlace(c: Race, id: RequestId, k: nat, s: nat, t: nat)
    requires IsPlace(c, id, k, s) && IsPlace(c, id, k, t)
    ensures s == t
  {
    PlacesInOrder(c, id, k, s, k, t);
    PlacesInOrder(c, id, k, t, k, s);
  }

  /** Switched on at no places but a and b, off at x and y alone. */
  lemma StandsTwo(on: nat -> bool, off: nat -> bool, initially: bool, n: nat, a: nat, b: nat, x: nat, y: nat)
    requires forall t: nat | t < n :: on(t) <==> t == a || t == b
    requires forall t: nat | t < n :: off(t) <==> t == x || t == y
    ensures Stands(on, off, initially, n) <==>
      (a < n && !(a < x < n) && !(a < y < n)) || (b < n && !(b < x < n) && !(b < y < n)) ||
      (initially && n <= x && n <= y)
  {
    if a < n && !(a < x < n) && !(a < y < n) { assert on(a) && NoneIn(off, a + 1, n); }
    if b < n && !(b < x < n) && !(b < y < n) { assert on(b) && NoneIn(off, b + 1, n); }
    if n <= x && n <= y { assert NoneIn(off, 0, n); }
    if initially && NoneIn(off, 0, n) { assert (x < n ==> off(x)) && (y < n ==> off(y)); }
    if t: nat :| t < n && on(t) && NoneIn(off, t + 1, n) { assert (x < n ==> off(x)) && (y < n ==> off(y)); }
  }

  /** Only the k-th statement of the request is this write. */
  predicate OnlyStep(r: Request, write: Write, k: nat) {
    match write
    case DeleteSecrets => (r.SettingUp? || r.Disabling?) && k == 0
    case DeleteCodes => (r.SettingUp? || r.Disabling?) && k == 1
    case InsertSecret => r.SettingUp? && k == 2
    case InsertCodes => r.SettingUp? && k == 3
    case ReadSecret => r.EnableReading? && k == 0
    case TurnOn => r.EnableReading? && k == 1
    case TurnOff => r.Disabling? && k == 2
    case Nothing => false
  }

  predicate Never(r: Request, write: Write) {
    match write
    case DeleteSecrets => !(r.SettingUp? || r.Disabling?)
    case DeleteCodes => !(r.SettingUp? || r.Disabling?)
    case InsertSecret => !r.SettingUp?
    case InsertCodes => !r.SettingUp?
    case ReadSecret => !r.EnableReading?
    case TurnOn => !r.EnableReading? && !r.Enabling?
    case TurnOff => !r.Disabling?
    case Nothing => false
  }

  lemma AtPlaces(c: Race, i: RequestId, j: RequestId, write: Write, k: nat, s: nat, t: nat)
    requires Pair(c, i, j) && IsPlace(c, i, k, s) && IsPlace(c, j, k, t)
    requires OnlyStep(c.start.requests[i], write, k) && OnlyStep(c.start.requests[j], write, k)
    ensures forall x: nat :: WriteAt(c, x) == write <==> x == s || x == t
  {
    assert IsWriter(c, i) && IsWriter(c, j);
    forall x: nat | WriteAt(c, x) == write ensures x == s || x == t {
      if c.schedule[x].id == i { OnePlace(c, i, k, x, s); } else { OnePlace(c, j, k, x, t); }
    }
  }

  lemma AtPlace(c: Race, i: RequestId, j: RequestId, write: Write, k: nat, s: nat)
    requires (Pair(c, i, j) || Pair(c, j, i)) && IsPlace(c, i, k, s)
    requires OnlyStep(c.start.requests[i], write, k) && Never(c.start.requests[j], write)
    ensures forall x: nat :: WriteAt(c, x) == write <==> x == s
  {
    assert IsWriter(c, i) && IsWriter(c, j);
    forall x: nat | WriteAt(c, x) == write ensures x == s {
      OnePlace(c, i, k, x, s);
    }
  }

  lemma AtNoPlace(c: Race, i: RequestId, j: RequestId, write: Write)
    requires Pair(c, i, j) && Never(c.start.requests[i], write) && Never(c.start.requests[j], write)
    ensures forall x: nat :: WriteAt(c, x) != write
  {
  }

  lemma WentInIff(c: Race, id: RequestId, s: nat, n: nat)
    requires IsWriter(c, id) && c.start.requests[id].SettingUp? && IsPlace(c, id, 2, s) && s < n
    ensures WentIn(c, id, n) <==> !HasSecret(c, s)
  {
    assert WriteAt(c, s) == InsertSecret;
    if WentIn(c, id, n) {
      var t: nat :| t < n && t < |c.schedule| && c.schedule[t] == Run(id) && WriteAt(c, t) == InsertSecret &&
        !HasSecret(c, t);
      OnePlace(c, id, 2, s, t);
    }
  }

  /**
   * Two setups leave the tables consistent exactly when each has its secret in before the other deletes secrets if
   * and only if it has its codes in before the other deletes codes.
   */
  lemma TwoSetups(before: seq<Action>, c: Race, i: RequestId, j: RequestId)
    requires c.start == Exec(START, before) && Pair(c, i, j)
    requires c.start.requests[i].SettingUp? && c.start.requests[j].SettingUp?
    ensures H.Consistent(Exec(c.start, c.schedule).db, c.user) <==>
      (Before(c, i, 3, j, 1) <==> Before(c, i, 4, j, 2)) && (Before(c, j, 3, i, 1) <==> Before(c, j, 4, i, 2))
  {
    var d1, e1, i1, c1 := FourPlaces(c, i);
    var d2, e2, i2, c2 := FourPlaces(c, j);
    TwoSecrets(c, i, j, d1, i1, d2, i2);
    TheirBatches(c, i, j, e1, i1, c1, e2, i2, c2);
    ConsistentByOrder(before, c);
    TheirOrder(c, i, j, d1, e1, i1, c1, d2, e2, i2, c2);
    OneOfTwo(d1, e1, i1, c1, d2, e2, i2, c2);
  }

  lemma TheirOrder(c: Race, i: RequestId, j: RequestId, d1: nat, e1: nat, i1: nat, c1: nat, d2: nat, e2: nat, i2: nat,
                   c2: nat)
    requires i != j
    requires IsPlace(c, i, 0, d1) && IsPlace(c, i, 1, e1) && IsPlace(c, i, 2, i1) && IsPlace(c, i, 3, c1)
    requires IsPlace(c, j, 0, d2) && IsPlace(c, j, 1, e2) && IsPlace(c, j, 2, i2) && IsPlace(c, j, 3, c2)
    ensures Before(c, i, 3, j, 1) <==> i1 < d2
    ensures Before(c, i, 4, j, 2) <==> c1 < e2
    ensures Before(c, j, 3, i, 1) <==> i2 < d1
    ensures Before(c, j, 4, i, 2) <==> c2 < e1
    ensures i1 != i2 && i1 != d2 && i2 != d1 && c1 != e2 && c2 != e1
  {
    BeforeIff(c, i, 2, i1, j, 0, d2);
    BeforeIff(c, i, 3, c1, j, 1, e2);
    BeforeIff(c, j, 2, i2, i, 0, d1);
    BeforeIff(c, j, 3, c2, i, 1, e1);
  }

  /** Exactly one of two batches stays. */
  lemma OneOfTwo(d1: nat, e1: nat, i1: nat, c1: nat, d2: nat, e2: nat, i2: nat, c2: nat)
    requires d1 < e1 < i1 < c1 && d2 < e2 < i2 < c2
    requires i1 != i2 && i1 != d2 && i2 != d1 && c1 != e2 && c2 != e1
    ensures var first, second := !(d1 < i2 < i1) && e2 < c1, !(d2 < i1 < i2) && e1 < c2;
      first != second <==> (i1 < d2 <==> c1 < e2) && (i2 < d1 <==> c2 < e1)
  {
  }

  lemma TheirBatches(c: Race, i: RequestId, j: RequestId, e1: nat, i1: nat, c1: nat, e2: nat, i2: nat, c2: nat)
    requires Pair(c, i, j) && c.start.requests[i].SettingUp? && c.start.requests[j].SettingUp?
    requires IsPlace(c, i, 1, e1) && IsPlace(c, i, 2, i1) && IsPlace(c, i, 3, c1)
    requires IsPlace(c, j, 1, e2) && IsPlace(c, j, 2, i2) && IsPlace(c, j, 3, c2)
    requires e1 < i1 < c1 && e2 < i2 < c2
    ensures var n := |c.schedule|;
      var first, second := !HasSecret(c, i1) && e2 < c1, !HasSecret(c, i2) && e1 < c2;
      OldCodes(c, n) == 0 && |Batches(c, n)| == if first && second then 2 else if first || second then 1 else 0
  {
    AtPlaces(c, i, j, DeleteCodes, 1, e1, e2);
    AtPlaces(c, i, j, InsertCodes, 3, c1, c2);
    WentInIff(c, i, i1, c1);
    WentInIff(c, j, i2, c2);
    TwoBatches(c, |c.schedule|, c1, c2, e1, e2);
    DistinctPlaces(c, i, 3, c1, j, 3, c2);
  }

  lemma DistinctPlaces(c: Race, i: RequestId, k: nat, s: nat, j: RequestId, m: nat, t: nat)
    requires i != j && IsPlace(c, i, k, s) && IsPlace(c, j, m, t)
    ensures s != t
  {
  }

  lemma FourPlaces(c: Race, id: RequestId) returns (d: nat, e: nat, i: nat, s: nat)
    requires Finishes(c, id) && c.start.requests[id].SettingUp?
    ensures IsPlace(c, id, 0, d) && IsPlace(c, id, 1, e) && IsPlace(c, id, 2, i) && IsPlace(c, id, 3, s)
    ensures d < e < i < s
  {
    var n := |c.schedule|;
    d := Place(c, id, 0, n);
    e := Place(c, id, 1, n);
    i := Place(c, id, 2, n);
    s := Place(c, id, 3, n);
    PlacesInOrder(c, id, 0, d, 1, e);
    PlacesInOrder(c, id, 1, e, 2, i);
    PlacesInOrder(c, id, 2, i, 3, s);
  }

  /** A setup gets its secret in unless the other's has gone in after its deletion; one of them stays. */
  lemma TwoSecrets(c: Race, i: RequestId, j: RequestId, d1: nat, i1: nat, d2: nat, i2: nat)
    requires Pair(c, i, j) && c.start.requests[i].SettingUp? && c.start.requests[j].SettingUp?
    requires IsPlace(c, i, 0, d1) && IsPlace(c, i, 2, i1) && IsPlace(c, j, 0, d2) && IsPlace(c, j, 2, i2)
    requires d1 < i1 && d2 < i2
    ensures HasSecret(c, |c.schedule|)
    ensures HasSecret(c, i1) <==> d1 < i2 < i1
    ensures HasSecret(c, i2) <==> d2 < i1 < i2
  {
    var initially := SecretsOf(c.start.db, c.user) != {};
    AtPlaces(c, i, j, DeleteSecrets, 0, d1, d2);
    AtPlaces(c, i, j, InsertSecret, 2, i1, i2);
    StandsTwo(At(c, InsertSecret), At(c, DeleteSecrets), initially, |c.schedule|, i1, i2, d1, d2);
    StandsTwo(At(c, InsertSecret), At(c, DeleteSecrets), initially, i1, i1, i2, d1, d2);
    StandsTwo(At(c, InsertSecret), At(c, DeleteSecrets), initially, i2, i1, i2, d1, d2);
    assert d1 != i2 && d2 != i1 && i1 != i2;
  }

  /** Codes go in at a and b alone, if at all, and are deleted at x and y. */
  lemma TwoBatches(c: Race, n: nat, a: nat, b: nat, x: nat, y: nat)
    requires n == |c.schedule| && a < n && b < n && x < n && y < n
    requires forall t: nat :: WriteAt(c, t) == InsertCodes ==> t == a || t == b
    requires forall t: nat :: WriteAt(c, t) == DeleteCodes <==> t == x || t == y
    ensures OldCodes(c, n) == 0
    ensures Batches(c, n) == (if AddsCodes(c, a) && x <= a && y <= a then {a} else {}) +
      (if AddsCodes(c, b) && x <= b && y <= b then {b} else {})
  {
    assert WriteAt(c, x) == DeleteCodes && WriteAt(c, y) == DeleteCodes;
    assert !NoDeletion(c, 0, n);
    forall t: nat | t < n && AddsCodes(c, t) ensures NoDeletion(c, t + 1, n) <==> x <= t && y <= t {}
  }

  lemma ThreePlaces(c: Race, id: RequestId) returns (d: nat, e: nat, f: nat)
    requires Finishes(c, id) && c.start.requests[id].Disabling?
    ensures IsPlace(c, id, 0, d) && IsPlace(c, id, 1, e) && IsPlace(c, id, 2, f) && d < e < f
  {
    var n := |c.schedule|;
    d := Place(c, id, 0, n);
    e := Place(c, id, 1, n);
    f := Place(c, id, 2, n);
    PlacesInOrder(c, id, 0, d, 1, e);
    PlacesInOrder(c, id, 1, e, 2, f);
  }

  lemma NeverOn(c: Race)
    requires forall x: nat :: WriteAt(c, x) != TurnOn
    ensures forall x: nat :: !TurnsOn(c, x)
  {
  }

  /** A setup and a disable: exactly when the secret is in before the deletion of secrets iff the codes are. */
  lemma SetupAndDisable(before: seq<Action>, c: Race, i: RequestId, j: RequestId)
    requires c.start == Exec(START, before) && Pair(c, i, j)
    requires c.start.requests[i].SettingUp? && c.start.requests[j].Disabling?
    ensures H.Consistent(Exec(c.start, c.schedule).db, c.user) <==> (Before(c, i, 3, j, 1) <==> Before(c, i, 4, j, 2))
  {
    var d1, e1, i1, c1 := FourPlaces(c, i);
    var d2, e2, f2 := ThreePlaces(c, j);
    OneSecret(c, i, j, d1, i1, d2);
    OneBatch(c, i, j, e1, i1, c1, e2);
    NoFlag(c, i, j, f2);
    ConsistentByOrder(before, c);
    BeforeIff(c, i, 2, i1, j, 0, d2);
    BeforeIff(c, i, 3, c1, j, 1, e2);
    DistinctPlaces(c, i, 3, c1, j, 1, e2);
    DistinctPlaces(c, i, 2, i1, j, 0, d2);
  }

  lemma OneBatch(c: Race, i: RequestId, j: RequestId, e1: nat, i1: nat, c1: nat, e2: nat)
    requires Pair(c, i, j) && c.start.requests[i].SettingUp? && c.start.requests[j].Disabling?
    requires IsPlace(c, i, 1, e1) && IsPlace(c, i, 2, i1) && IsPlace(c, i, 3, c1) && IsPlace(c, j, 1, e2)
    requires e1 < i1 < c1 && !HasSecret(c, i1)
    ensures OldCodes(c, |c.schedule|) == 0 && |Batches(c, |c.schedule|)| == if e2 <= c1 then 1 else 0
  {
    AtPlaces(c, i, j, DeleteCodes, 1, e1, e2);
    AtPlace(c, i, j, InsertCodes, 3, c1);
    WentInIff(c, i, i1, c1);
    TwoBatches(c, |c.schedule|, c1, c1, e1, e2);
  }

  lemma NoFlag(c: Race, i: RequestId, j: RequestId, f2: nat)
    requires Pair(c, i, j) && c.start.requests[i].SettingUp? && c.start.requests[j].Disabling? && IsPlace(c, j, 2, f2)
    ensures !FlagOn(c, |c.schedule|)
  {
    var n := |c.schedule|;
    AtPlace(c, j, i, TurnOff, 2, f2);
    AtNoPlace(c, i, j, TurnOn);
    NeverOn(c);
    StandsTwo(TurningOn(c), At(c, TurnOff), c.start.db.users[c.user], n, n, n, f2, f2);
  }

  lemma OneSecret(c: Race, i: RequestId, j: RequestId, d1: nat, i1: nat, d2: nat)
    requires Pair(c, i, j) && c.start.requests[i].SettingUp? && c.start.requests[j].Disabling?
    requires IsPlace(c, i, 0, d1) && IsPlace(c, i, 2, i1) && IsPlace(c, j, 0, d2) && d1 < i1
    ensures HasSecret(c, |c.schedule|) <==> d2 < i1
    ensures !HasSecret(c, i1)
  {
    var initially := SecretsOf(c.start.db, c.user) != {};
    AtPlaces(c, i, j, DeleteSecrets, 0, d1, d2);
    AtPlace(c, i, j, InsertSecret, 2, i1);
    StandsTwo(At(c, InsertSecret), At(c, DeleteSecrets), initially, |c.schedule|, i1, i1, d1, d2);
    StandsTwo(At(c, InsertSecret), At(c, DeleteSecrets), initially, i1, i1, i1, d1, d2);
    assert d2 != i1;
  }

  /**
   * An enable and a disable: MFA stays on, and the tables are inconsistent, exactly when there was a secret, the
   * code is right, and the enable reads before the disable deletes and writes after it has turned MFA off.
   */
  lemma EnableAndDisable(before: seq<Action>, c: Race, i: RequestId, j: RequestId)
    requires c.start == Exec(START, before) && Pair(c, i, j)
    requires c.start.requests[i].EnableReading? && c.start.requests[j].Disabling?
    ensures var db, u := Exec(c.start, c.schedule).db, c.user;
      u in db.users && SecretsOf(db, u) == {} && (H.Consistent(db, u) <==> !db.users[u]) &&
      (db.users[u] <==>
        SecretsOf(c.start.db, u) != {} && c.start.requests[i].codeOk && Before(c, i, 1, j, 1) && Before(c, j, 3, i, 2))
  {
    var n := |c.schedule|;
    var r1 := Place(c, i, 0, n);
    var w1 := Place(c, i, 1, n);
    PlacesInOrder(c, i, 0, r1, 1, w1);
    var d2, e2, f2 := ThreePlaces(c, j);
    ReadsAndWrites(c, i, j, r1, w1, d2, f2);
    CodesGone(c, i, j, e2);
    ReadsSecret(c, i, j, r1, d2, w1);
    FlagLeft(c, i, j, w1, f2);
    TablesFollowOrder(before, c);
  }

  lemma ReadsAndWrites(c: Race, i: RequestId, j: RequestId, r1: nat, w1: nat, d2: nat, f2: nat)
    requires i != j && IsPlace(c, i, 0, r1) && IsPlace(c, i, 1, w1) && IsPlace(c, j, 0, d2) && IsPlace(c, j, 2, f2)
    ensures Before(c, i, 1, j, 1) <==> r1 < d2
    ensures Before(c, j, 3, i, 2) <==> f2 < w1
  {
    BeforeIff(c, i, 0, r1, j, 0, d2);
    BeforeIff(c, j, 2, f2, i, 1, w1);
  }

  lemma CodesGone(c: Race, i: RequestId, j: RequestId, e2: nat)
    requires Pair(c, i, j) && c.start.requests[i].EnableReading? && c.start.requests[j].Disabling?
    requires IsPlace(c, j, 1, e2)
    ensures Batches(c, |c.schedule|) == {} && OldCodes(c, |c.schedule|) == 0
  {
    AtPlace(c, j, i, DeleteCodes, 1, e2);
    AtNoPlace(c, i, j, InsertCodes);
    TwoBatches(c, |c.schedule|, e2, e2, e2, e2);
  }

  lemma FlagLeft(c: Race, i: RequestId, j: RequestId, w1: nat, f2: nat)
    requires Pair(c, i, j) && c.start.requests[i].EnableReading? && c.start.requests[j].Disabling?
    requires IsPlace(c, i, 1, w1) && IsPlace(c, j, 2, f2)
    ensures FlagOn(c, |c.schedule|) <==> Passed(c, i, w1) && f2 < w1
  {
    var n := |c.schedule|;
    AtPlace(c, j, i, TurnOff, 2, f2);
    AtPlace(c, i, j, TurnOn, 1, w1);
    StandsTwo(TurningOn(c), At(c, TurnOff), c.start.db.users[c.user], n,
      if Passed(c, i, w1) then w1 else n, n, f2, f2);
    assert w1 != f2;
  }

  lemma ReadsSecret(c: Race, i: RequestId, j: RequestId, r1: nat, d2: nat, w1: nat)
    requires Pair(c, i, j) && c.start.requests[i].EnableReading? && c.start.requests[j].Disabling?
    requires IsPlace(c, i, 0, r1) && IsPlace(c, j, 0, d2) && r1 < w1
    ensures Passed(c, i, w1) <==> c.start.requests[i].codeOk && SecretsOf(c.start.db, c.user) != {} && r1 < d2
    ensures !HasSecret(c, |c.schedule|)
  {
    var initially := SecretsOf(c.start.db, c.user) != {};
    AtNoPlace(c, i, j, InsertSecret);
    AtPlace(c, j, i, DeleteSecrets, 0, d2);
    AtPlace(c, i, j, ReadSecret, 0, r1);
    StandsTwo(At(c, InsertSecret), At(c, DeleteSecrets), initially, |c.schedule|, |c.schedule|, |c.schedule|, d2, d2);
    StandsTwo(At(c, InsertSecret), At(c, DeleteSecrets), initially, r1, r1, r1, d2, d2);
    assert r1 != d2;
  }
}
