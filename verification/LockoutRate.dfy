/**
 * How many wrong passwords concurrent requests can get evaluated against one account
 * (PasswordService.Authenticate, pkg/auth/password.go). The error of the statement that counts a failure is
 * ignored, so a failure may go uncounted.
 */
module LockoutRate {
  import opened Prelude
  import opened Lockout
  import Accounts = PasswordService
  import Phc

  datatype Event = Tick(d: nat) | Look | Update(i: nat) | Lose(i: nat)

  /** An evaluated password, by the time its request read the row, and whether its failure has been counted yet. */
  datatype Try = Try(time: int, counted: bool)

  /**
   * Requests read the row and check the lock in one step, evaluate the password, and increment the counter in
   * another, unless that statement is lost. readTimes holds the times of all reads that got through; tries those
   * whose increment is not lost, the others being in lost; fifth the time of the fifth increment and the number
   * of tries before it.
   */
  datatype Machine = Machine(now: int, lock: Lock, tries: seq<Try>, fifth: Option<(int, nat)>,
                             readTimes: seq<int>, lost: seq<int>)

  const START := Machine(0, UNLOCKED, [], None, [], [])

  /** Requests between their read and their increment. */
  function Pending(tries: seq<Try>): nat {
    if tries == [] then 0 else Pending(tries[..|tries| - 1]) + (if tries[|tries| - 1].counted then 0 else 1)
  }

  predicate IsPending(tries: seq<Try>, i: nat) { i < |tries| && !tries[i].counted }

  function Without<T>(s: seq<T>, i: nat): seq<T>
    requires i < |s|
  {
    s[..i] + s[i + 1..]
  }

  function Apply(inFlight: nat, lockout: int, m: Machine, e: Event): Machine {
    match e
    case Tick(d) => m.(now := m.now + d)
    case Look =>
      if Pending(m.tries) >= inFlight || IsLocked(m.lock, m.now) then m
      else m.(tries := m.tries + [Try(m.now, false)], readTimes := m.readTimes + [m.now])
    case Update(i) =>
      if !IsPending(m.tries, i) then m
      else
        var l := Increment(m.lock, m.now, lockout);
        m.(lock := l, tries := m.tries[i := Try(m.tries[i].time, true)],
           fifth := if l.failed == MAX_FAILED then Some((m.now, |m.tries|)) else m.fifth)
    case Lose(i) =>
      if !IsPending(m.tries, i) then m
      else
        m.(tries := Without(m.tries, i), lost := m.lost + [m.tries[i].time],
           fifth :=
             if m.fifth.Some? && i < m.fifth.value.1 then Some((m.fifth.value.0, m.fifth.value.1 - 1)) else m.fifth)
  }

  function Exec(inFlight: nat, lockout: int, m: Machine, schedule: seq<Event>): Machine
    decreases |schedule|
  {
    if schedule == [] then m else Exec(inFlight, lockout, Apply(inFlight, lockout, m, schedule[0]), schedule[1..])
  }

  /** With nothing in between, a read and its increment do to the row what a login with a wrong password does. */
  lemma WrongLoginIsLookThenUpdate(inFlight: nat, lockout: int, m: Machine, db: Accounts.Db, kdf: Phc.Kdf,
                                   id: UserId, password: string)
    requires id in db.users && id in db.creds && !Phc.VerifyPassword(kdf, password, db.creds[id])
    requires db.users[id].lock == m.lock && Pending(m.tries) < inFlight
    ensures var (db', answer) := Accounts.Login(db, kdf, Some(id), password, m.now, lockout);
      var m' := Apply(inFlight, lockout, Apply(inFlight, lockout, m, Look), Update(|m.tries|));
      db' == Accounts.SetLock(db, id, m'.lock) && answer.Err? &&
      (answer.error.InvalidCredentials? <==> |m'.readTimes| == |m.readTimes| + 1) &&
      (answer.error.AccountLocked? <==> m'.readTimes == m.readTimes)
  {
    if IsLocked(m.lock, m.now) {
      assert db.users[id := db.users[id].(lock := m.lock)] == db.users;
    }
  }

  // ---- counting

  function CountUpTo(times: seq<int>, t: int): nat {
    if times == [] then 0
    else
      var last := |times| - 1;
      CountUpTo(times[..last], t) + (if times[last] <= t then 1 else 0)
  }

  function Times(tries: seq<Try>): seq<int> {
    seq(|tries|, i requires 0 <= i < |tries| => tries[i].time)
  }

  lemma PendingExtends(tries: seq<Try>, r: Try)
    ensures Pending(tries + [r]) == Pending(tries) + if r.counted then 0 else 1
  {
    assert (tries + [r])[..|tries|] == tries;
  }

  lemma {:induction false} PendingCounted(tries: seq<Try>, i: nat)
    requires IsPending(tries, i)
    ensures Pending(tries[i := Try(tries[i].time, true)]) == Pending(tries) - 1
  {
    var last := |tries| - 1;
    var tries' := tries[i := Try(tries[i].time, true)];
    if i < last {
      PendingCounted(tries[..last], i);
      assert tries'[..last] == tries[..last][i := Try(tries[i].time, true)];
    } else {
      assert tries'[..last] == tries[..last];
    }
  }

  lemma {:induction false} PendingWithout(tries: seq<Try>, i: nat)
    requires IsPending(tries, i)
    ensures Pending(Without(tries, i)) == Pending(tries) - 1
  {
    var last := |tries| - 1;
    if i < last {
      PendingWithout(tries[..last], i);
      assert Without(tries, i) == Without(tries[..last], i) + [tries[last]];
      PendingExtends(Without(tries[..last], i), tries[last]);
    } else {
      assert Without(tries, i) == tries[..last];
    }
  }

  lemma CountExtends(times: seq<int>, x: int, t: int)
    ensures CountUpTo(times + [x], t) == CountUpTo(times, t) + if x <= t then 1 else 0
  {
    assert (times + [x])[..|times|] == times;
  }

  lemma {:induction false} CountWithout(times: seq<int>, i: nat, t: int)
    requires i < |times|
    ensures CountUpTo(times, t) == CountUpTo(Without(times, i), t) + if times[i] <= t then 1 else 0
  {
    var last := |times| - 1;
    if i < last {
      CountWithout(times[..last], i, t);
      assert Without(times, i) == Without(times[..last], i) + [times[last]];
      CountExtends(Without(times[..last], i), times[last], t);
    } else {
      assert Without(times, i) == times[..last];
    }
  }

  lemma {:induction false} CountBelow(times: seq<int>, t: int, bound: nat)
    requires forall i :: bound <= i < |times| ==> times[i] > t
    ensures CountUpTo(times, t) <= bound
    ensures CountUpTo(times, t) <= |times|
    decreases |times|
  {
    if times != [] {
      CountBelow(times[..|times| - 1], t, bound);
    }
  }

  /** Fewer pending tries than the last ones considered leaves one of these counted. */
  lemma {:induction false} OneCounted(tries: seq<Try>, k: nat) returns (i: nat)
    requires Pending(tries) < k <= |tries|
    ensures |tries| - k <= i < |tries| && tries[i].counted
  {
    var last := |tries| - 1;
    if tries[last].counted {
      i := last;
    } else {
      i := OneCounted(tries[..last], k - 1);
    }
  }

  // ---- the invariant

  predicate Ordered(m: Machine) {
    (forall i :: 0 <= i < |m.tries| ==> m.tries[i].time <= m.now) &&
    (forall i, j :: 0 <= i < j < |m.tries| ==> m.tries[i].time <= m.tries[j].time)
  }

  /** From the fifth failure on, the deadline is a lockout past every counted try. */
  predicate DeadlineOk(inFlight: nat, lockout: int, m: Machine) {
    if m.fifth.None? then m.lock.failed < MAX_FAILED && m.lock.lockedUntil.None?
    else
      m.lock.failed >= MAX_FAILED && m.lock.lockedUntil.Some? &&
      m.fifth.value.0 + lockout <= m.lock.lockedUntil.value <= m.now + lockout &&
      m.fifth.value.1 <= MAX_FAILED - 1 + inFlight && m.fifth.value.1 <= |m.tries| &&
      forall i :: 0 <= i < |m.tries| && m.tries[i].counted ==> m.tries[i].time + lockout <= m.lock.lockedUntil.value
  }

  /** After the fifth failure tries come at most inFlight per lockout. */
  predicate SpacedOut(inFlight: nat, lockout: int, m: Machine) {
    m.fifth.Some? ==>
      (forall j :: m.fifth.value.1 <= j < |m.tries| ==> m.tries[j].time >= m.fifth.value.0 + lockout) &&
      (forall j, k :: 0 <= j && m.fifth.value.1 <= k < |m.tries| && k >= j + inFlight ==>
        m.tries[k].time >= m.tries[j].time + lockout)
  }

  /** Every read is a try or lost. */
  ghost predicate Accounted(m: Machine) {
    |m.readTimes| == |m.tries| + |m.lost| &&
    forall t :: CountUpTo(m.readTimes, t) == CountUpTo(Times(m.tries), t) + CountUpTo(m.lost, t)
  }

  ghost predicate Inv(inFlight: nat, lockout: int, m: Machine) {
    Ordered(m) && Pending(m.tries) <= inFlight && m.lock.failed == |m.tries| - Pending(m.tries) &&
    DeadlineOk(inFlight, lockout, m) && SpacedOut(inFlight, lockout, m) && Accounted(m)
  }

  /** A read that gets through after inFlight others finds one of them counted, so the deadline has passed since. */
  lemma LookSpaced(inFlight: nat, lockout: int, m: Machine)
    requires lockout > 0 && Inv(inFlight, lockout, m)
    ensures SpacedOut(inFlight, lockout, Apply(inFlight, lockout, m, Look))
  {
    var n := |m.tries|;
    if Apply(inFlight, lockout, m, Look) != m && m.fifth.Some? && n >= inFlight {
      var i := OneCounted(m.tries, inFlight);
      forall j | 0 <= j <= n - inFlight ensures m.tries[j].time <= m.tries[i].time {}
    }
  }

  lemma LookKeeps(inFlight: nat, lockout: int, m: Machine)
    requires lockout > 0 && Inv(inFlight, lockout, m)
    ensures Inv(inFlight, lockout, Apply(inFlight, lockout, m, Look))
  {
    var m' := Apply(inFlight, lockout, m, Look);
    LookSpaced(inFlight, lockout, m);
    PendingExtends(m.tries, Try(m.now, false));
    if m' != m {
      assert Times(m'.tries) == Times(m.tries) + [m.now];
      forall t ensures CountUpTo(m'.readTimes, t) == CountUpTo(Times(m'.tries), t) + CountUpTo(m'.lost, t) {
        CountExtends(m.readTimes, m.now, t);
        CountExtends(Times(m.tries), m.now, t);
      }
    }
  }

  lemma UpdateDeadline(inFlight: nat, lockout: int, m: Machine, i: nat)
    requires lockout > 0 && Inv(inFlight, lockout, m) && IsPending(m.tries, i)
    ensures var m' := Apply(inFlight, lockout, m, Update(i));
      DeadlineOk(inFlight, lockout, m') && SpacedOut(inFlight, lockout, m')
  {
    PendingCounted(m.tries, i);
  }

  lemma UpdateKeeps(inFlight: nat, lockout: int, m: Machine, i: nat)
    requires lockout > 0 && Inv(inFlight, lockout, m)
    ensures Inv(inFlight, lockout, Apply(inFlight, lockout, m, Update(i)))
  {
    if IsPending(m.tries, i) {
      PendingCounted(m.tries, i);
      UpdateDeadline(inFlight, lockout, m, i);
      assert Times(Apply(inFlight, lockout, m, Update(i)).tries) == Times(m.tries);
    }
  }

  lemma LoseSpaced(inFlight: nat, lockout: int, m: Machine, i: nat)
    requires Inv(inFlight, lockout, m) && IsPending(m.tries, i)
    ensures SpacedOut(inFlight, lockout, Apply(inFlight, lockout, m, Lose(i)))
  {
    var m' := Apply(inFlight, lockout, m, Lose(i));
    assert forall k :: 0 <= k < |m'.tries| ==> m'.tries[k] == m.tries[if k < i then k else k + 1];
  }

  lemma LoseShifts(inFlight: nat, lockout: int, m: Machine, i: nat)
    requires Inv(inFlight, lockout, m) && IsPending(m.tries, i)
    ensures var m' := Apply(inFlight, lockout, m, Lose(i)); Ordered(m') && DeadlineOk(inFlight, lockout, m')
  {
    var m' := Apply(inFlight, lockout, m, Lose(i));
    assert forall k :: 0 <= k < |m'.tries| ==> m'.tries[k] == m.tries[if k < i then k else k + 1];
  }

  lemma LoseAccounted(m: Machine, i: nat)
    requires Accounted(m) && IsPending(m.tries, i)
    ensures Accounted(m.(tries := Without(m.tries, i), lost := m.lost + [m.tries[i].time]))
  {
    assert Times(Without(m.tries, i)) == Without(Times(m.tries), i);
    forall t
      ensures CountUpTo(m.readTimes, t) ==
        CountUpTo(Times(Without(m.tries, i)), t) + CountUpTo(m.lost + [m.tries[i].time], t)
    {
      CountWithout(Times(m.tries), i, t);
      CountExtends(m.lost, m.tries[i].time, t);
    }
  }

  lemma LoseKeeps(inFlight: nat, lockout: int, m: Machine, i: nat)
    requires Inv(inFlight, lockout, m)
    ensures Inv(inFlight, lockout, Apply(inFlight, lockout, m, Lose(i)))
  {
    if IsPending(m.tries, i) {
      PendingWithout(m.tries, i);
      LoseShifts(inFlight, lockout, m, i);
      LoseSpaced(inFlight, lockout, m, i);
      LoseAccounted(m, i);
      var lost := m.(tries := Without(m.tries, i), lost := m.lost + [m.tries[i].time]);
      assert Accounted(lost) ==> Accounted(Apply(inFlight, lockout, m, Lose(i)));
    }
  }

  lemma {:induction false} ExecKeeps(inFlight: nat, lockout: int, m: Machine, schedule: seq<Event>)
    requires lockout > 0 && Inv(inFlight, lockout, m)
    ensures Inv(inFlight, lockout, Exec(inFlight, lockout, m, schedule))
    decreases |schedule|
  {
    if schedule != [] {
      match schedule[0] {
        case Tick(d) =>
        case Look => LookKeeps(inFlight, lockout, m);
        case Update(i) => UpdateKeeps(inFlight, lockout, m, i);
        case Lose(i) => LoseKeeps(inFlight, lockout, m, i);
      }
      ExecKeeps(inFlight, lockout, Apply(inFlight, lockout, m, schedule[0]), schedule[1..]);
    }
  }

  /** The try that follows the fifth failure by q full rounds of inFlight tries comes q + 1 lockouts later. */
  lemma {:induction false} RoundsTakeLockouts(inFlight: nat, lockout: int, m: Machine, q: nat, j: nat)
    requires inFlight > 0 && Inv(inFlight, lockout, m) && m.fifth.Some?
    requires m.fifth.value.1 + q * inFlight <= j < |m.tries|
    ensures m.tries[j].time >= m.fifth.value.0 + (q + 1) * lockout
  {
    if q > 0 {
      assert q * inFlight == (q - 1) * inFlight + inFlight;
      assert (q + 1) * lockout == q * lockout + lockout;
      RoundsTakeLockouts(inFlight, lockout, m, q - 1, j - inFlight);
    }
  }

  lemma DivBound(t: nat, lockout: nat, q: nat)
    requires lockout > 0 && q == t / lockout
    ensures t < (q + 1) * lockout
  {
  }

  lemma LaterTriesAfter(inFlight: nat, lockout: nat, m: Machine, t: nat, q: nat)
    requires inFlight > 0 && lockout > 0 && Inv(inFlight, lockout, m) && m.fifth.Some? && q == t / lockout
    ensures forall j | m.fifth.value.1 + q * inFlight <= j < |m.tries| :: m.tries[j].time > m.fifth.value.0 + t
  {
    DivBound(t, lockout, q);
    forall j | m.fifth.value.1 + q * inFlight <= j < |m.tries| ensures m.tries[j].time > m.fifth.value.0 + t {
      RoundsTakeLockouts(inFlight, lockout, m, q, j);
    }
  }

  /** What inFlight requests at once can reach within t of the fifth failure. */
  function Limit(inFlight: nat, lockout: nat, t: nat): nat
    requires lockout > 0
  {
    4 + inFlight + t / lockout * inFlight
  }

  lemma BoundNow(inFlight: nat, lockout: nat, m: Machine, t: nat)
    requires inFlight > 0 && lockout > 0 && Inv(inFlight, lockout, m) && m.fifth.Some?
    ensures var end := m.fifth.value.0 + t;
      CountUpTo(m.readTimes, end) <= Limit(inFlight, lockout, t) + CountUpTo(m.lost, end)
  {
    LaterTriesAfter(inFlight, lockout, m, t, t / lockout);
    CountBelow(Times(m.tries), m.fifth.value.0 + t, m.fifth.value.1 + t / lockout * inFlight);
  }

  /**
   * The rate bound, for every schedule of at most inFlight concurrent requests that never have the right
   * password: by time t after the fifth counted failure, at most 4 + inFlight + inFlight * (t / lockout) passwords
   * have been evaluated, besides those whose failure was never counted; before it, at most 4 + inFlight besides.
   */
  lemma RateBound(inFlight: nat, lockout: nat, schedule: seq<Event>, t: nat)
    requires inFlight > 0 && lockout > 0
    ensures var m := Exec(inFlight, lockout, START, schedule);
      if m.fifth.None? then |m.readTimes| <= 4 + inFlight + |m.lost|
      else
        var end := m.fifth.value.0 + t;
        CountUpTo(m.readTimes, end) <= Limit(inFlight, lockout, t) + CountUpTo(m.lost, end)
  {
    ExecKeeps(inFlight, lockout, START, schedule);
    var m := Exec(inFlight, lockout, START, schedule);
    if m.fifth.Some? {
      BoundNow(inFlight, lockout, m, t);
    }
  }

  // ---- the bound is attained

  lemma {:induction false} ExecAppend(inFlight: nat, lockout: int, m: Machine, a: seq<Event>, b: seq<Event>)
    ensures Exec(inFlight, lockout, m, a + b) == Exec(inFlight, lockout, Exec(inFlight, lockout, m, a), b)
    decreases |a|
  {
    if a == [] {
      assert a + b == b;
    } else {
      assert (a + b)[1..] == a[1..] + b;
      ExecAppend(inFlight, lockout, Apply(inFlight, lockout, m, a[0]), a[1..], b);
    }
  }

  lemma One(inFlight: nat, lockout: int, m: Machine, e: Event)
    ensures Exec(inFlight, lockout, m, [e]) == Apply(inFlight, lockout, m, e)
  {
  }

  predicate Extended(times: seq<int>, times': seq<int>, k: nat, t: int) {
    |times'| == |times| + k && times <= times' && forall i | |times| <= i < |times'| :: times'[i] == t
  }

  /** As long as the account is not locked, reads get through up to the number allowed in flight. */
  lemma {:induction false} LookMany(inFlight: nat, lockout: int, m: Machine, k: nat) returns (s: seq<Event>)
    requires !IsLocked(m.lock, m.now) && Pending(m.tries) + k <= inFlight
    ensures var n := Exec(inFlight, lockout, m, s);
      (n.now, n.lock, n.fifth, n.lost) == (m.now, m.lock, m.fifth, m.lost) &&
      Pending(n.tries) == Pending(m.tries) + k && |n.tries| == |m.tries| + k &&
      Extended(m.readTimes, n.readTimes, k, m.now)
  {
    if k == 0 {
      s := [];
    } else {
      var first := LookMany(inFlight, lockout, m, k - 1);
      s := first + [Look];
      var n := Exec(inFlight, lockout, m, first);
      ExecAppend(inFlight, lockout, m, first, [Look]);
      One(inFlight, lockout, n, Look);
      PendingExtends(n.tries, Try(n.now, false));
    }
  }

  lemma {:induction false} SomePending(tries: seq<Try>) returns (i: nat)
    requires Pending(tries) > 0
    ensures IsPending(tries, i)
  {
    var last := |tries| - 1;
    if !tries[last].counted {
      i := last;
    } else {
      i := SomePending(tries[..last]);
    }
  }

  /** The increments of all pending requests. */
  lemma {:induction false} UpdateAll(inFlight: nat, lockout: int, m: Machine) returns (s: seq<Event>)
    ensures var n := Exec(inFlight, lockout, m, s);
      Pending(n.tries) == 0 && |n.tries| == |m.tries| &&
      (n.now, n.readTimes, n.lost) == (m.now, m.readTimes, m.lost) &&
      n.lock.failed == m.lock.failed + Pending(m.tries) &&
      n.fifth == (if m.lock.failed < MAX_FAILED <= n.lock.failed then Some((m.now, |m.tries|)) else m.fifth) &&
      n.lock.lockedUntil ==
        if Pending(m.tries) > 0 && n.lock.failed >= MAX_FAILED then Some(m.now + lockout) else m.lock.lockedUntil
    decreases Pending(m.tries)
  {
    if Pending(m.tries) == 0 {
      s := [];
    } else {
      var i := SomePending(m.tries);
      PendingCounted(m.tries, i);
      var rest := UpdateAll(inFlight, lockout, Apply(inFlight, lockout, m, Update(i)));
      s := [Update(i)] + rest;
      assert s[1..] == rest;
    }
  }

  /** k requests at once, all of which read before any of them increments. */
  lemma Burst(inFlight: nat, lockout: int, m: Machine, k: nat) returns (s: seq<Event>)
    requires !IsLocked(m.lock, m.now) && Pending(m.tries) == 0 && 0 < k <= inFlight
    ensures var n := Exec(inFlight, lockout, m, s);
      Pending(n.tries) == 0 && |n.tries| == |m.tries| + k && (n.now, n.lost) == (m.now, m.lost) &&
      n.lock.failed == m.lock.failed + k &&
      n.fifth == (if m.lock.failed < MAX_FAILED <= n.lock.failed then Some((m.now, |n.tries|)) else m.fifth) &&
      n.lock.lockedUntil == (if n.lock.failed >= MAX_FAILED then Some(m.now + lockout) else m.lock.lockedUntil) &&
      Extended(m.readTimes, n.readTimes, k, m.now)
  {
    var looks := LookMany(inFlight, lockout, m, k);
    var updates := UpdateAll(inFlight, lockout, Exec(inFlight, lockout, m, looks));
    ExecAppend(inFlight, lockout, m, looks, updates);
    s := looks + updates;
  }

  /** Failures at time 0 that are never counted. */
  lemma {:induction false} LoseMany(inFlight: nat, lockout: int, k: nat) returns (s: seq<Event>)
    requires inFlight > 0
    ensures var n := Exec(inFlight, lockout, START, s);
      n.tries == [] && n.now == 0 && n.lock == UNLOCKED && n.fifth.None? && n.lost == n.readTimes &&
      Extended([], n.lost, k, 0)
  {
    if k == 0 {
      s := [];
    } else {
      var first := LoseMany(inFlight, lockout, k - 1);
      var n := Exec(inFlight, lockout, START, first);
      ExecAppend(inFlight, lockout, START, first, [Look]);
      One(inFlight, lockout, n, Look);
      var looked := Apply(inFlight, lockout, n, Look);
      assert looked.tries == [Try(0, false)];
      ExecAppend(inFlight, lockout, START, first + [Look], [Lose(0)]);
      One(inFlight, lockout, looked, Lose(0));
      s := first + [Look] + [Lose(0)];
    }
  }

  /** Then single failures up to the fourth. */
  lemma {:induction false} FailSingly(inFlight: nat, lockout: int, lost: nat, count: nat) returns (s: seq<Event>)
    requires inFlight > 0 && count < MAX_FAILED
    ensures var n := Exec(inFlight, lockout, START, s);
      Pending(n.tries) == 0 && |n.tries| == count && n.now == 0 && n.lock == Lock(count, None) && n.fifth.None? &&
      Extended([], n.lost, lost, 0) && |n.readTimes| == lost + count && AllUpTo(n.readTimes, 0)
  {
    if count == 0 {
      s := LoseMany(inFlight, lockout, lost);
    } else {
      var first := FailSingly(inFlight, lockout, lost, count - 1);
      var last := Burst(inFlight, lockout, Exec(inFlight, lockout, START, first), 1);
      ExecAppend(inFlight, lockout, START, first, last);
      s := first + last;
    }
  }

  predicate AllUpTo(times: seq<int>, t: int) { forall i | 0 <= i < |times| :: times[i] <= t }

  /** Then bursts of inFlight requests, one as soon as each lockout ends. */
  lemma {:induction false} Rounds(inFlight: nat, lockout: nat, lost: nat, q: nat) returns (s: seq<Event>)
    requires inFlight > 0
    ensures var n := Exec(inFlight, lockout, START, s);
      Pending(n.tries) == 0 && n.now == q * lockout && n.lock.failed >= MAX_FAILED &&
      n.lock.lockedUntil == Some(n.now + lockout) && n.fifth.Some? && n.fifth.value.0 == 0 &&
      Extended([], n.lost, lost, 0) && |n.readTimes| == lost + 4 + inFlight + q * inFlight &&
      AllUpTo(n.readTimes, n.now)
  {
    if q == 0 {
      var four := FailSingly(inFlight, lockout, lost, 4);
      var burst := Burst(inFlight, lockout, Exec(inFlight, lockout, START, four), inFlight);
      ExecAppend(inFlight, lockout, START, four, burst);
      s := four + burst;
    } else {
      var first := Rounds(inFlight, lockout, lost, q - 1);
      var m := Exec(inFlight, lockout, START, first);
      One(inFlight, lockout, m, Tick(lockout));
      var m1 := Apply(inFlight, lockout, m, Tick(lockout));
      var burst := Burst(inFlight, lockout, m1, inFlight);
      ExecAppend(inFlight, lockout, START, first, [Tick(lockout)]);
      ExecAppend(inFlight, lockout, START, first + [Tick(lockout)], burst);
      s := first + [Tick(lockout)] + burst;
      assert q * lockout == (q - 1) * lockout + lockout && q * inFlight == (q - 1) * inFlight + inFlight;
    }
  }

  lemma {:induction false} CountAll(times: seq<int>, t: int)
    requires AllUpTo(times, t)
    ensures CountUpTo(times, t) == |times|
  {
    if times != [] { CountAll(times[..|times| - 1], t); }
  }

  /**
   * For every number in flight, lockout, time and number of lost increments, some schedule evaluates as many
   * passwords as the bound allows.
   */
  lemma RateAttained(inFlight: nat, lockout: nat, lost: nat, t: nat) returns (schedule: seq<Event>)
    requires inFlight > 0 && lockout > 0
    ensures var m := Exec(inFlight, lockout, START, schedule);
      m.fifth.Some? && |m.lost| == lost && CountUpTo(m.lost, m.fifth.value.0 + t) == lost &&
      CountUpTo(m.readTimes, m.fifth.value.0 + t) == Limit(inFlight, lockout, t) + lost
  {
    var q := t / lockout;
    schedule := Rounds(inFlight, lockout, lost, q);
    var m := Exec(inFlight, lockout, START, schedule);
    assert q * lockout <= t;
    CountAll(m.readTimes, t);
    CountAll(m.lost, t);
  }
}
