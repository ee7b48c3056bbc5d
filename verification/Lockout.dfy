/**
 * Account lockout (pkg/repository/users_repo.go, pkg/domain/user.go, PasswordService.Authenticate): the
 * counter and deadline of one account and what they say about its login history.
 */
module Lockout {
  import opened Prelude

  const MAX_FAILED := 5

  datatype Lock = Lock(failed: nat, lockedUntil: Option<int>)

  const UNLOCKED := Lock(0, None)

  predicate IsLocked(l: Lock, now: int) { l.lockedUntil.Some? && now < l.lockedUntil.value }

  /** IncrementFailedLoginAttempts: one UPDATE with the deadline as a CASE on the new count. */
  function Increment(l: Lock, now: int, lockout: int): Lock {
    Lock(l.failed + 1, if l.failed + 1 >= MAX_FAILED then Some(now + lockout) else l.lockedUntil)
  }

  // ---- the row as a summary of history

  /** One evaluated password: when, and whether it was right. */
  datatype Attempt = Attempt(time: int, ok: bool)

  /** Wrong attempts since the last right one. */
  function WrongStreak(h: seq<Attempt>): nat {
    if h == [] || h[|h| - 1].ok then 0 else WrongStreak(h[..|h| - 1]) + 1
  }

  /** The row says how many attempts have failed since the last success, and is locked from the fifth on. */
  predicate Summarizes(l: Lock, h: seq<Attempt>, lockout: int) {
    l.failed == WrongStreak(h) &&
    l.lockedUntil == if WrongStreak(h) >= MAX_FAILED then Some(h[|h| - 1].time + lockout) else None
  }

  lemma WrongExtends(l: Lock, h: seq<Attempt>, now: int, lockout: int)
    requires Summarizes(l, h, lockout)
    ensures Summarizes(Increment(l, now, lockout), h + [Attempt(now, false)], lockout)
  {
  }
}
