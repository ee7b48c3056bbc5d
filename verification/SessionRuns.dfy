/**
 * Runs of session requests: garbage collection changes no answer as long as its cutoff is at most one clock
 * tick ahead, and a later cutoff changes the answer for every live session it reaches.
 */
module SessionRuns {
  import opened Prelude
  import opened SessionTable
  import opened SessionService

  datatype Op =
    | Issue(user: UserId, h: SessionHash, request: Option<string>, mfa: bool)
    | Refresh(token: Presented, request: Option<string>)
    | Logout(token: Presented)
    | LogoutAll(user: UserId)
    | CollectOlder(age: int)
    | SetUser(user: UserId, mfaEnabled: bool)
    | DeleteUser(user: UserId)
    | Tick(d: nat)

  /** The tables, the clock, and every refresh token ever drawn. */
  datatype Machine = Machine(db: Db, now: int, drawn: set<SessionHash>)

  const START := Machine(Db(map[], map[]), 0, {})

  function Step(cfg: Config, m: Machine, op: Op): (Machine, Response) {
    match op
    case Issue(u, h, request, mfa) =>
      if h in m.drawn then (m, ServerError) // the random source never repeats a token
      else
        var (db, r) := IssueSession(cfg, m.db, u, h, request, mfa, m.now);
        (m.(db := db, drawn := m.drawn + {h}), Answer(r))
    case Refresh(token, request) =>
      var (db, r) := HandleRefresh(cfg, m.db, token, request, m.now);
      (m.(db := db), r)
    case Logout(token) =>
      var (db, r) := HandleLogout(m.db, token, m.now);
      (m.(db := db), r)
    case LogoutAll(u) =>
      var (db, r) := HandleLogoutAll(m.db, u, m.now);
      (m.(db := db), r)
    case CollectOlder(age) => (m.(db := m.db.(sessions := Collect(m.db.sessions, m.now - age))), NoContent)
    case SetUser(u, mfaEnabled) => (m.(db := m.db.(users := m.db.users[u := mfaEnabled])), NoContent)
    case DeleteUser(u) => (m.(db := Db(m.db.users - {u}, CascadeUser(m.db.sessions, u))), NoContent)
    case Tick(d) => (m.(now := m.now + d), NoContent)
  }

  /** The answers to all operations but garbage collection. */
  function Answers(cfg: Config, m: Machine, ops: seq<Op>): seq<Response>
    decreases |ops|
  {
    if ops == [] then []
    else
      var (m', r) := Step(cfg, m, ops[0]);
      (if ops[0].CollectOlder? then [] else [r]) + Answers(cfg, m', ops[1..])
  }

  // ---- garbage collection is invisible

  function WithoutCollection(ops: seq<Op>): seq<Op> {
    if ops == [] then [] else (if ops[0].CollectOlder? then [] else [ops[0]]) + WithoutCollection(ops[1..])
  }

  predicate AgesFrom(ops: seq<Op>, least: int) {
    forall i :: 0 <= i < |ops| && ops[i].CollectOlder? ==> ops[i].age >= least
  }

  function Live(t: Table, h: SessionHash, now: int): Option<Session> {
    if h in t && IsValid(t[h], now) then Some(t[h]) else None
  }

  /** Two states that differ only in sessions no request can use any more. */
  ghost predicate SameLive(m: Machine, m': Machine) {
    m.now == m'.now && m.drawn == m'.drawn && m.db.users == m'.db.users &&
    m.db.sessions.Keys <= m.drawn && m'.db.sessions.Keys <= m.drawn &&
    forall h :: Live(m.db.sessions, h, m.now) == Live(m'.db.sessions, h, m.now)
  }

  lemma CollectionKeepsLive(cfg: Config, m: Machine, m': Machine, age: int)
    requires SameLive(m, m') && age >= -1
    ensures SameLive(Step(cfg, m, CollectOlder(age)).0, m')
  {
  }

  lemma SameAnswer(cfg: Config, m: Machine, m': Machine, op: Op)
    requires SameLive(m, m') && !op.CollectOlder?
    ensures Step(cfg, m, op).1 == Step(cfg, m', op).1
    ensures SameLive(Step(cfg, m, op).0, Step(cfg, m', op).0)
  {
    var n, n' := Step(cfg, m, op).0, Step(cfg, m', op).0;
    if op.Refresh? && op.token.Given? {
      assert Live(m.db.sessions, op.token.h, m.now) == Live(m'.db.sessions, op.token.h, m.now);
    }
    forall h ensures Live(n.db.sessions, h, n.now) == Live(n'.db.sessions, h, n.now) {
      assert Live(m.db.sessions, h, m.now) == Live(m'.db.sessions, h, m.now);
    }
  }

  lemma {:induction false} AnswersIgnoreCollection(cfg: Config, m: Machine, m': Machine, ops: seq<Op>)
    requires SameLive(m, m')
    requires AgesFrom(ops, -1)
    ensures Answers(cfg, m, ops) == Answers(cfg, m', WithoutCollection(ops))
    decreases |ops|
  {
    if ops != [] {
      var rest := ops[1..];
      if ops[0].CollectOlder? {
        CollectionKeepsLive(cfg, m, m', ops[0].age);
        assert WithoutCollection(ops) == WithoutCollection(rest);
        assert Answers(cfg, m, ops) == Answers(cfg, Step(cfg, m, ops[0]).0, rest);
        AnswersIgnoreCollection(cfg, Step(cfg, m, ops[0]).0, m', rest);
      } else {
        SameAnswer(cfg, m, m', ops[0]);
        AnswersIgnoreCollection(cfg, Step(cfg, m, ops[0]).0, Step(cfg, m', ops[0]).0, rest);
        assert WithoutCollection(ops)[1..] == WithoutCollection(rest);
      }
    }
  }

  /**
   * Two runs that differ only in where, how often and with what age the collector runs get the same
   * answers to every request.
   */
  lemma CollectionInvisible(cfg: Config, ops: seq<Op>, ops': seq<Op>)
    requires WithoutCollection(ops) == WithoutCollection(ops')
    requires AgesFrom(ops, -1)
    requires AgesFrom(ops', -1)
    ensures Answers(cfg, START, ops) == Answers(cfg, START, ops')
  {
    AnswersIgnoreCollection(cfg, START, START, ops);
    AnswersIgnoreCollection(cfg, START, START, ops');
  }

  /** A collection changes the answer to a refresh exactly when its cutoff lies beyond the expiry of a live session. */
  lemma CollectionVisibleIff(cfg: Config, m: Machine, age: int, h: SessionHash)
    requires h in m.db.sessions && m.db.sessions[h].userId in m.db.users
    ensures
      var collected := Step(cfg, m, CollectOlder(age)).0;
      Step(cfg, collected, Refresh(Given(h), None)).1 != Step(cfg, m, Refresh(Given(h), None)).1 <==>
      IsValid(m.db.sessions[h], m.now) && m.db.sessions[h].expiresAt < m.now - age
  {
  }
}
