/**
 * How long access tokens live. A refresh is two steps here: it reads and checks the session row, and at most
 * `delay` later it mints a token from what it read. Anything may happen in between.
 */
module SessionLifetime {
  import opened Prelude
  import opened SessionTable
  import opened SessionService

  type RequestId = nat

  /** A refresh that has read a usable row and has not answered yet. */
  datatype Pending = Pending(h: SessionHash, user: UserId, readAt: int)

  datatype Birth = Birth(user: UserId, at: int, fingerprint: Option<string>)

  /** An access token, and the moment it was minted. */
  datatype Minted = Minted(token: AccessToken, at: int)

  /**
   * The tables, the clock, the refreshes under way, and a log: when each session was created, when it was
   * first seen revoked or gone, and every access token minted.
   */
  datatype Machine = Machine(db: Db, now: int, pending: map<RequestId, Pending>,
                             born: map<SessionHash, Birth>, ended: map<SessionHash, int>, minted: set<Minted>)

  datatype Action =
    | Issue(user: UserId, h: SessionHash, request: Option<string>, mfa: bool)
    | Read(id: RequestId, h: SessionHash, request: Option<string>)
    | Mint(id: RequestId)
    | Logout(h: SessionHash)
    | LogoutAll(user: UserId)
    | CollectOlder(age: int)
    | SetUser(user: UserId, mfaEnabled: bool)
    | DeleteUser(user: UserId)
    | Tick(d: nat)

  const START := Machine(Db(map[], map[]), 0, map[], map[], map[], {})

  /** Notes the sessions that a statement took from unrevoked in t to revoked or gone in t'. */
  function Note(ended: map<SessionHash, int>, t: Table, t': Table, now: int): map<SessionHash, int> {
    map h | h in ended.Keys + t.Keys && (h in ended || (Find(t, h).Some? && Find(t', h).None?)) ::
      if h in ended then ended[h] else now
  }

  function WithDb(m: Machine, db: Db): Machine {
    m.(db := db, ended := Note(m.ended, m.db.sessions, db.sessions, m.now))
  }

  /** The first half of RefreshSession: the row as read, or what the request answers with at once. */
  function ReadRow(cfg: Config, db: Db, h: SessionHash, request: Option<string>, now: int)
    : (Db, Result<Session, SessionError>)
  {
    var s := Find(db.sessions, h);
    if s.None? then (db, Err(NotFound))
    else if !IsValid(s.value, now) then (db, Err(Expired))
    else if Mismatch(cfg, s.value, request) && cfg.detectReuse
    then (db.(sessions := Revoke(db.sessions, h, now)), Err(FingerprintMismatch))
    else (db, Ok(s.value))
  }

  /** The second half: touch the row, load the user, mint. */
  function MintToken(cfg: Config, db: Db, h: SessionHash, u: UserId, now: int)
    : (Db, Result<AccessToken, SessionError>)
  {
    var db' := db.(sessions := Touch(db.sessions, h, now));
    if u !in db.users then (db', Err(UserNotFound)) else (db', Ok(Token(cfg, u, h, now, db.users[u], false)))
  }

  /** With nothing in between the two halves are RefreshSession. */
  lemma HalvesMakeRefresh(cfg: Config, db: Db, h: SessionHash, request: Option<string>, now: int)
    ensures var (db1, s) := ReadRow(cfg, db, h, request, now);
      RefreshSession(cfg, db, h, request, now) ==
      if s.Ok? then MintToken(cfg, db1, h, s.value.userId, now) else (db1, Err(s.error))
  {
  }

  function Apply(cfg: Config, delay: nat, m: Machine, a: Action): Machine {
    match a
    case Issue(u, h, request, mfa) =>
      if h in m.born then m
      else
        var (db, r) := IssueSession(cfg, m.db, u, h, request, mfa, m.now);
        if r.Ok?
        then WithDb(m, db).(born := m.born[h := Birth(u, m.now, request)],
                            minted := m.minted + {Minted(r.value, m.now)})
        else m
    case Read(id, h, request) =>
      if id in m.pending then m
      else
        var (db, r) := ReadRow(cfg, m.db, h, request, m.now);
        if r.Ok? then m.(pending := m.pending[id := Pending(h, r.value.userId, m.now)]) else WithDb(m, db)
    case Mint(id) =>
      if id !in m.pending then m
      else
        var p := m.pending[id];
        var (db, r) := MintToken(cfg, m.db, p.h, p.user, m.now);
        WithDb(m, db).(pending := m.pending - {id},
                       minted := if r.Ok? then m.minted + {Minted(r.value, m.now)} else m.minted)
    case Logout(h) => WithDb(m, m.db.(sessions := Revoke(m.db.sessions, h, m.now)))
    case LogoutAll(u) => WithDb(m, m.db.(sessions := RevokeAll(m.db.sessions, u, m.now)))
    case CollectOlder(age) => WithDb(m, m.db.(sessions := Collect(m.db.sessions, m.now - age)))
    case SetUser(u, mfaEnabled) => WithDb(m, m.db.(users := m.db.users[u := mfaEnabled]))
    case DeleteUser(u) => WithDb(m, Db(m.db.users - {u}, CascadeUser(m.db.sessions, u)))
    case Tick(d) =>
      // no refresh stays under way for longer than delay
      if forall id | id in m.pending :: m.now + d <= m.pending[id].readAt + delay then m.(now := m.now + d) else m
  }

  function Exec(cfg: Config, delay: nat, m: Machine, schedule: seq<Action>): Machine
    decreases |schedule|
  {
    if schedule == [] then m else Exec(cfg, delay, Apply(cfg, delay, m, schedule[0]), schedule[1..])
  }

  // ---- the invariant

  /** A token minted by a refresh is read from the session by its last moment. */
  predicate TokenBounded(cfg: Config, delay: nat, m: Machine, x: Minted) {
    var t := x.token;
    t.session in m.born && t.user == m.born[t.session].user && x.at <= m.now &&
    t.issuedAt == x.at && t.expiresAt == x.at + cfg.accessTtl &&
    (x.at == m.born[t.session].at || x.at < m.born[t.session].at + cfg.refreshTtl + delay) &&
    (t.session in m.ended ==> x.at <= m.ended[t.session] + delay)
  }

  predicate RowLogged(cfg: Config, m: Machine, h: SessionHash) {
    (h in m.db.sessions ==>
      h in m.born && m.db.sessions[h].userId == m.born[h].user && m.born[h].user in m.db.users &&
      m.db.sessions[h].expiresAt == m.born[h].at + cfg.refreshTtl &&
      m.db.sessions[h].fingerprint == if cfg.fingerprintEnabled then m.born[h].fingerprint else None) &&
    (h in m.born ==> m.born[h].at <= m.now && (h in m.ended <==> Find(m.db.sessions, h).None?)) &&
    (h in m.ended ==> h in m.born && m.born[h].at <= m.ended[h] <= m.now)
  }

  predicate PendingInTime(cfg: Config, delay: nat, m: Machine, p: Pending) {
    p.h in m.born && p.user == m.born[p.h].user && p.readAt < m.born[p.h].at + cfg.refreshTtl &&
    (p.h in m.ended ==> p.readAt <= m.ended[p.h]) && p.readAt <= m.now <= p.readAt + delay
  }

  ghost predicate Inv(cfg: Config, delay: nat, m: Machine) {
    (forall h :: RowLogged(cfg, m, h)) &&
    (forall id | id in m.pending :: PendingInTime(cfg, delay, m, m.pending[id])) &&
    forall t | t in m.minted :: TokenBounded(cfg, delay, m, t)
  }

  /** Statements that create no session and extend none keep the invariant. */
  lemma WithDbKeeps(cfg: Config, delay: nat, m: Machine, db: Db)
    requires Inv(cfg, delay, m)
    requires db.sessions.Keys <= m.db.sessions.Keys
    requires forall h | h in db.sessions ::
      db.sessions[h].expiresAt == m.db.sessions[h].expiresAt && db.sessions[h].userId == m.db.sessions[h].userId &&
      db.sessions[h].fingerprint == m.db.sessions[h].fingerprint &&
      (m.db.sessions[h].userId in m.db.users ==> db.sessions[h].userId in db.users)
    requires forall h | Find(db.sessions, h).Some? :: Find(m.db.sessions, h).Some?
    ensures Inv(cfg, delay, WithDb(m, db))
  {
    var n := WithDb(m, db);
    forall h ensures RowLogged(cfg, n, h) { assert RowLogged(cfg, m, h); }
    forall t | t in n.minted ensures TokenBounded(cfg, delay, n, t) { assert TokenBounded(cfg, delay, m, t); }
    forall id | id in n.pending ensures PendingInTime(cfg, delay, n, n.pending[id]) {
      assert PendingInTime(cfg, delay, m, m.pending[id]);
    }
  }

  lemma IssueKeeps(cfg: Config, delay: nat, m: Machine, a: Action)
    requires Inv(cfg, delay, m) && a.Issue?
    ensures Inv(cfg, delay, Apply(cfg, delay, m, a))
  {
    var n := Apply(cfg, delay, m, a);
    assert RowLogged(cfg, m, a.h);
    forall h ensures RowLogged(cfg, n, h) { assert RowLogged(cfg, m, h); }
    forall t | t in n.minted ensures TokenBounded(cfg, delay, n, t) {
      if t in m.minted { assert TokenBounded(cfg, delay, m, t); }
    }
    forall id | id in n.pending ensures PendingInTime(cfg, delay, n, n.pending[id]) {
      assert PendingInTime(cfg, delay, m, m.pending[id]);
    }
  }

  lemma MintKeeps(cfg: Config, delay: nat, m: Machine, id: RequestId)
    requires Inv(cfg, delay, m) && id in m.pending
    ensures Inv(cfg, delay, Apply(cfg, delay, m, Mint(id)))
  {
    var n := Apply(cfg, delay, m, Mint(id));
    WithDbKeeps(cfg, delay, m, n.db);
    var w := WithDb(m, n.db);
    assert PendingInTime(cfg, delay, w, w.pending[id]);
    forall h ensures RowLogged(cfg, n, h) { assert RowLogged(cfg, w, h); }
    forall t | t in n.minted ensures TokenBounded(cfg, delay, n, t) {
      if t in w.minted { assert TokenBounded(cfg, delay, w, t); }
    }
    forall j | j in n.pending ensures PendingInTime(cfg, delay, n, n.pending[j]) {
      assert PendingInTime(cfg, delay, w, w.pending[j]);
    }
  }

  lemma ReadKeeps(cfg: Config, delay: nat, m: Machine, a: Action)
    requires Inv(cfg, delay, m) && a.Read?
    ensures Inv(cfg, delay, Apply(cfg, delay, m, a))
  {
    var n := Apply(cfg, delay, m, a);
    assert RowLogged(cfg, m, a.h);
    if a.id !in m.pending && ReadRow(cfg, m.db, a.h, a.request, m.now).1.Err? {
      WithDbKeeps(cfg, delay, m, n.db);
    } else {
      forall h ensures RowLogged(cfg, n, h) { assert RowLogged(cfg, m, h); }
      forall t | t in n.minted ensures TokenBounded(cfg, delay, n, t) { assert TokenBounded(cfg, delay, m, t); }
      forall j | j in n.pending ensures PendingInTime(cfg, delay, n, n.pending[j]) {
        if j in m.pending { assert PendingInTime(cfg, delay, m, m.pending[j]); }
      }
    }
  }

  lemma TickKeeps(cfg: Config, delay: nat, m: Machine, d: nat)
    requires Inv(cfg, delay, m)
    ensures Inv(cfg, delay, Apply(cfg, delay, m, Tick(d)))
  {
    var n := Apply(cfg, delay, m, Tick(d));
    forall h ensures RowLogged(cfg, n, h) { assert RowLogged(cfg, m, h); }
    forall t | t in n.minted ensures TokenBounded(cfg, delay, n, t) { assert TokenBounded(cfg, delay, m, t); }
    forall id | id in n.pending ensures PendingInTime(cfg, delay, n, n.pending[id]) {
      assert PendingInTime(cfg, delay, m, m.pending[id]);
    }
  }

  lemma ApplyKeeps(cfg: Config, delay: nat, m: Machine, a: Action)
    requires Inv(cfg, delay, m)
    ensures Inv(cfg, delay, Apply(cfg, delay, m, a))
  {
    if a.Issue? { IssueKeeps(cfg, delay, m, a); }
    else if a.Read? { ReadKeeps(cfg, delay, m, a); }
    else if a.Mint? {
      if a.id in m.pending { MintKeeps(cfg, delay, m, a.id); }
    }
    else if a.Tick? { TickKeeps(cfg, delay, m, a.d); }
    else { WithDbKeeps(cfg, delay, m, Apply(cfg, delay, m, a).db); }
  }

  lemma {:induction false} ExecKeeps(cfg: Config, delay: nat, m: Machine, schedule: seq<Action>)
    requires Inv(cfg, delay, m)
    ensures Inv(cfg, delay, Exec(cfg, delay, m, schedule))
    decreases |schedule|
  {
    if schedule != [] {
      ApplyKeeps(cfg, delay, m, schedule[0]);
      ExecKeeps(cfg, delay, Apply(cfg, delay, m, schedule[0]), schedule[1..]);
    }
  }

  // ---- the results

  /**
   * In every interleaving, each access token is for the user of its session, expires within
   * refreshTtl + delay + accessTtl of the creation of its session, and within delay + accessTtl of the moment
   * the session was revoked or removed.
   */
  lemma LifetimeBound(cfg: Config, delay: nat, schedule: seq<Action>)
    ensures var m := Exec(cfg, delay, START, schedule);
      forall x | x in m.minted ::
        var t := x.token;
        t.issuedAt == x.at && t.expiresAt == x.at + cfg.accessTtl &&
        t.session in m.born && t.user == m.born[t.session].user &&
        (x.at == m.born[t.session].at || t.expiresAt < m.born[t.session].at + cfg.refreshTtl + delay + cfg.accessTtl) &&
        (t.session in m.ended ==> t.expiresAt <= m.ended[t.session] + delay + cfg.accessTtl)
  {
    ExecKeeps(cfg, delay, START, schedule);
    var m := Exec(cfg, delay, START, schedule);
    forall x | x in m.minted ensures TokenBounded(cfg, delay, m, x) {}
  }

  lemma EndedStep(cfg: Config, delay: nat, m: Machine, a: Action, h: SessionHash)
    requires h in m.ended
    ensures var n := Apply(cfg, delay, m, a); h in n.ended && n.ended[h] == m.ended[h]
  {
  }

  /** The log only grows: what ended once has ended at that moment ever after. */
  lemma {:induction false} EndedStays(cfg: Config, delay: nat, m: Machine, schedule: seq<Action>, h: SessionHash)
    requires h in m.ended
    ensures var n := Exec(cfg, delay, m, schedule); h in n.ended && n.ended[h] == m.ended[h]
    decreases |schedule|
  {
    if schedule != [] {
      EndedStep(cfg, delay, m, schedule[0], h);
      EndedStays(cfg, delay, Apply(cfg, delay, m, schedule[0]), schedule[1..], h);
    }
  }

  /** A session that was revoked or removed is never refreshed by a request that starts later. */
  lemma EndedIsFinal(cfg: Config, delay: nat, before: seq<Action>, after: seq<Action>, h: SessionHash,
                     request: Option<string>, now: int)
    requires h in Exec(cfg, delay, START, before).ended
    ensures var m := Exec(cfg, delay, Exec(cfg, delay, START, before), after);
      RefreshSession(cfg, m.db, h, request, now) == (m.db, Err(NotFound))
  {
    var m := Exec(cfg, delay, START, before);
    ExecKeeps(cfg, delay, START, before);
    ExecKeeps(cfg, delay, m, after);
    EndedStays(cfg, delay, m, after, h);
    assert RowLogged(cfg, Exec(cfg, delay, m, after), h);
  }

  /** A refresh whose fingerprint differs from the stored one, with reuse detection on. */
  predicate IsTheft(cfg: Config, m: Machine, a: Action, h: SessionHash) {
    a.Read? && a.h == h && a.id !in m.pending && cfg.detectReuse &&
    h in m.db.sessions && m.now < m.db.sessions[h].expiresAt && Mismatch(cfg, m.db.sessions[h], a.request)
  }

  /** What takes away the unrevoked session h. */
  predicate TakesAway(cfg: Config, m: Machine, a: Action, h: SessionHash)
    requires h in m.db.sessions
  {
    (a.Logout? && a.h == h) || IsTheft(cfg, m, a, h) ||
    ((a.LogoutAll? || a.DeleteUser?) && a.user == m.db.sessions[h].userId) ||
    (a.CollectOlder? && m.db.sessions[h].expiresAt < m.now - a.age)
  }

  lemma StepEnds(cfg: Config, delay: nat, m: Machine, a: Action, h: SessionHash)
    requires Inv(cfg, delay, m) && Find(m.db.sessions, h).Some?
    ensures var n := Apply(cfg, delay, m, a);
      (TakesAway(cfg, m, a, h) <==> h in n.ended) && (h in n.ended ==> n.ended[h] == m.now)
  {
    assert RowLogged(cfg, m, h);
  }

  /** Without a fingerprint to compare, a refresh reads exactly the unrevoked rows that are in time. */
  lemma ReadsLiveRows(cfg: Config, db: Db, h: SessionHash, now: int)
    ensures ReadRow(cfg, db, h, None, now).1.Ok? <==> Find(db.sessions, h).Some? && now < db.sessions[h].expiresAt
  {
  }

  /**
   * In every reachable state an unrevoked session ends with the next step exactly when that step is its logout,
   * its user's logout everywhere or deletion, a refresh with the wrong fingerprint under reuse detection, or a
   * collection past its expiry. While it has not ended a refresh works exactly until refreshTtl after its creation.
   */
  lemma EndsExactlyBy(cfg: Config, delay: nat, schedule: seq<Action>, a: Action, h: SessionHash)
    requires Find(Exec(cfg, delay, START, schedule).db.sessions, h).Some?
    ensures var m := Exec(cfg, delay, START, schedule);
      var n := Apply(cfg, delay, m, a);
      h in n.born && (TakesAway(cfg, m, a, h) <==> h in n.ended) &&
      (ReadRow(cfg, n.db, h, None, n.now).1.Ok? <==> !TakesAway(cfg, m, a, h) && n.now < n.born[h].at + cfg.refreshTtl)
  {
    ExecKeeps(cfg, delay, START, schedule);
    var m := Exec(cfg, delay, START, schedule);
    StepEnds(cfg, delay, m, a, h);
    EndsMeans(cfg, delay, m, a, h);
  }

  lemma EndsMeans(cfg: Config, delay: nat, m: Machine, a: Action, h: SessionHash)
    requires Inv(cfg, delay, m) && Find(m.db.sessions, h).Some?
    ensures var n := Apply(cfg, delay, m, a);
      h in n.born &&
      (ReadRow(cfg, n.db, h, None, n.now).1.Ok? <==> h !in n.ended && n.now < n.born[h].at + cfg.refreshTtl)
  {
    var n := Apply(cfg, delay, m, a);
    ApplyKeeps(cfg, delay, m, a);
    assert RowLogged(cfg, m, h) && RowLogged(cfg, n, h);
    BornStays(cfg, delay, m, a, h);
    ReadsLiveRows(cfg, n.db, h, n.now);
  }

  lemma BornStays(cfg: Config, delay: nat, m: Machine, a: Action, h: SessionHash)
    requires h in m.born
    ensures h in Apply(cfg, delay, m, a).born
  {
  }

  /**
   * What a refresh answers in every reachable state, told from the log: unauthorized for a session never issued,
   * ended, or refreshTtl old; a server error, with the session revoked, for a fingerprint that differs from the
   * stored one under reuse detection; and otherwise a new token of the session's user for accessTtl from now, which
   * claims a second factor only for a user who needs none.
   */
  lemma RefreshAnswers(cfg: Config, delay: nat, schedule: seq<Action>, h: SessionHash, request: Option<string>)
    ensures var m := Exec(cfg, delay, START, schedule);
      var (db, answer) := HandleRefresh(cfg, m.db, Given(h), request, m.now);
      if h !in m.born || h in m.ended || m.now >= m.born[h].at + cfg.refreshTtl then
        answer == Unauthorized && db == m.db
      else if cfg.detectReuse && cfg.fingerprintEnabled && request.Some? && m.born[h].fingerprint.Some? &&
              request != m.born[h].fingerprint then
        answer == ServerError && h in m.db.sessions && db.users == m.db.users &&
        db.sessions == m.db.sessions[h := m.db.sessions[h].(revokedAt := Some(m.now))]
      else
        m.born[h].user in m.db.users && h in m.db.sessions && db.users == m.db.users &&
        db.sessions == m.db.sessions[h := m.db.sessions[h].(lastSeenAt := Some(m.now))] &&
        answer == Tokens(AccessToken(m.born[h].user, h, m.now, m.now + cfg.accessTtl, !m.db.users[m.born[h].user]))
  {
    ExecKeeps(cfg, delay, START, schedule);
    assert RowLogged(cfg, Exec(cfg, delay, START, schedule), h);
  }

  /** What a step mints, and who for: a user who exists. */
  function MintedBy(cfg: Config, m: Machine, a: Action): set<Minted> {
    if a.Issue? && a.h !in m.born && a.user in m.db.users then
      {Minted(AccessToken(a.user, a.h, m.now, m.now + cfg.accessTtl, a.mfa || !m.db.users[a.user]), m.now)}
    else if a.Mint? && a.id in m.pending && m.pending[a.id].user in m.db.users then
      var p := m.pending[a.id];
      {Minted(AccessToken(p.user, p.h, m.now, m.now + cfg.accessTtl, !m.db.users[p.user]), m.now)}
    else {}
  }

  lemma IssueMints(cfg: Config, delay: nat, m: Machine, a: Action)
    requires a.Issue? && RowLogged(cfg, m, a.h)
    ensures Apply(cfg, delay, m, a).minted == m.minted + MintedBy(cfg, m, a)
  {
  }

  lemma MintMints(cfg: Config, delay: nat, m: Machine, a: Action)
    requires a.Mint?
    ensures Apply(cfg, delay, m, a).minted == m.minted + MintedBy(cfg, m, a)
  {
  }

  lemma OthersMintNothing(cfg: Config, delay: nat, m: Machine, a: Action)
    requires !a.Issue? && !a.Mint?
    ensures Apply(cfg, delay, m, a).minted == m.minted
  {
  }

  /**
   * Which steps mint, and what: opening a session for a user who exists, under a hash not drawn before, and the second
   * half of a refresh whose user still exists. Nothing else does.
   */
  lemma MintsExactly(cfg: Config, delay: nat, schedule: seq<Action>, a: Action)
    ensures var m := Exec(cfg, delay, START, schedule);
      Apply(cfg, delay, m, a).minted == m.minted + MintedBy(cfg, m, a)
  {
    var m := Exec(cfg, delay, START, schedule);
    ExecKeeps(cfg, delay, START, schedule);
    if a.Issue? {
      assert RowLogged(cfg, m, a.h);
      IssueMints(cfg, delay, m, a);
    } else if a.Mint? { MintMints(cfg, delay, m, a); }
    else { OthersMintNothing(cfg, delay, m, a); }
  }

  /** A request without a refresh token: for a web client it is one that has no session, for any client a bad one. */
  lemma NoTokenAnswers(cfg: Config, db: Db, request: Option<string>, now: int)
    ensures HandleRefresh(cfg, db, NoCookie, request, now) == (db, Unauthorized)
    ensures HandleRefresh(cfg, db, Empty, request, now) == (db, BadRequest)
    ensures Answer(Err(UserNotFound)) == ServerError
  {
  }

  // ---- the bounds are reached

  ghost predicate Reachable(cfg: Config, delay: nat, m: Machine) {
    exists schedule :: Exec(cfg, delay, START, schedule) == m
  }

  lemma {:induction false} OneMoreStep(cfg: Config, delay: nat, m: Machine, schedule: seq<Action>, a: Action)
    ensures Exec(cfg, delay, m, schedule + [a]) == Apply(cfg, delay, Exec(cfg, delay, m, schedule), a)
    decreases |schedule|
  {
    if schedule == [] {
      assert [a][1..] == [] && schedule + [a] == [a];
    } else {
      assert (schedule + [a])[1..] == schedule[1..] + [a];
      OneMoreStep(cfg, delay, Apply(cfg, delay, m, schedule[0]), schedule[1..], a);
    }
  }

  lemma StepReachable(cfg: Config, delay: nat, m: Machine, a: Action)
    requires Reachable(cfg, delay, m)
    ensures Reachable(cfg, delay, Apply(cfg, delay, m, a))
  {
    var schedule :| Exec(cfg, delay, START, schedule) == m;
    OneMoreStep(cfg, delay, START, schedule, a);
  }

  /** A session, and a refresh of it that reads the row in the last tick. */
  lemma LastTickRead(cfg: Config, delay: nat) returns (m: Machine)
    requires cfg.refreshTtl > 0
    ensures Reachable(cfg, delay, m) && m.now == cfg.refreshTtl - 1 && 0 in m.db.users && Find(m.db.sessions, 7).Some?
    ensures m.pending == map[1 := Pending(7, 0, m.now)] && m.born == map[7 := Birth(0, 0, None)] && m.ended == map[]
  {
    var m1 := SessionOpened(cfg, delay);
    StepReachable(cfg, delay, m1, Tick(cfg.refreshTtl - 1));
    var m2 := Apply(cfg, delay, m1, Tick(cfg.refreshTtl - 1));
    StepReachable(cfg, delay, m2, Read(1, 7, None));
    m := Apply(cfg, delay, m2, Read(1, 7, None));
  }

  lemma SessionOpened(cfg: Config, delay: nat) returns (m: Machine)
    ensures Reachable(cfg, delay, m) && m.now == 0 && 0 in m.db.users && m.pending == map[] && m.ended == map[]
    ensures m.born == map[7 := Birth(0, 0, None)]
    ensures m.db.sessions == map[7 := Session(0, 0, cfg.refreshTtl, None, None, None)]
  {
    assert Exec(cfg, delay, START, []) == START;
    StepReachable(cfg, delay, START, SetUser(0, false));
    var m1 := Apply(cfg, delay, START, SetUser(0, false));
    StepReachable(cfg, delay, m1, Issue(0, 7, None, false));
    m := Apply(cfg, delay, m1, Issue(0, 7, None, false));
  }

  /** The bound on tokens of a session is reached, but for the tick in which it expires. */
  lemma LifetimeAttained(cfg: Config, delay: nat) returns (m: Machine, x: Minted)
    requires cfg.refreshTtl > 0
    ensures Reachable(cfg, delay, m) && x in m.minted && x.token.session in m.born
    ensures x.token.expiresAt == m.born[x.token.session].at + cfg.refreshTtl + delay + cfg.accessTtl - 1
  {
    var m1 := LastTickRead(cfg, delay);
    StepReachable(cfg, delay, m1, Tick(delay));
    var m2 := Apply(cfg, delay, m1, Tick(delay));
    StepReachable(cfg, delay, m2, Mint(1));
    m := Apply(cfg, delay, m2, Mint(1));
    x := Minted(AccessToken(0, 7, m.now, m.now + cfg.accessTtl, !m.db.users[0]), m.now);
  }

  /** The session is revoked while the refresh is under way. */
  lemma RevokedMeanwhile(cfg: Config, delay: nat) returns (m: Machine)
    requires cfg.refreshTtl > 0
    ensures Reachable(cfg, delay, m) && 0 in m.db.users && m.pending == map[1 := Pending(7, 0, m.now)]
    ensures 7 in m.ended && m.ended[7] == m.now
  {
    var m1 := LastTickRead(cfg, delay);
    StepReachable(cfg, delay, m1, Logout(7));
    m := Apply(cfg, delay, m1, Logout(7));
  }

  /** So is the bound on tokens of a session that has been revoked. */
  lemma RevokedLifetimeAttained(cfg: Config, delay: nat) returns (m: Machine, x: Minted)
    requires cfg.refreshTtl > 0
    ensures Reachable(cfg, delay, m) && x in m.minted && x.token.session in m.ended
    ensures x.token.expiresAt == m.ended[x.token.session] + delay + cfg.accessTtl
  {
    var m1 := RevokedMeanwhile(cfg, delay);
    StepReachable(cfg, delay, m1, Tick(delay));
    var m2 := Apply(cfg, delay, m1, Tick(delay));
    StepReachable(cfg, delay, m2, Mint(1));
    m := Apply(cfg, delay, m2, Mint(1));
    EndedStep(cfg, delay, m2, Mint(1), 7);
    x := Minted(AccessToken(0, 7, m.now, m.now + cfg.accessTtl, !m.db.users[0]), m.now);
  }
}
