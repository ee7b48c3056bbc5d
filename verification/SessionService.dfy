/**
 * Issuing, refreshing and revoking sessions (pkg/auth/session.go) and the HTTP answers given for them
 * (internal/http/features/session/handler.go), over the users and sessions tables.
 */
module SessionService {
  import opened Prelude
  import opened SessionTable

  datatype Config = Config(accessTtl: nat, refreshTtl: nat, fingerprintEnabled: bool, detectReuse: bool)

  /** The users table cut down to id and mfa_enabled, and the sessions table. */
  datatype Db = Db(users: map<UserId, bool>, sessions: Table)

  datatype SessionError = NotFound | Revoked | Expired | FingerprintMismatch | UserNotFound | Storage

  datatype AccessToken = AccessToken(user: UserId, session: SessionHash, issuedAt: int, expiresAt: int,
                                     mfaVerified: bool)

  /** What a client sees of a request. */
  datatype Response = Tokens(t: AccessToken) | Unauthorized | ServerError | NoContent | BadRequest

  function Token(cfg: Config, u: UserId, h: SessionHash, now: int, mfaEnabled: bool, optsMfaVerified: bool)
    : AccessToken
  {
    AccessToken(u, h, now, now + cfg.accessTtl, !mfaEnabled || optsMfaVerified)
  }

  // ---- the operations as functions on table values

  /** IssueSession; request is the fingerprint of the HTTP request, when the caller passes one. */
  function IssueSession(cfg: Config, db: Db, u: UserId, h: SessionHash, request: Option<string>, mfa: bool, now: int)
    : (Db, Result<AccessToken, SessionError>)
  {
    if u !in db.users then (db, Err(UserNotFound))
    else if h in db.sessions then (db, Err(Storage))
    else
      var fp := if cfg.fingerprintEnabled then request else None;
      (db.(sessions := db.sessions[h := Session(u, now, now + cfg.refreshTtl, None, None, fp)]),
       Ok(Token(cfg, u, h, now, db.users[u], mfa)))
  }

  /** The stored fingerprint is checked, and differs from that of the request. */
  predicate Mismatch(cfg: Config, s: Session, request: Option<string>) {
    cfg.fingerprintEnabled && request.Some? && s.fingerprint.Some? && s.fingerprint != request
  }

  function RefreshSession(cfg: Config, db: Db, h: SessionHash, request: Option<string>, now: int)
    : (Db, Result<AccessToken, SessionError>)
  {
    var s := Find(db.sessions, h);
    if s.None? then (db, Err(NotFound))
    else if now >= s.value.expiresAt then (db, Err(Expired))
    else if Mismatch(cfg, s.value, request) && cfg.detectReuse
    then (db.(sessions := Revoke(db.sessions, h, now)), Err(FingerprintMismatch))
    else
      var db' := db.(sessions := Touch(db.sessions, h, now));
      if s.value.userId !in db.users then (db', Err(UserNotFound))
      else (db', Ok(Token(cfg, s.value.userId, h, now, db.users[s.value.userId], false)))
  }

  /** The handler gives one answer for sessions that are missing, expired or revoked. */
  function Answer(r: Result<AccessToken, SessionError>): Response {
    match r
    case Ok(t) => Tokens(t)
    case Err(NotFound) => Unauthorized
    case Err(Expired) => Unauthorized
    case Err(Revoked) => Unauthorized
    case Err(_) => ServerError
  }

  /** The refresh token of a request: a web client may send no cookie, and any client an empty token. */
  datatype Presented = NoCookie | Empty | Given(h: SessionHash)

  function HandleRefresh(cfg: Config, db: Db, token: Presented, request: Option<string>, now: int): (Db, Response) {
    match token
    case NoCookie => (db, Unauthorized)
    case Empty => (db, BadRequest)
    case Given(h) =>
      var (db', r) := RefreshSession(cfg, db, h, request, now);
      (db', Answer(r))
  }

  function HandleLogout(db: Db, token: Presented, now: int): (Db, Response) {
    (if token.Given? then db.(sessions := Revoke(db.sessions, token.h, now)) else db, NoContent)
  }

  function HandleLogoutAll(db: Db, u: UserId, now: int): (Db, Response) {
    (db.(sessions := RevokeAll(db.sessions, u, now)), NoContent)
  }

  /** Revoked now, or as it was if it had been revoked before; nothing else in the row differs. */
  predicate EndedBy(before: Session, after: Session, now: int) {
    after.revokedAt == (if before.revokedAt.Some? then before.revokedAt else Some(now)) &&
    after.(revokedAt := before.revokedAt) == before
  }

  // ---- the service and its handler

  class Service {
    const cfg: Config
    var users: map<UserId, bool>
    var sessions: Table

    constructor (cfg: Config)
      ensures this.cfg == cfg && State() == Db(map[], map[])
    {
      this.cfg := cfg;
      users, sessions := map[], map[];
    }

    ghost function State(): Db
      reads this
    {
      Db(users, sessions)
    }

    method Issue(u: UserId, h: SessionHash, request: Option<string>, mfa: bool, now: int)
      returns (r: Result<AccessToken, SessionError>)
      modifies this`sessions
      ensures (State(), r) == IssueSession(cfg, old(State()), u, h, request, mfa, now)
    {
      if u !in users {
        return Err(UserNotFound);
      }
      var s := Session(u, now, now + cfg.refreshTtl, None, None, None);
      if cfg.fingerprintEnabled {
        s := s.(fingerprint := request);
      }
      if h in sessions {
        return Err(Storage);
      }
      sessions := sessions[h := s];
      return Ok(AccessToken(u, h, now, now + cfg.accessTtl, !users[u] || mfa));
    }

    method Refresh(h: SessionHash, request: Option<string>, now: int) returns (r: Result<AccessToken, SessionError>)
      modifies this`sessions
      ensures (State(), r) == RefreshSession(cfg, old(State()), h, request, now)
    {
      var s := Find(sessions, h);
      if s.None? {
        return Err(NotFound);
      }
      if !IsValid(s.value, now) {
        return Err(Expired);
      }
      if cfg.fingerprintEnabled && request.Some? && s.value.fingerprint.Some? {
        if s.value.fingerprint != request {
          if cfg.detectReuse {
            sessions := Revoke(sessions, h, now);
            return Err(FingerprintMismatch);
          }
        }
      }
      sessions := Touch(sessions, h, now);
      var u := s.value.userId;
      if u !in users {
        return Err(UserNotFound);
      }
      return Ok(AccessToken(u, h, now, now + cfg.accessTtl, !users[u]));
    }

    /** POST /v1/auth/refresh; the handler itself passes no request to fingerprint. */
    method PostRefresh(token: Presented, request: Option<string>, now: int) returns (answer: Response)
      modifies this`sessions
      ensures (State(), answer) == HandleRefresh(cfg, old(State()), token, request, now)
    {
      if token.NoCookie? {
        return Unauthorized;
      }
      if token.Empty? {
        return BadRequest;
      }
      var r := Refresh(token.h, request, now);
      answer := Answer(r);
    }

    /** POST /v1/auth/logout */
    method PostLogout(token: Presented, now: int) returns (answer: Response)
      modifies this`sessions
      ensures (State(), answer) == HandleLogout(old(State()), token, now)
      ensures sessions.Keys == old(sessions).Keys
      ensures forall h | h in sessions && token != Given(h) :: sessions[h] == old(sessions)[h]
      ensures token.Given? && token.h in sessions ==> EndedBy(old(sessions)[token.h], sessions[token.h], now)
    {
      if token.Given? {
        sessions := Revoke(sessions, token.h, now);
      }
      return NoContent;
    }

    /** POST /v1/auth/logout/all */
    method PostLogoutAll(u: UserId, now: int) returns (answer: Response)
      modifies this`sessions
      ensures (State(), answer) == HandleLogoutAll(old(State()), u, now)
      ensures sessions.Keys == old(sessions).Keys
      ensures forall h | h in sessions && sessions[h].userId != u :: sessions[h] == old(sessions)[h]
      ensures forall h | h in sessions && sessions[h].userId == u :: EndedBy(old(sessions)[h], sessions[h], now)
    {
      sessions := RevokeAll(sessions, u, now);
      return NoContent;
    }

    method DeleteExpired(olderThan: int, now: int) returns (deleted: nat)
      modifies this`sessions
      ensures sessions == Collect(old(sessions), now - olderThan)
      ensures deleted == |CollectableIn(old(sessions), now - olderThan)|
      ensures var cutoff := now - olderThan; forall h, s | h in old(sessions) && s == old(sessions)[h] ::
        if s.expiresAt < cutoff || (s.revokedAt.Some? && s.revokedAt.value < cutoff)
        then h !in sessions && h in CollectableIn(old(sessions), cutoff)
        else h in sessions && sessions[h] == s && h !in CollectableIn(old(sessions), cutoff)
    {
      var kept := Collect(sessions, now - olderThan);
      CollectSize(sessions, now - olderThan);
      deleted := |sessions| - |kept|;
      sessions := kept;
    }
  }

  ghost function CollectableIn(t: Table, cutoff: int): set<SessionHash> {
    set h | h in t && Collectable(t[h], cutoff)
  }

  lemma CollectSize(t: Table, cutoff: int)
    ensures |t| == |Collect(t, cutoff)| + |CollectableIn(t, cutoff)|
  {
    assert t.Keys == Collect(t, cutoff).Keys + CollectableIn(t, cutoff);
    assert |t| == |t.Keys| && |Collect(t, cutoff)| == |Collect(t, cutoff).Keys|;
  }

  /**
   * Issuing fails for a missing user, or when the drawn hash is taken; otherwise the session lasts refreshTtl, keeps
   * the fingerprint of the request only when fingerprints are on, and its first token lasts accessTtl. That token
   * claims a second factor exactly if one was shown or the user needs none; a token that a refresh gives claims it
   * exactly if the user needs none, so that no refresh carries the claim of a shown factor on.
   */
  lemma ClaimExactly(cfg: Config, db: Db, u: UserId, h: SessionHash, request: Option<string>, mfa: bool,
                     request': Option<string>, now: int, later: int)
    ensures var (db1, first) := IssueSession(cfg, db, u, h, request, mfa, now);
      var (db2, refreshed) := RefreshSession(cfg, db1, h, request', later);
      (first == Err(UserNotFound) <==> u !in db.users) &&
      (first == Err(Storage) <==> u in db.users && h in db.sessions) &&
      (first.Err? ==> db1 == db) && (first.Ok? <==> u in db.users && h !in db.sessions) &&
      (first.Ok? ==>
        first.value == AccessToken(u, h, now, now + cfg.accessTtl, mfa || !db.users[u]) && db1.users == db.users &&
        db1.sessions == db.sessions[h := Session(u, now, now + cfg.refreshTtl, None, None,
          if cfg.fingerprintEnabled then request else None)]) &&
      (first.Ok? && refreshed.Ok? ==>
        refreshed.value == AccessToken(u, h, later, later + cfg.accessTtl, !db.users[u]))
  {
  }
}
