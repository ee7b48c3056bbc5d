/**
 * The sessions table and the statements on it (pkg/repository/sessions_repo.go). A row is keyed by the hash
 * of its refresh token, drawn fresh for every session, which also stands for the session id.
 */
module SessionTable {
  import opened Prelude

  type SessionHash = nat

  datatype Session = Session(userId: UserId, createdAt: int, expiresAt: int, revokedAt: Option<int>,
                             lastSeenAt: Option<int>, fingerprint: Option<string>)

  type Table = map<SessionHash, Session>

  predicate IsValid(s: Session, now: int) { s.revokedAt.None? && now < s.expiresAt }

  /** GetByTokenHash: WHERE token_hash = $1 AND revoked_at IS NULL. */
  function Find(t: Table, h: SessionHash): Option<Session> {
    if h in t && t[h].revokedAt.None? then Some(t[h]) else None
  }

  /** Revoke and RevokeByTokenHash: WHERE .. AND revoked_at IS NULL. */
  function Revoke(t: Table, h: SessionHash, now: int): Table {
    if h in t && t[h].revokedAt.None? then t[h := t[h].(revokedAt := Some(now))] else t
  }

  /** RevokeAllByUserID: WHERE user_id = $1 AND revoked_at IS NULL. */
  function RevokeAll(t: Table, u: UserId, now: int): Table {
    map h | h in t ::
      if t[h].userId == u && t[h].revokedAt.None? then t[h].(revokedAt := Some(now)) else t[h]
  }

  /** UpdateLastSeen: WHERE id = $1 AND revoked_at IS NULL. */
  function Touch(t: Table, h: SessionHash, now: int): Table {
    if h in t && t[h].revokedAt.None? then t[h := t[h].(lastSeenAt := Some(now))] else t
  }

  predicate Collectable(s: Session, cutoff: int) {
    s.expiresAt < cutoff || (s.revokedAt.Some? && s.revokedAt.value < cutoff)
  }

  /** DeleteExpired: DELETE WHERE expires_at < $1 OR (revoked_at IS NOT NULL AND revoked_at < $1). */
  function Collect(t: Table, cutoff: int): Table {
    map h | h in t && !Collectable(t[h], cutoff) :: t[h]
  }

  function CascadeUser(t: Table, u: UserId): Table {
    map h | h in t && t[h].userId != u :: t[h]
  }
}
