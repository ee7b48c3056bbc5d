/**
 * The verification_tokens table and the statements on it (pkg/repository/verification_tokens_repo.go,
 * migrations/20251218000001_verification_tokens.sql). A row is keyed by its unique token hash, which
 * also stands for its unique id; a raw token enters only through its hash.
 */
module TokenTable {
  import opened Prelude

  type TokenHash = nat

  datatype Kind = EmailVerification | PasswordReset | MfaChallenge

  datatype Token = Token(userId: UserId, kind: Kind, expiresAt: int, consumedAt: Option<int>)

  type Table = map<TokenHash, Token>

  predicate IsValid(tok: Token, now: int) { tok.consumedAt.None? && now < tok.expiresAt }

  predicate Active(t: Table, h: TokenHash) { h in t && t[h].consumedAt.None? }

  /** The active tokens of one user and kind, which RevokeActiveTokensTx consumes. */
  function ActiveOf(t: Table, user: UserId, kind: Kind): set<TokenHash> {
    set h | h in t && t[h].userId == user && t[h].kind == kind && t[h].consumedAt.None?
  }

  /** GetByTokenHash: SELECT .. WHERE token_hash = $1 AND kind = $2. */
  function Find(t: Table, h: TokenHash, kind: Kind): Option<Token> {
    if h in t && t[h].kind == kind then Some(t[h]) else None
  }

  /** The constraints an INSERT must meet: foreign key, UNIQUE(token_hash), one active row per user and kind. */
  predicate CanInsert(t: Table, users: set<UserId>, h: TokenHash, tok: Token) {
    tok.userId in users && h !in t && (tok.consumedAt.None? ==> ActiveOf(t, tok.userId, tok.kind) == {})
  }

  /** UPDATE .. SET consumed_at = NOW() WHERE id = $1 AND consumed_at IS NULL. */
  function MarkConsumed(t: Table, h: TokenHash, now: int): Table {
    if Active(t, h) then t[h := t[h].(consumedAt := Some(now))] else t
  }

  /** UPDATE .. SET consumed_at = NOW() WHERE user_id = $1 AND kind = $2 AND consumed_at IS NULL. */
  function RevokeActive(t: Table, user: UserId, kind: Kind, now: int): Table {
    map h | h in t :: if h in ActiveOf(t, user, kind) then t[h].(consumedAt := Some(now)) else t[h]
  }

  /** ON DELETE CASCADE from the users table. */
  function CascadeUser(t: Table, user: UserId): Table {
    map h | h in t && t[h].userId != user :: t[h]
  }
}
