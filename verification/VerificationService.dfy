/**
 * Creating and redeeming verification tokens (pkg/auth/verification.go, and the MFA challenge
 * functions of pkg/auth/mfa.go): the service as a class over two tables, proved against functions
 * on table values, and those functions proved to keep one newest token per user and kind.
 */
module VerificationService {
  import opened Prelude
  import opened TokenTable

  datatype TokenError = Invalid | Consumed | Expired | Storage

  /** The users table cut down to id and email_verified, and the token table. */
  datatype Store = Store(users: map<UserId, bool>, tokens: Table)

  datatype Config = Config(emailTtl: int, resetTtl: int)

  const MFA_CHALLENGE_TTL := 300

  function Ttl(cfg: Config, kind: Kind): int {
    match kind
    case EmailVerification => cfg.emailTtl
    case PasswordReset => cfg.resetTtl
    case MfaChallenge => MFA_CHALLENGE_TTL
  }

  // ---- the operations as functions on table values

  /** createToken: revoke and insert in one transaction. */
  function CreateToken(s: Store, user: UserId, kind: Kind, h: TokenHash, now: int, ttl: int)
    : (Store, Result<TokenHash, TokenError>)
  {
    var revoked := RevokeActive(s.tokens, user, kind, now);
    var tok := Token(user, kind, now + ttl, None);
    if CanInsert(revoked, s.users.Keys, h, tok) then (s.(tokens := revoked[h := tok]), Ok(h))
    else (s, Err(Storage))
  }

  function ChallengeToken(user: UserId, now: int): Token {
    Token(user, MfaChallenge, now + MFA_CHALLENGE_TTL, None)
  }

  /** CreateMFAChallenge: a plain insert. */
  function CreateChallenge(s: Store, user: UserId, h: TokenHash, now: int): (Store, Result<TokenHash, TokenError>) {
    var tok := ChallengeToken(user, now);
    if CanInsert(s.tokens, s.users.Keys, h, tok) then (s.(tokens := s.tokens[h := tok]), Ok(h))
    else (s, Err(Storage))
  }

  /** The checks shared by VerifyEmailToken, ValidatePasswordResetToken and ConsumePasswordResetToken. */
  function Check(s: Store, h: TokenHash, kind: Kind, now: int): Result<UserId, TokenError> {
    var tok := Find(s.tokens, h, kind);
    if tok.None? then Err(Invalid)
    else if tok.value.consumedAt.Some? then Err(Consumed)
    else if now >= tok.value.expiresAt then Err(Expired)
    else Ok(tok.value.userId)
  }

  function Consume(s: Store, h: TokenHash, now: int): Store {
    s.(tokens := MarkConsumed(s.tokens, h, now))
  }

  function SetVerified(s: Store, user: UserId): Store {
    if user in s.users then s.(users := s.users[user := true]) else s
  }

  function VerifyEmail(s: Store, h: TokenHash, now: int): (Store, Result<UserId, TokenError>) {
    var r := Check(s, h, EmailVerification, now);
    if r.Err? then (s, r) else (SetVerified(Consume(s, h, now), r.value), r)
  }

  function ConsumeReset(s: Store, h: TokenHash, now: int): (Store, Result<UserId, TokenError>) {
    var r := Check(s, h, PasswordReset, now);
    if r.Err? then (s, r) else (Consume(s, h, now), r)
  }

  /** ValidateMFAChallenge reports every refusal as an expired challenge. */
  function ValidateChallenge(s: Store, h: TokenHash, now: int): Result<UserId, TokenError> {
    var r := Check(s, h, MfaChallenge, now);
    if r.Err? then Err(Expired) else r
  }

  // ---- the service

  class Database {
    var users: map<UserId, bool>
    var tokens: Table

    constructor ()
      ensures State() == Store(map[], map[])
    {
      users, tokens := map[], map[];
    }

    ghost function State(): Store
      reads this
    {
      Store(users, tokens)
    }

    method InsertToken(h: TokenHash, tok: Token) returns (ok: bool)
      modifies this`tokens
      ensures ok <==> CanInsert(old(tokens), users.Keys, h, tok)
      ensures tokens == if ok then old(tokens)[h := tok] else old(tokens)
    {
      ok := CanInsert(tokens, users.Keys, h, tok);
      if ok {
        tokens := tokens[h := tok];
      }
    }

    method MarkTokenConsumed(h: TokenHash, now: int) returns (rows: nat)
      modifies this`tokens
      ensures tokens == MarkConsumed(old(tokens), h, now)
      ensures rows == if Active(old(tokens), h) then 1 else 0
    {
      if h in tokens && tokens[h].consumedAt.None? {
        tokens := tokens[h := tokens[h].(consumedAt := Some(now))];
        rows := 1;
      } else {
        rows := 0;
      }
    }

    method RevokeActiveTokens(user: UserId, kind: Kind, now: int)
      modifies this`tokens
      ensures tokens == RevokeActive(old(tokens), user, kind, now)
      ensures tokens.Keys == old(tokens).Keys && ActiveOf(tokens, user, kind) == {}
      ensures forall h | h in ActiveOf(old(tokens), user, kind) :: tokens[h] == old(tokens)[h].(consumedAt := Some(now))
      ensures forall h | h in tokens && h !in ActiveOf(old(tokens), user, kind) :: tokens[h] == old(tokens)[h]
    {
      tokens := RevokeActive(tokens, user, kind, now);
    }

    method MarkEmailVerified(user: UserId)
      modifies this`users
      ensures users.Keys == old(users).Keys
      ensures forall u | u in users :: users[u] == (u == user || old(users)[u])
    {
      if user in users {
        users := users[user := true];
      }
    }
  }

  class Service {
    const db: Database
    const cfg: Config

    constructor (db: Database, cfg: Config)
      ensures this.db == db && this.cfg == cfg
    {
      this.db, this.cfg := db, cfg;
    }

    method CreateVerificationToken(user: UserId, kind: Kind, h: TokenHash, now: int)
      returns (r: Result<TokenHash, TokenError>)
      requires kind != MfaChallenge
      modifies db
      ensures (db.State(), r) == CreateToken(old(db.State()), user, kind, h, now, Ttl(cfg, kind))
    {
      var begin := db.tokens;
      db.RevokeActiveTokens(user, kind, now);
      var ok := db.InsertToken(h, Token(user, kind, now + Ttl(cfg, kind), None));
      if !ok {
        db.tokens := begin;
        return Err(Storage);
      }
      return Ok(h);
    }

    method VerifyEmailToken(h: TokenHash, now: int) returns (r: Result<UserId, TokenError>)
      modifies db
      ensures (db.State(), r) == VerifyEmail(old(db.State()), h, now)
    {
      var tok := Find(db.tokens, h, EmailVerification);
      if tok.None? {
        return Err(Invalid);
      }
      if !IsValid(tok.value, now) {
        return Err(if tok.value.consumedAt.Some? then Consumed else Expired);
      }
      var rows := db.MarkTokenConsumed(h, now);
      if rows == 0 {
        assert false; // only another request in between could have consumed it: see EmailProtocol
      }
      db.MarkEmailVerified(tok.value.userId);
      assert db.users == SetVerified(old(db.State()), tok.value.userId).users;
      return Ok(tok.value.userId);
    }

    method ValidatePasswordResetToken(h: TokenHash, now: int) returns (r: Result<UserId, TokenError>)
      ensures r == Check(db.State(), h, PasswordReset, now)
    {
      var tok := Find(db.tokens, h, PasswordReset);
      if tok.None? {
        return Err(Invalid);
      }
      if !IsValid(tok.value, now) {
        return Err(if tok.value.consumedAt.Some? then Consumed else Expired);
      }
      return Ok(tok.value.userId);
    }

    method ConsumePasswordResetToken(h: TokenHash, now: int) returns (r: Result<UserId, TokenError>)
      modifies db
      ensures (db.State(), r) == ConsumeReset(old(db.State()), h, now)
    {
      r := ValidatePasswordResetToken(h, now);
      if r.Ok? {
        var rows := db.MarkTokenConsumed(h, now);
        if rows == 0 {
          r := Err(Invalid);
        }
      }
    }

    method CreateMFAChallenge(user: UserId, h: TokenHash, now: int) returns (r: Result<TokenHash, TokenError>)
      modifies db
      ensures (db.State(), r) == CreateChallenge(old(db.State()), user, h, now)
    {
      var ok := db.InsertToken(h, Token(user, MfaChallenge, now + MFA_CHALLENGE_TTL, None));
      r := if ok then Ok(h) else Err(Storage);
    }
  }
}
