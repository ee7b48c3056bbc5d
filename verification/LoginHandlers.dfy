/**
 * Password login and MFA verification and the services they call, statement by statement on mutable tables
 * (internal/http/features/password/handler.go, internal/http/features/mfa/handler.go, pkg/auth/mfa.go,
 * pkg/auth/session.go), proved to do what the protocol's requests do when no other request runs in between.
 */
module LoginHandlers {
  import opened Prelude
  import opened TokenTable
  import opened MfaProtocol
  import VerificationService

  function Repeat(a: Action, n: nat): seq<Action> {
    seq(n, _ => a)
  }

  lemma OneOfMany(w: World, a: Action, n: nat)
    requires n > 0
    ensures Exec(w, Repeat(a, n)) == Exec(Apply(w, a), Repeat(a, n - 1))
  {
    assert Repeat(a, n)[1..] == Repeat(a, n - 1);
  }

  lemma {:induction false} FinishedStays(w: World, id: RequestId, c: Choice, n: nat)
    requires id in w.requests && w.requests[id].Finished?
    ensures Exec(w, Repeat(Run(id, c), n)) == w
  {
    if n > 0 {
      OneOfMany(w, Run(id, c), n);
      FinishedStays(w, id, c, n - 1);
    }
  }

  datatype LoginAnswer = Refused | EmailUnverified | MfaRequired(challenge: TokenHash) | SignedIn(token: AccessToken)

  class Handler {
    var users: map<UserId, bool>
    var tokens: Table
    var codes: map<CodeId, Code>
    var minted: seq<AccessToken>
    var now: int

    constructor ()
      ensures Shows(START)
    {
      users, tokens, codes, minted, now := map[], map[], map[], [], 0;
    }

    /** The tables hold what the protocol's state says. */
    ghost predicate Shows(w: World)
      reads this
    {
      users == w.db.users && tokens == w.db.tokens && codes == w.db.codes && now == w.db.now && minted == w.log.minted
    }

    /** A challenge that is unconsumed and in time. */
    static predicate IsOpen(tokens: Table, h: TokenHash, now: int) {
      h in tokens && tokens[h].kind == MfaChallenge && tokens[h].consumedAt.None? && now < tokens[h].expiresAt
    }

    static predicate IsUnusedCode(codes: map<CodeId, Code>, user: UserId, code: Option<CodeId>) {
      code.Some? && code.value in codes && codes[code.value].user == user && !codes[code.value].used
    }

    /** The user has no unconsumed challenge, and the drawn token is new. */
    static predicate CanChallenge(tokens: Table, user: UserId, drawn: TokenHash) {
      drawn !in tokens &&
      forall h | h in tokens ::
        !(tokens[h].userId == user && tokens[h].kind == MfaChallenge && tokens[h].consumedAt.None?)
    }

    method ValidateMFAChallenge(h: TokenHash) returns (user: Option<UserId>)
      ensures user == var tok := Find(tokens, h, MfaChallenge);
        if tok.Some? && IsValid(tok.value, now) then Some(tok.value.userId) else None
    {
      var tok := Find(tokens, h, MfaChallenge);
      if tok.None? || !IsValid(tok.value, now) {
        return None;
      }
      return Some(tok.value.userId);
    }

    /** The lookup by hash may return any row, or none. */
    method VerifyRecoveryCode(user: UserId, lookup: Option<CodeId>) returns (ok: bool)
      modifies this`codes
      ensures ok <==> lookup.Some? && lookup.value in old(codes) && old(codes)[lookup.value] == Code(user, false)
      ensures codes == if ok then old(codes)[lookup.value := Code(user, true)] else old(codes)
    {
      if lookup.None? || lookup.value !in codes {
        return false;
      }
      var row := codes[lookup.value];
      if row.user != user || row.used {
        return false;
      }
      codes := codes[lookup.value := row.(used := true)];
      return true;
    }

    method ConsumeMFAChallenge(h: TokenHash) returns (ok: bool)
      modifies this`tokens
      ensures ok <==> Find(old(tokens), h, MfaChallenge).Some? && Active(old(tokens), h)
      ensures tokens == if ok then MarkConsumed(old(tokens), h, now) else old(tokens)
    {
      if Find(tokens, h, MfaChallenge).None? {
        return false;
      }
      ok := tokens[h].consumedAt.None?;
      tokens := MarkConsumed(tokens, h, now);
    }

    method IssueSession(user: UserId, request: RequestId, pass: Option<Pass>) returns (token: Option<AccessToken>)
      modifies this`minted
      ensures token == if user in users
        then Some(AccessToken(user, users[user], !users[user] || pass.Some?, request, pass)) else None
      ensures minted == old(minted) + (if token.Some? then [token.value] else [])
    {
      if user !in users {
        return None;
      }
      token := Some(AccessToken(user, users[user], Claim(users[user], pass.Some?), request, pass));
      minted := minted + [token.value];
    }

    /**
     * POST /v1/auth/mfa/verify. The tables afterwards are those of the protocol after this request's eight
     * statements with nothing in between, and a token is returned exactly when one was minted.
     */
    method Verify(h: TokenHash, c: Choice, id: RequestId, ghost w: World) returns (token: Option<AccessToken>)
      requires Shows(w) && id !in w.requests
      modifies this
      ensures Shows(Exec(Apply(w, ArriveVerify(id, h)), Repeat(Run(id, c), 8)))
      ensures minted == old(minted) + (if token.Some? then [token.value] else [])
      ensures token.Some? <==>
        IsOpen(old(tokens), h, now) && old(tokens)[h].userId in old(users) &&
        (c.ok || IsUnusedCode(old(codes), old(tokens)[h].userId, c.code))
      ensures token.Some? ==>
        token.value.mfaVerified && token.value.user == old(tokens)[h].userId && token.value.request == id &&
        token.value.pass == Some(Pass(h, if c.ok then Totp else Recovery(c.code.value)))
      ensures users == old(users) && now == old(now)
      ensures codes ==
        if IsOpen(old(tokens), h, now) && !c.ok && IsUnusedCode(old(codes), old(tokens)[h].userId, c.code)
        then old(codes)[c.code.value := Code(old(tokens)[h].userId, true)] else old(codes)
      ensures tokens ==
        if IsOpen(old(tokens), h, now) && (c.ok || IsUnusedCode(old(codes), old(tokens)[h].userId, c.code))
        then old(tokens)[h := old(tokens)[h].(consumedAt := Some(now))] else old(tokens)
    {
      ghost var a := Run(id, c);
      ghost var w1 := Apply(w, ArriveVerify(id, h));
      ghost var w2 := Apply(w1, a);
      OneOfMany(w1, a, 8);
      var user := ValidateMFAChallenge(h);
      if user.None? {
        FinishedStays(w2, id, c, 7);
        return None;
      }
      token := ShowFactor(h, user.value, c, id, w2);
    }

    /** The rest of Verify once the challenge is known to be valid: TOTP or else a recovery code. */
    method ShowFactor(h: TokenHash, user: UserId, c: Choice, id: RequestId, ghost w: World)
      returns (token: Option<AccessToken>)
      requires Shows(w) && id in w.requests && w.requests[id] == CheckingTotp(h, user)
      modifies this
      requires IsOpen(tokens, h, now)
      ensures Shows(Exec(w, Repeat(Run(id, c), 7)))
      ensures minted == old(minted) + (if token.Some? then [token.value] else [])
      ensures token.Some? <==> user in old(users) && (c.ok || IsUnusedCode(old(codes), user, c.code))
      ensures token.Some? ==>
        token.value.mfaVerified && token.value.user == user && token.value.request == id &&
        token.value.pass == Some(Pass(h, if c.ok then Totp else Recovery(c.code.value)))
      ensures users == old(users) && now == old(now)
      ensures codes == if !c.ok && IsUnusedCode(old(codes), user, c.code)
        then old(codes)[c.code.value := Code(user, true)] else old(codes)
      ensures tokens == if c.ok || IsUnusedCode(old(codes), user, c.code)
        then old(tokens)[h := old(tokens)[h].(consumedAt := Some(now))] else old(tokens)
    {
      ghost var a := Run(id, c);
      ghost var w1 := Apply(w, a);
      OneOfMany(w, a, 7);
      var validTOTP := c.ok;
      if validTOTP {
        token := Finish(h, user, Totp, c, id, w1, 6);
        return;
      }
      ghost var w2 := Apply(w1, a);
      OneOfMany(w1, a, 6);
      var validRecovery := VerifyRecoveryCode(user, c.code);
      if !validRecovery {
        FinishedStays(w2, id, c, 5);
        return None;
      }
      OneOfMany(w2, a, 5);
      token := Finish(h, user, Recovery(c.code.value), c, id, Apply(w2, a), 4);
    }

    /** The rest of Verify once a second factor has been shown: consume, then issue. */
    method Finish(h: TokenHash, user: UserId, factor: Factor, c: Choice, id: RequestId, ghost w: World, ghost n: nat)
      returns (token: Option<AccessToken>)
      requires Shows(w) && id in w.requests && w.requests[id] == Refetching(h, user, factor) && n >= 4
      modifies this
      ensures Shows(Exec(w, Repeat(Run(id, c), n)))
      ensures minted == old(minted) + (if token.Some? then [token.value] else [])
      ensures token.Some? <==>
        h in old(tokens) && old(tokens)[h].kind == MfaChallenge && old(tokens)[h].consumedAt.None? && user in old(users)
      ensures token.Some? ==>
        token.value.mfaVerified && token.value.user == user && token.value.request == id &&
        token.value.pass == Some(Pass(h, factor))
      ensures users == old(users) && codes == old(codes) && now == old(now)
      ensures tokens ==
        if h in old(tokens) && old(tokens)[h].kind == MfaChallenge && old(tokens)[h].consumedAt.None?
        then old(tokens)[h := old(tokens)[h].(consumedAt := Some(now))] else old(tokens)
    {
      ghost var a := Run(id, c);
      ghost var w1 := Apply(w, a);
      OneOfMany(w, a, n);
      ghost var w2 := Apply(w1, a);
      OneOfMany(w1, a, n - 1);
      var consumed := ConsumeMFAChallenge(h);
      if !consumed {
        assert w2.requests[id].Finished?;
        FinishedStays(w2, id, c, n - 2);
        return None;
      }
      token := Issue(user, Some(Pass(h, factor)), c, id, w2, n - 2);
    }

    /** IssueSession as the last two statements of either handler. */
    method Issue(user: UserId, pass: Option<Pass>, c: Choice, id: RequestId, ghost w: World, ghost n: nat)
      returns (token: Option<AccessToken>)
      requires Shows(w) && id in w.requests && w.requests[id] == Issuing(user, pass) && n >= 2
      modifies this`minted
      ensures Shows(Exec(w, Repeat(Run(id, c), n)))
      ensures minted == old(minted) + (if token.Some? then [token.value] else [])
      ensures token.Some? <==> user in users
      ensures token.Some? ==>
        token.value == AccessToken(user, users[user], !users[user] || pass.Some?, id, pass)
    {
      ghost var a := Run(id, c);
      ghost var w1 := Apply(w, a);
      OneOfMany(w, a, n);
      token := IssueSession(user, id, pass);
      if token.None? {
        FinishedStays(w1, id, c, n - 1);
        return;
      }
      OneOfMany(w1, a, n - 1);
      FinishedStays(Apply(w1, a), id, c, n - 2);
    }

    method CreateMFAChallenge(user: UserId, h: TokenHash) returns (ok: bool)
      modifies this`tokens
      ensures ok <==> CanInsert(old(tokens), users.Keys, h, VerificationService.ChallengeToken(user, now))
      ensures tokens == if ok then old(tokens)[h := VerificationService.ChallengeToken(user, now)] else old(tokens)
    {
      var tok := VerificationService.ChallengeToken(user, now);
      ok := CanInsert(tokens, users.Keys, h, tok);
      if ok {
        tokens := tokens[h := tok];
      }
    }

    /**
     * POST /v1/auth/password/login once the password has been evaluated; c.ok says whether the loaded user may
     * sign in, which an unverified email can forbid, and c.drawn is the token a challenge would get. A user with
     * MFA gets a challenge and no token, one without gets a token.
     */
    method Login(user: UserId, passwordOk: bool, c: Choice, id: RequestId, ghost w: World) returns (answer: LoginAnswer)
      requires Shows(w) && id !in w.requests && c.drawn !in w.db.issued
      modifies this
      ensures Shows(Exec(Apply(Apply(w, ArriveLogin(id, user)), Run(id, c.(ok := passwordOk))), Repeat(Run(id, c), 3)))
      ensures minted == old(minted) + (if answer.SignedIn? then [answer.token] else [])
      ensures answer.EmailUnverified? <==> passwordOk && user in users && !c.ok
      ensures answer.SignedIn? <==> passwordOk && c.ok && user in users && !users[user]
      ensures answer.SignedIn? ==> answer.token == AccessToken(user, false, true, id, None)
      ensures answer.MfaRequired? <==>
        passwordOk && c.ok && user in users && users[user] && CanChallenge(old(tokens), user, c.drawn)
      ensures users == old(users) && codes == old(codes) && now == old(now)
      ensures tokens == if answer.MfaRequired?
        then old(tokens)[answer.challenge := Token(user, MfaChallenge, now + 300, None)] else old(tokens)
      ensures answer.MfaRequired? ==> answer.challenge == c.drawn
    {
      ghost var w1 := Apply(Apply(w, ArriveLogin(id, user)), Run(id, c.(ok := passwordOk)));
      if !passwordOk {
        FinishedStays(w1, id, c, 3);
        return Refused;
      }
      answer := LoginOpened(user, c, id, w1);
    }

    /** The rest of Login once the password has been found right: load the user, then challenge or issue. */
    method LoginOpened(user: UserId, c: Choice, id: RequestId, ghost w: World) returns (answer: LoginAnswer)
      requires Shows(w) && id in w.requests && w.requests[id] == LoadingUser(user) && c.drawn !in w.db.issued
      modifies this
      ensures Shows(Exec(w, Repeat(Run(id, c), 3)))
      ensures minted == old(minted) + (if answer.SignedIn? then [answer.token] else [])
      ensures answer.EmailUnverified? <==> user in users && !c.ok
      ensures answer.SignedIn? <==> c.ok && user in users && !users[user]
      ensures answer.SignedIn? ==> answer.token == AccessToken(user, false, true, id, None)
      ensures answer.MfaRequired? <==> c.ok && user in users && users[user] && CanChallenge(old(tokens), user, c.drawn)
      ensures users == old(users) && codes == old(codes) && now == old(now)
      ensures tokens == if answer.MfaRequired?
        then old(tokens)[answer.challenge := Token(user, MfaChallenge, now + 300, None)] else old(tokens)
      ensures answer.MfaRequired? ==> answer.challenge == c.drawn
    {
      ghost var a := Run(id, c);
      ghost var w1 := Apply(w, a);
      OneOfMany(w, a, 3);
      if user !in users {
        FinishedStays(w1, id, c, 2);
        return Refused;
      }
      if !c.ok {
        FinishedStays(w1, id, c, 2);
        return EmailUnverified;
      }
      if users[user] {
        OneOfMany(w1, a, 2);
        assert CanChallenge(tokens, user, c.drawn) <==>
          CanInsert(tokens, users.Keys, c.drawn, VerificationService.ChallengeToken(user, now)) by {
          if CanChallenge(tokens, user, c.drawn) { assert ActiveOf(tokens, user, MfaChallenge) == {}; }
          else if h :| h in tokens && tokens[h].userId == user && tokens[h].kind == MfaChallenge &&
                      tokens[h].consumedAt.None? {
            assert h in ActiveOf(tokens, user, MfaChallenge);
          }
        }
        var created := CreateMFAChallenge(user, c.drawn);
        FinishedStays(Apply(w1, a), id, c, 1);
        return if created then MfaRequired(c.drawn) else Refused;
      }
      var token := Issue(user, None, c, id, w1, 2);
      return SignedIn(token.value);
    }
  }
}
