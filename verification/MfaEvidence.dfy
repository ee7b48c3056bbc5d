/**
 * What was shown for each access token (internal/http/features/password/handler.go Login,
 * internal/http/features/mfa/handler.go Verify), read off the schedule: behind every token stand the steps, in
 * order, in which its password, its challenge and its second factor were found right.
 */
module MfaEvidence {
  import opened Prelude
  import opened TokenTable
  import opened MfaProtocol

  function Before(s: seq<Action>, k: nat): World
    requires k <= |s|
  {
    Exec(START, s[..k])
  }

  /** At place k of the schedule the request takes a step in the given state. */
  predicate StepsAt(s: seq<Action>, k: nat, id: RequestId, r: Request) {
    k < |s| && s[k].Run? && s[k].id == id && id in Before(s, k).requests && Before(s, k).requests[id] == r
  }

  /** There the password of the login is right. */
  predicate PasswordAt(s: seq<Action>, k: nat, id: RequestId, u: UserId) {
    StepsAt(s, k, id, CheckingPassword(u)) && s[k].choice.ok
  }

  /** There the login loads its user, who may sign in and has MFA on or off. */
  predicate LoadedAt(s: seq<Action>, k: nat, id: RequestId, u: UserId, mfa: bool) {
    StepsAt(s, k, id, LoadingUser(u)) && s[k].choice.ok &&
    u in Before(s, k).db.users && Before(s, k).db.users[u] == mfa
  }

  /** There the challenge is found, unconsumed and in time, and to be the user's. */
  predicate ChallengeAt(s: seq<Action>, k: nat, id: RequestId, h: TokenHash, u: UserId) {
    StepsAt(s, k, id, Validating(h)) && h in Before(s, k).db.tokens &&
    var tok := Before(s, k).db.tokens[h];
    tok.kind == MfaChallenge && tok.userId == u && tok.consumedAt.None? && Before(s, k).db.now < tok.expiresAt
  }

  /** There the TOTP code is right. */
  predicate TotpAt(s: seq<Action>, k: nat, id: RequestId, h: TokenHash, u: UserId) {
    StepsAt(s, k, id, CheckingTotp(h, u)) && s[k].choice.ok
  }

  /** There the recovery code is found unused, and to be the user's. */
  predicate CodeAt(s: seq<Action>, k: nat, id: RequestId, h: TokenHash, u: UserId, code: CodeId) {
    StepsAt(s, k, id, FindingCode(h, u)) && s[k].choice.code == Some(code) &&
    code in Before(s, k).db.codes && Before(s, k).db.codes[code] == Code(u, false)
  }

  ghost predicate PasswordShown(s: seq<Action>, id: RequestId, u: UserId) {
    exists k: nat | k < |s| :: PasswordAt(s, k, id, u)
  }

  /** First the password, then the user. */
  ghost predicate LoggedIn(s: seq<Action>, id: RequestId, u: UserId, mfa: bool) {
    exists k: nat | k < |s| :: LoadedAt(s, k, id, u, mfa) && PasswordShown(s[..k], id, u)
  }

  ghost predicate ChallengeShown(s: seq<Action>, id: RequestId, h: TokenHash, u: UserId) {
    exists k: nat | k < |s| :: ChallengeAt(s, k, id, h, u)
  }

  predicate FactorAt(s: seq<Action>, k: nat, id: RequestId, h: TokenHash, u: UserId, f: Factor) {
    match f
    case Totp => TotpAt(s, k, id, h, u)
    case Recovery(code) => CodeAt(s, k, id, h, u, code)
  }

  /** First the challenge, then the factor. */
  ghost predicate FactorShown(s: seq<Action>, id: RequestId, h: TokenHash, u: UserId, f: Factor) {
    exists k: nat | k < |s| :: FactorAt(s, k, id, h, u, f) && ChallengeShown(s[..k], id, h, u)
  }

  /** A token without a pass is that of a login by password of a user without MFA, of another login, or of a refresh. */
  ghost predicate PassShown(s: seq<Action>, id: RequestId, u: UserId, pass: Option<Pass>) {
    match pass
    case Some(p) => FactorShown(s, id, p.h, u, p.factor)
    case None => LoggedIn(s, id, u, false) || OtherLogin(u) in s || Refresh(u) in s
  }

  /** There the token is minted, for a user who exists and has MFA on or off as the request had read. */
  predicate MintedAt(s: seq<Action>, k: nat, t: AccessToken) {
    k < |s| && t.user in Before(s, k).db.users && Before(s, k + 1).log.minted == Before(s, k).log.minted + [t]
  }

  // ---- evidence lasts

  lemma Extended(s: seq<Action>, a: Action, k: nat)
    requires k <= |s|
    ensures (s + [a])[..k] == s[..k]
  {
  }

  lemma {:induction false} ExecOneMore(w: World, s: seq<Action>, a: Action)
    ensures Exec(w, s + [a]) == Apply(Exec(w, s), a)
    decreases |s|
  {
    if s == [] {
      assert [a][1..] == [] && s + [a] == [a];
    } else {
      assert (s + [a])[1..] == s[1..] + [a];
      ExecOneMore(Apply(w, s[0]), s[1..], a);
    }
  }

  lemma PasswordLasts(s: seq<Action>, a: Action, id: RequestId, u: UserId)
    requires PasswordShown(s, id, u)
    ensures PasswordShown(s + [a], id, u)
  {
    var k: nat :| k < |s| && PasswordAt(s, k, id, u);
    Extended(s, a, k);
    assert PasswordAt(s + [a], k, id, u);
  }

  lemma LoginLasts(s: seq<Action>, a: Action, id: RequestId, u: UserId, mfa: bool)
    requires LoggedIn(s, id, u, mfa)
    ensures LoggedIn(s + [a], id, u, mfa)
  {
    var k: nat :| k < |s| && LoadedAt(s, k, id, u, mfa) && PasswordShown(s[..k], id, u);
    Extended(s, a, k);
    assert LoadedAt(s + [a], k, id, u, mfa);
  }

  lemma ChallengeLasts(s: seq<Action>, a: Action, id: RequestId, h: TokenHash, u: UserId)
    requires ChallengeShown(s, id, h, u)
    ensures ChallengeShown(s + [a], id, h, u)
  {
    var k: nat :| k < |s| && ChallengeAt(s, k, id, h, u);
    Extended(s, a, k);
    assert ChallengeAt(s + [a], k, id, h, u);
  }

  lemma FactorLasts(s: seq<Action>, a: Action, id: RequestId, h: TokenHash, u: UserId, f: Factor)
    requires FactorShown(s, id, h, u, f)
    ensures FactorShown(s + [a], id, h, u, f)
  {
    var k: nat :| k < |s| && FactorAt(s, k, id, h, u, f) && ChallengeShown(s[..k], id, h, u);
    Extended(s, a, k);
    assert FactorAt(s + [a], k, id, h, u, f);
  }

  lemma PassLasts(s: seq<Action>, a: Action, id: RequestId, u: UserId, pass: Option<Pass>)
    requires PassShown(s, id, u, pass)
    ensures PassShown(s + [a], id, u, pass)
  {
    if pass.Some? { FactorLasts(s, a, id, pass.value.h, u, pass.value.factor); }
    else if LoggedIn(s, id, u, false) { LoginLasts(s, a, id, u, false); }
  }

  // ---- every request has the evidence for where it is

  ghost predicate Evidence(s: seq<Action>, id: RequestId, r: Request) {
    match r
    case CheckingPassword(_) => true
    case LoadingUser(u) => PasswordShown(s, id, u)
    case Challenging(u) => LoggedIn(s, id, u, true)
    case Validating(_) => true
    case CheckingTotp(h, u) => ChallengeShown(s, id, h, u)
    case FindingCode(h, u) => ChallengeShown(s, id, h, u)
    case MarkingCode(h, u, code) => FactorShown(s, id, h, u, Recovery(code))
    case Refetching(h, u, f) => FactorShown(s, id, h, u, f)
    case Consuming(h, u, f) => FactorShown(s, id, h, u, f)
    case Issuing(u, pass) => PassShown(s, id, u, pass)
    case Minting(u, _, pass) => PassShown(s, id, u, pass)
    case Finished => true
  }

  lemma EvidenceLasts(s: seq<Action>, a: Action, id: RequestId, r: Request)
    requires Evidence(s, id, r)
    ensures Evidence(s + [a], id, r)
  {
    match r
    case LoadingUser(u) => PasswordLasts(s, a, id, u);
    case Challenging(u) => LoginLasts(s, a, id, u, true);
    case CheckingTotp(h, u) => ChallengeLasts(s, a, id, h, u);
    case FindingCode(h, u) => ChallengeLasts(s, a, id, h, u);
    case MarkingCode(h, u, code) => FactorLasts(s, a, id, h, u, Recovery(code));
    case Refetching(h, u, f) => FactorLasts(s, a, id, h, u, f);
    case Consuming(h, u, f) => FactorLasts(s, a, id, h, u, f);
    case Issuing(u, pass) => PassLasts(s, a, id, u, pass);
    case Minting(u, _, pass) => PassLasts(s, a, id, u, pass);
    case _ =>
  }

  ghost predicate TokenEvidence(s: seq<Action>, t: AccessToken) {
    PassShown(s, t.request, t.user, t.pass) && exists k: nat | k < |s| :: MintedAt(s, k, t)
  }

  /** A challenge was created by a login that had shown the password of its user, who has MFA on. */
  ghost predicate OriginEvidence(s: seq<Action>, o: Origin) {
    LoggedIn(s, o.login, o.user, true)
  }

  ghost predicate AllEvidence(s: seq<Action>) {
    var w := Exec(START, s);
    (forall id | id in w.requests :: Evidence(s, id, w.requests[id])) &&
    (forall k | 0 <= k < |w.log.minted| :: TokenEvidence(s, w.log.minted[k])) &&
    forall h | h in w.log.origin :: OriginEvidence(s, w.log.origin[h])
  }

  /** The step a request takes gives it the evidence for where it gets. */
  lemma LoginStep(s: seq<Action>, id: RequestId, c: Choice)
    requires AllEvidence(s) && id in Exec(START, s).requests && InLogin(Exec(START, s).requests[id])
    ensures var w' := AdvanceLogin(Exec(START, s), id, c);
      id in w'.requests && Evidence(s + [Run(id, c)], id, w'.requests[id])
  {
    var w, s' := Exec(START, s), s + [Run(id, c)];
    Extended(s, Run(id, c), |s|);
    assert s[..|s|] == s && Before(s', |s|) == w;
    EvidenceLasts(s, Run(id, c), id, w.requests[id]);
    match w.requests[id]
    case CheckingPassword(u) => if c.ok { assert PasswordAt(s', |s|, id, u); }
    case LoadingUser(u) =>
      if c.ok && u in w.db.users {
        assert LoadedAt(s', |s|, id, u, w.db.users[u]) && s'[..|s|] == s;
      }
    case _ =>
  }

  lemma VerifyStep(s: seq<Action>, id: RequestId, c: Choice)
    requires AllEvidence(s) && id in Exec(START, s).requests
    requires !InLogin(Exec(START, s).requests[id]) && !InIssue(Exec(START, s).requests[id])
    ensures var w' := AdvanceVerify(Exec(START, s), id, c);
      id in w'.requests && Evidence(s + [Run(id, c)], id, w'.requests[id])
  {
    var w, s' := Exec(START, s), s + [Run(id, c)];
    Extended(s, Run(id, c), |s|);
    assert s[..|s|] == s && Before(s', |s|) == w;
    EvidenceLasts(s, Run(id, c), id, w.requests[id]);
    match w.requests[id]
    case Validating(h) =>
      var tok := Find(w.db.tokens, h, MfaChallenge);
      if tok.Some? && IsValid(tok.value, w.db.now) { assert ChallengeAt(s', |s|, id, h, tok.value.userId); }
    case CheckingTotp(h, u) =>
      if c.ok { assert FactorAt(s', |s|, id, h, u, Totp) && s'[..|s|] == s; }
    case FindingCode(h, u) =>
      if c.code.Some? && c.code.value in w.db.codes && w.db.codes[c.code.value] == Code(u, false) {
        assert FactorAt(s', |s|, id, h, u, Recovery(c.code.value)) && s'[..|s|] == s;
      }
    case _ =>
  }

  lemma IssueStep(s: seq<Action>, id: RequestId, c: Choice)
    requires AllEvidence(s) && id in Exec(START, s).requests && InIssue(Exec(START, s).requests[id])
    ensures var w' := AdvanceIssue(Exec(START, s), id);
      id in w'.requests && Evidence(s + [Run(id, c)], id, w'.requests[id])
  {
    var w := Exec(START, s);
    EvidenceLasts(s, Run(id, c), id, w.requests[id]);
  }

  lemma OwnStep(s: seq<Action>, id: RequestId, c: Choice)
    requires AllEvidence(s) && id in Exec(START, s).requests
    ensures var w' := Apply(Exec(START, s), Run(id, c));
      id in w'.requests && Evidence(s + [Run(id, c)], id, w'.requests[id])
  {
    var w := Exec(START, s);
    if InLogin(w.requests[id]) { LoginStep(s, id, c); }
    else if InIssue(w.requests[id]) { IssueStep(s, id, c); }
    else { VerifyStep(s, id, c); }
  }

  lemma OthersStay(w: World, a: Action, id: RequestId)
    requires id in Apply(w, a).requests && !(a.Run? && a.id == id)
    ensures var r := Apply(w, a).requests[id];
      (id in w.requests && r == w.requests[id]) || r.Finished? || r.CheckingPassword? || r.Validating?
  {
  }

  lemma RequestsKeep(s: seq<Action>, a: Action, id: RequestId)
    requires AllEvidence(s) && id in Apply(Exec(START, s), a).requests
    ensures Evidence(s + [a], id, Apply(Exec(START, s), a).requests[id])
  {
    var w := Exec(START, s);
    if a.Run? && a.id == id {
      if id in w.requests { OwnStep(s, id, a.choice); }
    } else {
      OthersStay(w, a, id);
      if id in w.requests { EvidenceLasts(s, a, id, w.requests[id]); }
    }
  }

  /** A step mints at most one token. */
  lemma MintsOne(w: World, a: Action)
    ensures var minted, minted' := w.log.minted, Apply(w, a).log.minted;
      minted' == minted ||
      (|minted'| == |minted| + 1 && minted'[..|minted|] == minted &&
       var t := minted'[|minted|];
       t.user in w.db.users &&
       ((a == OtherLogin(t.user) && t.pass.None?) || (a == Refresh(t.user) && t.pass.None?) ||
        (a.Run? && t.request == a.id && a.id in w.requests &&
         w.requests[a.id] == Minting(t.user, t.mfaEnabled, t.pass))))
  {
  }

  lemma TokensKeep(s: seq<Action>, a: Action, k: nat)
    requires AllEvidence(s) && k < |Apply(Exec(START, s), a).log.minted|
    ensures TokenEvidence(s + [a], Apply(Exec(START, s), a).log.minted[k])
  {
    var w := Exec(START, s);
    var t := Apply(w, a).log.minted[k];
    MintsOne(w, a);
    if k < |w.log.minted| {
      assert t == w.log.minted[k] && TokenEvidence(s, t);
      PassLasts(s, a, t.request, t.user, t.pass);
      MintLasts(s, a, t);
    } else {
      if a.Run? { EvidenceLasts(s, a, a.id, w.requests[a.id]); }
      else { assert (s + [a])[|s|] == a; }
      Extended(s, a, |s|);
      ExecOneMore(START, s, a);
      assert s[..|s|] == s && (s + [a])[..|s| + 1] == s + [a];
      assert MintedAt(s + [a], |s|, t);
    }
  }

  lemma MintLasts(s: seq<Action>, a: Action, t: AccessToken)
    requires exists k: nat | k < |s| :: MintedAt(s, k, t)
    ensures exists k: nat | k < |s + [a]| :: MintedAt(s + [a], k, t)
  {
    var k: nat :| k < |s| && MintedAt(s, k, t);
    Extended(s, a, k);
    Extended(s, a, k + 1);
    assert MintedAt(s + [a], k, t);
  }

  /** A challenge gets its origin in the step of its login that creates it. */
  lemma CreatesOne(w: World, a: Action, h: TokenHash)
    requires h in Apply(w, a).log.origin
    ensures var o := Apply(w, a).log.origin[h];
      (h in w.log.origin && w.log.origin[h] == o) ||
      (a.Run? && o.login == a.id && a.id in w.requests && w.requests[a.id] == Challenging(o.user))
  {
  }

  lemma OriginsKeep(s: seq<Action>, a: Action, h: TokenHash)
    requires AllEvidence(s) && h in Apply(Exec(START, s), a).log.origin
    ensures OriginEvidence(s + [a], Apply(Exec(START, s), a).log.origin[h])
  {
    var w := Exec(START, s);
    var o := Apply(w, a).log.origin[h];
    CreatesOne(w, a, h);
    if h in w.log.origin && w.log.origin[h] == o {
      assert OriginEvidence(s, w.log.origin[h]);
      LoginLasts(s, a, o.login, o.user, true);
    }
    else { EvidenceLasts(s, a, o.login, w.requests[o.login]); }
  }

  lemma {:induction false} AlwaysEvidence(s: seq<Action>)
    ensures AllEvidence(s)
    decreases |s|
  {
    if s != [] {
      var before, a := s[..|s| - 1], s[|s| - 1];
      assert s == before + [a];
      AlwaysEvidence(before);
      ExecOneMore(START, before, a);
      forall id | id in Exec(START, s).requests ensures Evidence(s, id, Exec(START, s).requests[id]) {
        RequestsKeep(before, a, id);
      }
      forall k | 0 <= k < |Exec(START, s).log.minted| ensures TokenEvidence(s, Exec(START, s).log.minted[k]) {
        TokensKeep(before, a, k);
      }
      forall h | h in Exec(START, s).log.origin ensures OriginEvidence(s, Exec(START, s).log.origin[h]) {
        OriginsKeep(before, a, h);
      }
    }
  }

  // ---- the result

  /**
   * Every token is earned, in every interleaving. Behind a token with a second factor stand a step of its request
   * in which the challenge was found valid and its user's, a later one in which the TOTP code was right or the
   * recovery code was found unused and the user's, and two of the login that created the challenge, in which the
   * user's password was right and the user had MFA on. Behind one without stand those of a login of a user with MFA
   * off, or it comes from another login or from a refresh. A token of a user with MFA claims a second factor exactly
   * if it has one.
   */
  lemma EveryTokenEarned(schedule: seq<Action>, k: nat)
    requires k < |Exec(START, schedule).log.minted|
    ensures var w := Exec(START, schedule);
      var t := w.log.minted[k];
      (t.mfaVerified <==> !t.mfaEnabled || t.pass.Some?) &&
      (exists j: nat | j < |schedule| :: MintedAt(schedule, j, t)) &&
      match t.pass
      case None =>
        LoggedIn(schedule, t.request, t.user, false) ||
        OtherLogin(t.user) in schedule || Refresh(t.user) in schedule
      case Some(p) =>
        FactorShown(schedule, t.request, p.h, t.user, p.factor) && p.h in w.log.origin && p.h in w.log.consumed &&
        w.log.origin[p.h].user == t.user && LoggedIn(schedule, w.log.origin[p.h].login, t.user, true)
  {
    AlwaysEvidence(schedule);
    ExecKeeps(START, schedule);
    var w := Exec(START, schedule);
    var t := w.log.minted[k];
    assert TokenEvidence(schedule, t) && TokenOk(w, t);
    if t.pass.Some? { assert OriginEvidence(schedule, w.log.origin[t.pass.value.h]); }
  }
}
