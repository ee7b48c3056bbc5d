/**
 * In runs of whole requests the token table is a ledger of one newest token per user and kind: this
 * module runs both side by side and proves that every response is the same.
 */
module LatestToken {
  import opened Prelude
  import opened TokenTable
  import opened VerificationService

  datatype Op =
    | AddUser(user: UserId)
    | DeleteUser(user: UserId)
    | CreateEmail(user: UserId, h: TokenHash)
    | CreateReset(user: UserId, h: TokenHash)
    | CreateMfa(user: UserId, h: TokenHash)
    | RedeemEmail(h: TokenHash)
    | LookAtReset(h: TokenHash)
    | RedeemReset(h: TokenHash)
    | CompleteMfa(h: TokenHash, codeOk: bool)
    | Tick(d: nat)

  datatype Response = Done | Issued(h: TokenHash) | User(user: UserId) | Refused(error: TokenError) | WrongCode

  // ---- the service

  datatype Machine = Machine(store: Store, now: int)

  function IssueResponse(r: Result<TokenHash, TokenError>): Response {
    if r.Ok? then Issued(r.value) else Refused(r.error)
  }

  function UserResponse(r: Result<UserId, TokenError>): Response {
    if r.Ok? then User(r.value) else Refused(r.error)
  }

  function Step(cfg: Config, m: Machine, op: Op): (Machine, Response) {
    var s, now := m.store, m.now;
    match op
    case AddUser(u) => (m.(store := s.(users := s.users + (if u in s.users then map[] else map[u := false]))), Done)
    case DeleteUser(u) => (m.(store := Store(s.users - {u}, CascadeUser(s.tokens, u))), Done)
    case CreateEmail(u, h) =>
      var (s', r) := CreateToken(s, u, EmailVerification, h, now, Ttl(cfg, EmailVerification));
      (m.(store := s'), IssueResponse(r))
    case CreateReset(u, h) =>
      var (s', r) := CreateToken(s, u, PasswordReset, h, now, Ttl(cfg, PasswordReset));
      (m.(store := s'), IssueResponse(r))
    case CreateMfa(u, h) =>
      var (s', r) := CreateChallenge(s, u, h, now);
      (m.(store := s'), IssueResponse(r))
    case RedeemEmail(h) =>
      var (s', r) := VerifyEmail(s, h, now);
      (m.(store := s'), UserResponse(r))
    case LookAtReset(h) => (m, UserResponse(Check(s, h, PasswordReset, now)))
    case RedeemReset(h) =>
      var (s', r) := ConsumeReset(s, h, now);
      (m.(store := s'), UserResponse(r))
    case CompleteMfa(h, codeOk) =>
      var r := ValidateChallenge(s, h, now);
      if r.Err? then (m, UserResponse(r))
      else if !codeOk then (m, WrongCode)
      else (m.(store := Consume(s, h, now)), UserResponse(r))
    case Tick(d) => (m.(now := now + d), Done)
  }

  function Responses(cfg: Config, m: Machine, ops: seq<Op>): seq<Response>
    decreases |ops|
  {
    if ops == [] then []
    else
      var (m', r) := Step(cfg, m, ops[0]);
      [r] + Responses(cfg, m', ops[1..])
  }

  // ---- the ledger

  type Owner = (UserId, Kind)

  datatype Newest = Newest(h: TokenHash, expiresAt: int, spent: bool)

  /** Who each issued token belongs to, and the newest token of each user and kind. */
  datatype Ledger = Ledger(users: set<UserId>, owner: map<TokenHash, Owner>, newest: map<Owner, Newest>, now: int)

  function Issue(l: Ledger, o: Owner, h: TokenHash, ttl: int): (Ledger, Response) {
    if o.0 !in l.users || h in l.owner then (l, Refused(Storage))
    else (l.(owner := l.owner[h := o], newest := l.newest[o := Newest(h, l.now + ttl, false)]), Issued(h))
  }

  predicate IsNewestUnspent(l: Ledger, h: TokenHash) {
    h in l.owner && l.owner[h] in l.newest && l.newest[l.owner[h]].h == h && !l.newest[l.owner[h]].spent
  }

  /** Verdict on a presented token: only the newest, unspent and in time, is accepted. */
  function Verdict(l: Ledger, h: TokenHash, kind: Kind): Response {
    if h !in l.owner || l.owner[h].1 != kind then Refused(Invalid)
    else if !IsNewestUnspent(l, h) then Refused(Consumed)
    else if l.now >= l.newest[l.owner[h]].expiresAt then Refused(Expired)
    else User(l.owner[h].0)
  }

  function Spend(l: Ledger, h: TokenHash): Ledger {
    if IsNewestUnspent(l, h) then l.(newest := l.newest[l.owner[h] := l.newest[l.owner[h]].(spent := true)]) else l
  }

  function Redeem(l: Ledger, h: TokenHash, kind: Kind): (Ledger, Response) {
    if Verdict(l, h, kind).User? then (Spend(l, h), Verdict(l, h, kind)) else (l, Verdict(l, h, kind))
  }

  function LedgerStep(cfg: Config, l: Ledger, op: Op): (Ledger, Response) {
    match op
    case AddUser(u) => (l.(users := l.users + {u}), Done)
    case DeleteUser(u) =>
      (l.(users := l.users - {u},
          owner := map h | h in l.owner && l.owner[h].0 != u :: l.owner[h],
          newest := map o | o in l.newest && o.0 != u :: l.newest[o]), Done)
    case CreateEmail(u, h) => Issue(l, (u, EmailVerification), h, cfg.emailTtl)
    case CreateReset(u, h) => Issue(l, (u, PasswordReset), h, cfg.resetTtl)
    case CreateMfa(u, h) =>
      if (u, MfaChallenge) in l.newest && !l.newest[(u, MfaChallenge)].spent then (l, Refused(Storage))
      else Issue(l, (u, MfaChallenge), h, MFA_CHALLENGE_TTL)
    case RedeemEmail(h) => Redeem(l, h, EmailVerification)
    case LookAtReset(h) => (l, Verdict(l, h, PasswordReset))
    case RedeemReset(h) => Redeem(l, h, PasswordReset)
    case CompleteMfa(h, codeOk) =>
      if !Verdict(l, h, MfaChallenge).User? then (l, Refused(Expired))
      else if !codeOk then (l, WrongCode)
      else Redeem(l, h, MfaChallenge)
    case Tick(d) => (l.(now := l.now + d), Done)
  }

  function LedgerResponses(cfg: Config, l: Ledger, ops: seq<Op>): seq<Response>
    decreases |ops|
  {
    if ops == [] then []
    else
      var (l', r) := LedgerStep(cfg, l, ops[0]);
      [r] + LedgerResponses(cfg, l', ops[1..])
  }

  // ---- the two agree

  ghost predicate RowAgrees(m: Machine, l: Ledger, h: TokenHash)
    requires h in m.store.tokens && h in l.owner
  {
    var tok := m.store.tokens[h];
    (tok.userId, tok.kind) == l.owner[h] &&
    tok.userId in l.users &&
    (tok.consumedAt.None? <==> IsNewestUnspent(l, h)) &&
    (IsNewestUnspent(l, h) ==> tok.expiresAt == l.newest[l.owner[h]].expiresAt)
  }

  ghost predicate Agrees(m: Machine, l: Ledger) {
    m.now == l.now &&
    m.store.users.Keys == l.users &&
    m.store.tokens.Keys == l.owner.Keys &&
    (forall h :: h in l.owner ==> RowAgrees(m, l, h)) &&
    (forall o :: o in l.newest ==> l.newest[o].h in l.owner && l.owner[l.newest[o].h] == o)
  }

  /** The active rows of an owner: the newest token while it is unspent, and no other. */
  lemma ActiveIsNewest(m: Machine, l: Ledger, u: UserId, kind: Kind)
    requires Agrees(m, l)
    ensures ActiveOf(m.store.tokens, u, kind) ==
      if (u, kind) in l.newest && !l.newest[(u, kind)].spent then {l.newest[(u, kind)].h} else {}
  {
  }

  lemma CheckAgrees(m: Machine, l: Ledger, h: TokenHash, kind: Kind)
    requires Agrees(m, l)
    ensures UserResponse(Check(m.store, h, kind, m.now)) == Verdict(l, h, kind)
  {
  }

  lemma ConsumeAgrees(m: Machine, l: Ledger, h: TokenHash)
    requires Agrees(m, l)
    ensures Agrees(m.(store := Consume(m.store, h, m.now)), Spend(l, h))
  {
  }

  lemma CreateTokenAgrees(m: Machine, l: Ledger, u: UserId, kind: Kind, h: TokenHash, ttl: int)
    requires Agrees(m, l)
    ensures var (s', r) := CreateToken(m.store, u, kind, h, m.now, ttl);
      var (l', r') := Issue(l, (u, kind), h, ttl);
      Agrees(m.(store := s'), l') && IssueResponse(r) == r'
  {
  }

  lemma CreateChallengeAgrees(cfg: Config, m: Machine, l: Ledger, u: UserId, h: TokenHash)
    requires Agrees(m, l)
    ensures var (m', r) := Step(cfg, m, CreateMfa(u, h));
      var (l', r') := LedgerStep(cfg, l, CreateMfa(u, h));
      Agrees(m', l') && r == r'
  {
    var (m', r) := Step(cfg, m, CreateMfa(u, h));
    var (l', r') := LedgerStep(cfg, l, CreateMfa(u, h));
    ActiveIsNewest(m, l, u, MfaChallenge);
    if r.Issued? {
      forall k | k in l'.owner ensures RowAgrees(m', l', k) {
        if k != h {
          assert RowAgrees(m, l, k);
        }
      }
    }
  }

  lemma DeleteUserAgrees(cfg: Config, m: Machine, l: Ledger, u: UserId)
    requires Agrees(m, l)
    ensures Agrees(Step(cfg, m, DeleteUser(u)).0, LedgerStep(cfg, l, DeleteUser(u)).0)
  {
  }

  lemma PlainAgrees(cfg: Config, m: Machine, l: Ledger, op: Op)
    requires Agrees(m, l) && (op.AddUser? || op.Tick?)
    ensures Agrees(Step(cfg, m, op).0, LedgerStep(cfg, l, op).0)
  {
    var m', l' := Step(cfg, m, op).0, LedgerStep(cfg, l, op).0;
    forall h | h in l'.owner ensures RowAgrees(m', l', h) { assert RowAgrees(m, l, h); }
  }

  lemma RedeemAgrees(cfg: Config, m: Machine, l: Ledger, op: Op)
    requires Agrees(m, l) && (op.RedeemEmail? || op.RedeemReset? || op.LookAtReset? || op.CompleteMfa?)
    ensures var (m', r) := Step(cfg, m, op);
      var (l', r') := LedgerStep(cfg, l, op);
      Agrees(m', l') && r == r'
  {
    CheckAgrees(m, l, op.h,
      if op.RedeemEmail? then EmailVerification else if op.CompleteMfa? then MfaChallenge else PasswordReset);
    ConsumeAgrees(m, l, op.h);
    VerifiedAgrees(m.(store := Consume(m.store, op.h, m.now)), Spend(l, op.h));
  }

  lemma StepAgrees(cfg: Config, m: Machine, l: Ledger, op: Op)
    requires Agrees(m, l)
    ensures var (m', r) := Step(cfg, m, op);
      var (l', r') := LedgerStep(cfg, l, op);
      Agrees(m', l') && r == r'
  {
    if op.DeleteUser? { DeleteUserAgrees(cfg, m, l, op.user); }
    else if op.CreateEmail? { CreateTokenAgrees(m, l, op.user, EmailVerification, op.h, cfg.emailTtl); }
    else if op.CreateReset? { CreateTokenAgrees(m, l, op.user, PasswordReset, op.h, cfg.resetTtl); }
    else if op.CreateMfa? { CreateChallengeAgrees(cfg, m, l, op.user, op.h); }
    else if op.AddUser? || op.Tick? { PlainAgrees(cfg, m, l, op); }
    else { RedeemAgrees(cfg, m, l, op); }
  }

  lemma VerifiedAgrees(m: Machine, l: Ledger)
    requires Agrees(m, l)
    ensures forall u :: Agrees(m.(store := SetVerified(m.store, u)), l)
  {
  }

  /** From agreeing states, every run of the service gives the ledger's responses. */
  lemma {:induction false} RunsAgree(cfg: Config, m: Machine, l: Ledger, ops: seq<Op>)
    requires Agrees(m, l)
    ensures Responses(cfg, m, ops) == LedgerResponses(cfg, l, ops)
    decreases |ops|
  {
    if ops != [] {
      StepAgrees(cfg, m, l, ops[0]);
      RunsAgree(cfg, Step(cfg, m, ops[0]).0, LedgerStep(cfg, l, ops[0]).0, ops[1..]);
    }
  }

  const START := Machine(Store(map[], map[]), 0)

  const EMPTY_LEDGER := Ledger({}, map[], map[], 0)

  /** The latest-token rule: all responses of every run from an empty database are the ledger's. */
  lemma ServiceRefinesLedger(cfg: Config, ops: seq<Op>)
    ensures Responses(cfg, START, ops) == LedgerResponses(cfg, EMPTY_LEDGER, ops)
  {
    RunsAgree(cfg, START, EMPTY_LEDGER, ops);
  }

  // ---- a challenge that expires unused is never replaced

  function After(cfg: Config, m: Machine, ops: seq<Op>): Machine
    decreases |ops|
  {
    if ops == [] then m else After(cfg, Step(cfg, m, ops[0]).0, ops[1..])
  }

  function LedgerAfter(cfg: Config, l: Ledger, ops: seq<Op>): Ledger
    decreases |ops|
  {
    if ops == [] then l else LedgerAfter(cfg, LedgerStep(cfg, l, ops[0]).0, ops[1..])
  }

  lemma {:induction false} AfterAgrees(cfg: Config, m: Machine, l: Ledger, ops: seq<Op>)
    requires Agrees(m, l)
    ensures Agrees(After(cfg, m, ops), LedgerAfter(cfg, l, ops))
    decreases |ops|
  {
    if ops != [] {
      StepAgrees(cfg, m, l, ops[0]);
      AfterAgrees(cfg, Step(cfg, m, ops[0]).0, LedgerStep(cfg, l, ops[0]).0, ops[1..]);
    }
  }

  ghost predicate Stuck(l: Ledger, u: UserId) {
    u in l.users && (u, MfaChallenge) in l.newest && !l.newest[(u, MfaChallenge)].spent &&
    l.newest[(u, MfaChallenge)].h in l.owner && l.owner[l.newest[(u, MfaChallenge)].h] == (u, MfaChallenge) &&
    l.newest[(u, MfaChallenge)].expiresAt <= l.now
  }

  lemma StuckStep(cfg: Config, l: Ledger, u: UserId, op: Op)
    requires Stuck(l, u) && op != DeleteUser(u)
    ensures Stuck(LedgerStep(cfg, l, op).0, u)
    ensures op.CreateMfa? && op.user == u ==> LedgerStep(cfg, l, op).1 == Refused(Storage)
  {
  }

  lemma {:induction false} StuckRun(cfg: Config, l: Ledger, u: UserId, ops: seq<Op>, i: nat)
    requires Stuck(l, u) && DeleteUser(u) !in ops
    requires i < |ops| && ops[i].CreateMfa? && ops[i].user == u
    ensures i < |LedgerResponses(cfg, l, ops)| && LedgerResponses(cfg, l, ops)[i] == Refused(Storage)
    decreases |ops|
  {
    StuckStep(cfg, l, u, ops[0]);
    if i > 0 {
      StuckRun(cfg, LedgerStep(cfg, l, ops[0]).0, u, ops[1..], i - 1);
    }
  }

  /**
   * Once a run has left a user with an unconsumed challenge that is past its expiry, every later
   * attempt to create a challenge for that user is refused, in every run that does not delete the user:
   * challenges are inserted without revoking the previous one.
   */
  lemma ExpiredChallengeBlocks(cfg: Config, before: seq<Op>, h: TokenHash, later: seq<Op>, i: nat)
    requires var t := After(cfg, START, before).store.tokens;
      Active(t, h) && t[h].kind == MfaChallenge && t[h].expiresAt <= After(cfg, START, before).now &&
      DeleteUser(t[h].userId) !in later &&
      i < |later| && later[i].CreateMfa? && later[i].user == t[h].userId
    ensures var responses := Responses(cfg, After(cfg, START, before), later);
      i < |responses| && responses[i] == Refused(Storage)
  {
    AfterAgrees(cfg, START, EMPTY_LEDGER, before);
    var m, l := After(cfg, START, before), LedgerAfter(cfg, EMPTY_LEDGER, before);
    assert RowAgrees(m, l, h);
    RunsAgree(cfg, m, l, later);
    StuckRun(cfg, l, m.store.tokens[h].userId, later, i);
  }

  lemma Then(cfg: Config, m: Machine, op: Op, rest: seq<Op>)
    ensures Responses(cfg, m, [op] + rest) == [Step(cfg, m, op).1] + Responses(cfg, Step(cfg, m, op).0, rest)
  {
    assert ([op] + rest)[1..] == rest;
  }

  /** The shortest such run: a challenge, its five minutes, and another login. */
  lemma SecondLoginBlocked(cfg: Config)
    ensures Responses(cfg, START,
        [AddUser(0)] + ([CreateMfa(0, 7)] + ([Tick(MFA_CHALLENGE_TTL)] + ([CreateMfa(0, 8)] + [])))) ==
      [Done] + ([Issued(7)] + ([Done] + ([Refused(Storage)] + [])))
  {
    var tail := [CreateMfa(0, 8)] + [];
    var wait := [Tick(MFA_CHALLENGE_TTL)] + tail;
    var m1 := Step(cfg, START, AddUser(0)).0;
    var m2 := Step(cfg, m1, CreateMfa(0, 7)).0;
    var m3 := Step(cfg, m2, Tick(MFA_CHALLENGE_TTL)).0;
    assert m1.store.users == map[0 := false] && ActiveOf(m1.store.tokens, 0, MfaChallenge) == {};
    assert 7 in ActiveOf(m3.store.tokens, 0, MfaChallenge) && !IsValid(m3.store.tokens[7], m3.now);
    Then(cfg, START, AddUser(0), [CreateMfa(0, 7)] + wait);
    Then(cfg, m1, CreateMfa(0, 7), wait);
    Then(cfg, m2, Tick(MFA_CHALLENGE_TTL), tail);
    Then(cfg, m3, CreateMfa(0, 8), []);
  }
}
