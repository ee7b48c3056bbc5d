/**
 * Login with MFA as a concurrent protocol (internal/http/features/password/handler.go Login,
 * internal/http/features/mfa/handler.go Verify, pkg/auth/mfa.go, pkg/auth/session.go). Every request is a
 * program counter over its database statements; what the database cannot decide (was the password or the
 * TOTP code right, which recovery row a lookup returns, which fresh token is drawn) is an arbitrary choice.
 */
module MfaProtocol {
  import opened Prelude
  import opened TokenTable
  import opened Counting
  import VerificationService

  type RequestId = nat
  type CodeId = nat

  datatype Factor = Totp | Recovery(code: CodeId)

  /** A consumed challenge and the second factor shown for it. */
  datatype Pass = Pass(h: TokenHash, factor: Factor)

  datatype Request =
    // Login
    | CheckingPassword(user: UserId)
    | LoadingUser(user: UserId)
    | Challenging(user: UserId)
    // Verify
    | Validating(h: TokenHash)
    | CheckingTotp(h: TokenHash, user: UserId)
    | FindingCode(h: TokenHash, user: UserId)
    | MarkingCode(h: TokenHash, user: UserId, code: CodeId)
    | Refetching(h: TokenHash, user: UserId, factor: Factor)
    | Consuming(h: TokenHash, user: UserId, factor: Factor)
    // IssueSession, for both
    | Issuing(user: UserId, pass: Option<Pass>)
    | Minting(user: UserId, mfaEnabled: bool, pass: Option<Pass>)
    | Finished

  /** What a step cannot read from the database. */
  datatype Choice = Choice(ok: bool, code: Option<CodeId>, drawn: TokenHash)

  datatype Action =
    | ArriveLogin(id: RequestId, user: UserId)
    | ArriveVerify(id: RequestId, h: TokenHash)
    | Run(id: RequestId, choice: Choice)
    | Abort(id: RequestId)
    | OtherLogin(user: UserId)
    | Refresh(user: UserId)
    | SetMfaEnabled(user: UserId, enabled: bool)
    | AddCode(user: UserId, code: CodeId)
    | RemoveCodes(user: UserId)
    | Register(user: UserId)
    | Delete(user: UserId)
    | Tick(d: nat)

  datatype Code = Code(user: UserId, used: bool)

  datatype Origin = Origin(user: UserId, login: RequestId)

  datatype CodeUse = CodeUse(code: CodeId, user: UserId, request: RequestId)

  /** An access token: the MFA flag of its user as read, its mfa_verified claim, and where it came from. */
  datatype AccessToken = AccessToken(user: UserId, mfaEnabled: bool, mfaVerified: bool,
                                     request: RequestId, pass: Option<Pass>)

  /** The tables, the clock, and the token hashes and code ids ever handed out. */
  datatype Db = Db(users: map<UserId, bool>, tokens: Table, codes: map<CodeId, Code>, now: int,
                   issued: set<TokenHash>, codesIssued: set<CodeId>)

  /** Everything that has happened, in order. */
  datatype Log = Log(checked: seq<RequestId>, who: map<RequestId, UserId>,
                     created: seq<TokenHash>, origin: map<TokenHash, Origin>,
                     consumed: seq<TokenHash>, used: seq<CodeUse>, minted: seq<AccessToken>)

  datatype World = World(db: Db, requests: map<RequestId, Request>, log: Log)

  const START := World(Db(map[], map[], map[], 0, {}, {}), map[], Log([], map[], [], map[], [], [], []))

  function Set(w: World, id: RequestId, r: Request): World {
    w.(requests := w.requests[id := r])
  }

  // ---- the effects of single statements on tables and log

  function LogChecked(w: World, id: RequestId, u: UserId): World {
    w.(log := w.log.(checked := w.log.checked + [id], who := w.log.who[id := u]))
  }

  function AddChallenge(w: World, id: RequestId, u: UserId, h: TokenHash): World {
    var tok := VerificationService.ChallengeToken(u, w.db.now);
    w.(db := w.db.(tokens := w.db.tokens[h := tok], issued := w.db.issued + {h}),
       log := w.log.(created := w.log.created + [h], origin := w.log.origin[h := Origin(u, id)]))
  }

  /** UPDATE mfa_recovery_codes SET used_at = NOW() WHERE id = $1 AND used_at IS NULL, when it hits a row. */
  function MarkCode(w: World, id: RequestId, u: UserId, code: CodeId): World
    requires code in w.db.codes
  {
    w.(db := w.db.(codes := w.db.codes[code := w.db.codes[code].(used := true)]),
       log := w.log.(used := w.log.used + [CodeUse(code, u, id)]))
  }

  function ConsumeChallenge(w: World, h: TokenHash): World {
    w.(db := w.db.(tokens := MarkConsumed(w.db.tokens, h, w.db.now)), log := w.log.(consumed := w.log.consumed + [h]))
  }

  /** The mfa_verified claim that issueAccessToken writes. */
  function Claim(mfaEnabled: bool, optsMfaVerified: bool): bool {
    !mfaEnabled || optsMfaVerified
  }

  function Mint(w: World, user: UserId, mfaEnabled: bool, request: RequestId, pass: Option<Pass>): World {
    var t := AccessToken(user, mfaEnabled, Claim(mfaEnabled, pass.Some?), request, pass);
    w.(log := w.log.(minted := w.log.minted + [t]))
  }

  // ---- the steps

  /** One database statement of a login. */
  function AdvanceLogin(w: World, id: RequestId, c: Choice): World
    requires id in w.requests
  {
    match w.requests[id]
    case CheckingPassword(u) => if c.ok then Set(LogChecked(w, id, u), id, LoadingUser(u)) else Set(w, id, Finished)
    case LoadingUser(u) =>
      if u !in w.db.users || !c.ok then Set(w, id, Finished)
      else Set(w, id, if w.db.users[u] then Challenging(u) else Issuing(u, None))
    case Challenging(u) =>
      var tok := VerificationService.ChallengeToken(u, w.db.now);
      if c.drawn in w.db.issued then w // the random source never repeats a token
      else if CanInsert(w.db.tokens, w.db.users.Keys, c.drawn, tok)
      then Set(AddChallenge(w, id, u, c.drawn), id, Finished)
      else Set(w, id, Finished)
    case _ => w
  }

  /** One database statement of a verification. */
  function AdvanceVerify(w: World, id: RequestId, c: Choice): World
    requires id in w.requests
  {
    match w.requests[id]
    case Validating(h) =>
      var tok := Find(w.db.tokens, h, MfaChallenge);
      Set(w, id, if tok.Some? && IsValid(tok.value, w.db.now) then CheckingTotp(h, tok.value.userId) else Finished)
    case CheckingTotp(h, u) => Set(w, id, if c.ok then Refetching(h, u, Totp) else FindingCode(h, u))
    case FindingCode(h, u) =>
      if c.code.Some? && c.code.value in w.db.codes && w.db.codes[c.code.value] == Code(u, false)
      then Set(w, id, MarkingCode(h, u, c.code.value))
      else Set(w, id, Finished)
    case MarkingCode(h, u, code) =>
      if code in w.db.codes && !w.db.codes[code].used
      then Set(MarkCode(w, id, u, code), id, Refetching(h, u, Recovery(code)))
      else Set(w, id, Finished)
    case Refetching(h, u, f) =>
      Set(w, id, if Find(w.db.tokens, h, MfaChallenge).Some? then Consuming(h, u, f) else Finished)
    case Consuming(h, u, f) =>
      if Active(w.db.tokens, h) then Set(ConsumeChallenge(w, h), id, Issuing(u, Some(Pass(h, f))))
      else Set(w, id, Finished)
    case _ => w
  }

  /** One database statement of IssueSession; the token is minted with the session insert. */
  function AdvanceIssue(w: World, id: RequestId): World
    requires id in w.requests
  {
    match w.requests[id]
    case Issuing(u, pass) => Set(w, id, if u in w.db.users then Minting(u, w.db.users[u], pass) else Finished)
    case Minting(u, mfaEnabled, pass) =>
      if u in w.db.users then Mint(Set(w, id, Finished), u, mfaEnabled, id, pass) else Set(w, id, Finished)
    case _ => w
  }

  predicate InLogin(r: Request) { r.CheckingPassword? || r.LoadingUser? || r.Challenging? }

  predicate InIssue(r: Request) { r.Issuing? || r.Minting? }

  function Advance(w: World, id: RequestId, c: Choice): World
    requires id in w.requests
  {
    if InLogin(w.requests[id]) then AdvanceLogin(w, id, c)
    else if InIssue(w.requests[id]) then AdvanceIssue(w, id)
    else AdvanceVerify(w, id, c)
  }

  function CascadeCodes(codes: map<CodeId, Code>, u: UserId): map<CodeId, Code> {
    map k | k in codes && codes[k].user != u :: codes[k]
  }

  function Apply(w: World, a: Action): World {
    match a
    case ArriveLogin(id, u) => if id in w.requests then w else Set(w, id, CheckingPassword(u))
    case ArriveVerify(id, h) => if id in w.requests then w else Set(w, id, Validating(h))
    case Run(id, c) => if id in w.requests then Advance(w, id, c) else w
    case Abort(id) => if id in w.requests then Set(w, id, Finished) else w
    case OtherLogin(u) => if u in w.db.users then Mint(w, u, w.db.users[u], 0, None) else w
    case Refresh(u) => if u in w.db.users then Mint(w, u, w.db.users[u], 0, None) else w
    case SetMfaEnabled(u, enabled) =>
      if u in w.db.users then w.(db := w.db.(users := w.db.users[u := enabled])) else w
    case AddCode(u, code) =>
      if u !in w.db.users || code in w.db.codesIssued then w
      else w.(db := w.db.(codes := w.db.codes[code := Code(u, false)], codesIssued := w.db.codesIssued + {code}))
    case RemoveCodes(u) => w.(db := w.db.(codes := CascadeCodes(w.db.codes, u)))
    case Register(u) => if u in w.db.users then w else w.(db := w.db.(users := w.db.users[u := false]))
    case Delete(u) =>
      w.(db := w.db.(users := w.db.users - {u}, tokens := CascadeUser(w.db.tokens, u),
                     codes := CascadeCodes(w.db.codes, u)))
    case Tick(d) => w.(db := w.db.(now := w.db.now + d))
  }

  function Exec(w: World, schedule: seq<Action>): World
    decreases |schedule|
  {
    if schedule == [] then w else Exec(Apply(w, schedule[0]), schedule[1..])
  }

  // ---- the invariant

  ghost predicate ChallengeOf(w: World, h: TokenHash, u: UserId) {
    h in w.log.origin && w.log.origin[h].user == u
  }

  ghost predicate FactorShown(w: World, id: RequestId, u: UserId, f: Factor) {
    f.Recovery? ==> CodeUse(f.code, u, id) in w.log.used
  }

  /** A pass belongs to a consumed challenge of its user, shown with a factor by this request. */
  ghost predicate PassOk(w: World, id: RequestId, u: UserId, p: Option<Pass>) {
    p.Some? ==> ChallengeOf(w, p.value.h, u) && p.value.h in w.log.consumed && FactorShown(w, id, u, p.value.factor)
  }

  /** Login request id has checked this user's password. */
  ghost predicate CheckedFor(w: World, id: RequestId, u: UserId) {
    id in w.log.checked && id in w.log.who && w.log.who[id] == u
  }

  ghost predicate NoChallengeBy(w: World, id: RequestId) {
    forall h :: h in w.log.origin ==> w.log.origin[h].login != id
  }

  ghost predicate RequestOk(w: World, id: RequestId, r: Request) {
    match r
    case CheckingPassword(u) => id !in w.log.checked && NoChallengeBy(w, id)
    case LoadingUser(u) => CheckedFor(w, id, u) && NoChallengeBy(w, id)
    case Challenging(u) => CheckedFor(w, id, u) && NoChallengeBy(w, id)
    case Validating(h) => true
    case CheckingTotp(h, u) => ChallengeOf(w, h, u)
    case FindingCode(h, u) => ChallengeOf(w, h, u)
    case MarkingCode(h, u, code) => ChallengeOf(w, h, u) && code in w.db.codesIssued
    case Refetching(h, u, f) => ChallengeOf(w, h, u) && FactorShown(w, id, u, f)
    case Consuming(h, u, f) => ChallengeOf(w, h, u) && FactorShown(w, id, u, f)
    case Issuing(u, pass) => PassOk(w, id, u, pass)
    case Minting(u, _, pass) => PassOk(w, id, u, pass)
    case Finished => true
  }

  /** The challenge a request in IssueSession has consumed. */
  predicate Holds(r: Request, h: TokenHash) {
    InIssue(r) && r.pass.Some? && r.pass.value.h == h
  }

  predicate Shows(t: AccessToken, h: TokenHash) {
    t.pass.Some? && t.pass.value.h == h
  }

  ghost predicate TokenOk(w: World, t: AccessToken) {
    PassOk(w, t.request, t.user, t.pass) && t.mfaVerified == Claim(t.mfaEnabled, t.pass.Some?) &&
    (t.pass.Some? ==> t.request in w.requests && w.requests[t.request].Finished?)
  }

  /** No challenge is held by two requests, or shown by two tokens, or both. */
  ghost predicate OneHolder(w: World) {
    (forall i, j, h | i in w.requests && j in w.requests && i != j ::
      Holds(w.requests[i], h) ==> !Holds(w.requests[j], h)) &&
    (forall i, k, h | i in w.requests && 0 <= k < |w.log.minted| ::
      Holds(w.requests[i], h) ==> !Shows(w.log.minted[k], h)) &&
    (forall k, l, h | 0 <= k < l < |w.log.minted| :: Shows(w.log.minted[k], h) ==> !Shows(w.log.minted[l], h)) &&
    (forall k, l | 0 <= k < l < |w.log.minted| ::
      w.log.minted[k].pass.Some? && w.log.minted[l].pass.Some? ==> w.log.minted[k].request != w.log.minted[l].request)
  }

  ghost predicate LogsOk(w: World) {
    Distinct(w.log.checked) && Distinct(w.log.created) && Distinct(w.log.consumed) &&
    (forall id :: id in w.log.checked ==> id in w.requests) &&
    (forall h :: h in w.log.created <==> h in w.log.origin) &&
    (forall h :: h in w.log.consumed ==> h in w.log.origin && !Active(w.db.tokens, h)) &&
    (forall h :: h in w.log.origin ==>
      h in w.db.issued && CheckedFor(w, w.log.origin[h].login, w.log.origin[h].user)) &&
    (forall h, k :: h in w.log.origin && k in w.log.origin && h != k ==> w.log.origin[h].login != w.log.origin[k].login)
  }

  ghost predicate CodesOk(w: World) {
    w.db.codes.Keys <= w.db.codesIssued &&
    (forall i, j :: 0 <= i < j < |w.log.used| ==> w.log.used[i].code != w.log.used[j].code) &&
    (forall i | 0 <= i < |w.log.used| ::
      w.log.used[i].code in w.db.codesIssued &&
      (w.log.used[i].code in w.db.codes ==> w.db.codes[w.log.used[i].code].used))
  }

  ghost predicate RowsOk(w: World) {
    forall h :: h in w.db.tokens ==> w.db.tokens[h].kind == MfaChallenge && ChallengeOf(w, h, w.db.tokens[h].userId)
  }

  ghost predicate Inv(w: World) {
    LogsOk(w) && CodesOk(w) && RowsOk(w) && OneHolder(w) &&
    (forall id :: id in w.requests ==> RequestOk(w, id, w.requests[id])) &&
    (forall k :: 0 <= k < |w.log.minted| ==> TokenOk(w, w.log.minted[k]))
  }

  // ---- every step keeps it

  /** Nobody else holds or has shown what this request would hold. */
  ghost predicate FreeFor(w: World, id: RequestId, r: Request) {
    forall h | Holds(r, h) ::
      (forall j | j in w.requests && j != id :: !Holds(w.requests[j], h)) &&
      (forall k | 0 <= k < |w.log.minted| :: !Shows(w.log.minted[k], h))
  }

  /** No token has been minted on a challenge by this request. */
  ghost predicate Unminted(w: World, id: RequestId) {
    forall k | 0 <= k < |w.log.minted| :: w.log.minted[k].pass.Some? ==> w.log.minted[k].request != id
  }

  lemma InFlightUnminted(w: World, id: RequestId)
    requires Inv(w) && (id in w.requests ==> !w.requests[id].Finished?)
    ensures Unminted(w, id)
  {
  }

  lemma SetKeeps(w: World, id: RequestId, r: Request)
    requires Inv(w) && RequestOk(w, id, r) && FreeFor(w, id, r)
    requires r.Finished? || Unminted(w, id)
    ensures Inv(Set(w, id, r))
  {
    var w' := Set(w, id, r);
    forall j | j in w'.requests ensures RequestOk(w', j, w'.requests[j]) {
      if j != id { assert RequestOk(w, j, w.requests[j]); }
    }
    forall k | 0 <= k < |w'.log.minted| ensures TokenOk(w', w'.log.minted[k]) { assert TokenOk(w, w.log.minted[k]); }
  }

  /** Requests and tokens stay right when logs and issued ids grow and nothing else about them changes. */
  lemma GrowthKeeps(w: World, w': World)
    requires Inv(w)
    requires w'.requests == w.requests
    requires w.log.minted <= w'.log.minted && w.db.codesIssued <= w'.db.codesIssued
    requires forall h :: h in w.log.origin ==> h in w'.log.origin && w'.log.origin[h] == w.log.origin[h]
    requires forall h :: h in w.log.consumed ==> h in w'.log.consumed
    requires forall u :: u in w.log.used ==> u in w'.log.used
    requires forall id, u :: CheckedFor(w, id, u) ==> CheckedFor(w', id, u)
    requires forall id :: id in w'.log.checked && id !in w.log.checked ==> id in w.requests && w.requests[id].Finished?
    requires forall h :: h in w'.log.origin && h !in w.log.origin ==>
      w'.log.origin[h].login in w.requests && w.requests[w'.log.origin[h].login].Finished?
    ensures forall id :: id in w'.requests ==> RequestOk(w', id, w'.requests[id])
    ensures forall k :: 0 <= k < |w.log.minted| ==> TokenOk(w', w'.log.minted[k])
  {
  }

  lemma LogCheckedKeeps(w: World, id: RequestId, u: UserId)
    requires Inv(w) && id in w.requests && w.requests[id].Finished? && id !in w.log.checked
    ensures Inv(LogChecked(w, id, u))
  {
    GrowthKeeps(w, LogChecked(w, id, u));
  }

  lemma AddChallengeLogs(w: World, id: RequestId, u: UserId, h: TokenHash)
    requires LogsOk(w) && CheckedFor(w, id, u) && NoChallengeBy(w, id)
    requires h !in w.log.origin && h !in w.log.consumed && h !in w.log.created
    ensures LogsOk(AddChallenge(w, id, u, h))
  {
  }

  lemma AddChallengeKeeps(w: World, id: RequestId, u: UserId, h: TokenHash)
    requires Inv(w) && id in w.requests && w.requests[id].Finished?
    requires CheckedFor(w, id, u) && NoChallengeBy(w, id) && h !in w.db.issued
    ensures Inv(AddChallenge(w, id, u, h))
  {
    assert h !in w.log.origin && h !in w.log.consumed && h !in w.log.created;
    GrowthKeeps(w, AddChallenge(w, id, u, h));
    AddChallengeLogs(w, id, u, h);
  }

  lemma MarkCodeKeeps(w: World, id: RequestId, u: UserId, code: CodeId)
    requires Inv(w) && code in w.db.codes && !w.db.codes[code].used
    ensures Inv(MarkCode(w, id, u, code))
  {
    GrowthKeeps(w, MarkCode(w, id, u, code));
  }

  lemma ConsumeChallengeLogs(w: World, h: TokenHash)
    requires LogsOk(w) && h in w.log.origin && h !in w.log.consumed
    ensures LogsOk(ConsumeChallenge(w, h))
  {
  }

  /** What is still active nobody has consumed, holds or has shown. */
  lemma ActiveIsFree(w: World, h: TokenHash)
    requires Inv(w) && Active(w.db.tokens, h)
    ensures h in w.log.origin && h !in w.log.consumed
    ensures forall i :: i in w.requests ==> !Holds(w.requests[i], h)
    ensures forall k :: 0 <= k < |w.log.minted| ==> !Shows(w.log.minted[k], h)
  {
  }

  lemma ConsumeChallengeKeeps(w: World, h: TokenHash)
    requires Inv(w) && Active(w.db.tokens, h)
    ensures Inv(ConsumeChallenge(w, h))
  {
    ActiveIsFree(w, h);
    GrowthKeeps(w, ConsumeChallenge(w, h));
    ConsumeChallengeLogs(w, h);
  }

  lemma MintHolders(w: World, u: UserId, mfaEnabled: bool, id: RequestId, pass: Option<Pass>)
    requires OneHolder(w)
    requires pass.Some? ==> Unminted(w, id)
    requires pass.Some? ==> forall j :: j in w.requests ==> !Holds(w.requests[j], pass.value.h)
    requires pass.Some? ==> forall k :: 0 <= k < |w.log.minted| ==> !Shows(w.log.minted[k], pass.value.h)
    ensures OneHolder(Mint(w, u, mfaEnabled, id, pass))
  {
  }

  lemma MintKeeps(w: World, u: UserId, mfaEnabled: bool, id: RequestId, pass: Option<Pass>)
    requires Inv(w) && PassOk(w, id, u, pass)
    requires pass.Some? ==> id in w.requests && w.requests[id].Finished? && Unminted(w, id)
    requires pass.Some? ==> forall j :: j in w.requests ==> !Holds(w.requests[j], pass.value.h)
    requires pass.Some? ==> forall k :: 0 <= k < |w.log.minted| ==> !Shows(w.log.minted[k], pass.value.h)
    ensures Inv(Mint(w, u, mfaEnabled, id, pass))
  {
    GrowthKeeps(w, Mint(w, u, mfaEnabled, id, pass));
    MintHolders(w, u, mfaEnabled, id, pass);
  }

  /** Deleting rows and adding new codes touches no log. */
  lemma RowChangeKeeps(w: World, db: Db)
    requires Inv(w)
    requires forall h :: h in db.tokens ==> h in w.db.tokens && db.tokens[h] == w.db.tokens[h]
    requires forall c :: c in db.codes ==>
      (c in w.db.codes && db.codes[c] == w.db.codes[c]) || (c !in w.db.codesIssued && c in db.codesIssued)
    requires db.issued == w.db.issued && w.db.codesIssued <= db.codesIssued
    ensures Inv(w.(db := db))
  {
    GrowthKeeps(w, w.(db := db));
  }

  lemma CheckStepKeeps(w: World, id: RequestId, u: UserId)
    requires Inv(w) && id in w.requests && w.requests[id] == CheckingPassword(u)
    ensures Inv(Set(LogChecked(w, id, u), id, LoadingUser(u)))
  {
    assert RequestOk(w, id, w.requests[id]);
    InFlightUnminted(w, id);
    var stopped := Set(w, id, Finished);
    SetKeeps(w, id, Finished);
    LogCheckedKeeps(stopped, id, u);
    SetKeeps(LogChecked(stopped, id, u), id, LoadingUser(u));
    assert Set(LogChecked(w, id, u), id, LoadingUser(u)) == Set(LogChecked(stopped, id, u), id, LoadingUser(u));
  }

  lemma ChallengeStepKeeps(w: World, id: RequestId, u: UserId, h: TokenHash)
    requires Inv(w) && id in w.requests && w.requests[id] == Challenging(u) && h !in w.db.issued
    ensures Inv(Set(AddChallenge(w, id, u, h), id, Finished))
  {
    assert RequestOk(w, id, w.requests[id]);
    var stopped := Set(w, id, Finished);
    SetKeeps(w, id, Finished);
    AddChallengeKeeps(stopped, id, u, h);
    assert Set(AddChallenge(w, id, u, h), id, Finished) == AddChallenge(stopped, id, u, h);
  }

  lemma LoginKeeps(w: World, id: RequestId, c: Choice)
    requires Inv(w) && id in w.requests && InLogin(w.requests[id])
    ensures Inv(AdvanceLogin(w, id, c))
  {
    SetKeeps(w, id, Finished);
    match w.requests[id]
    case CheckingPassword(u) => CheckStepKeeps(w, id, u);
    case LoadingUser(u) =>
      if u in w.db.users && c.ok {
        assert RequestOk(w, id, w.requests[id]);
        InFlightUnminted(w, id);
        SetKeeps(w, id, if w.db.users[u] then Challenging(u) else Issuing(u, None));
      }
    case Challenging(u) =>
      if c.drawn !in w.db.issued {
        ChallengeStepKeeps(w, id, u, c.drawn);
      }
  }

  lemma MarkStepKeeps(w: World, id: RequestId, h: TokenHash, u: UserId, code: CodeId)
    requires Inv(w) && id in w.requests && w.requests[id] == MarkingCode(h, u, code)
    requires code in w.db.codes && !w.db.codes[code].used
    ensures Inv(Set(MarkCode(w, id, u, code), id, Refetching(h, u, Recovery(code))))
  {
    assert RequestOk(w, id, w.requests[id]);
    InFlightUnminted(w, id);
    MarkCodeKeeps(w, id, u, code);
    SetKeeps(MarkCode(w, id, u, code), id, Refetching(h, u, Recovery(code)));
  }

  lemma ConsumeStepKeeps(w: World, id: RequestId, h: TokenHash, u: UserId, f: Factor)
    requires Inv(w) && id in w.requests && w.requests[id] == Consuming(h, u, f) && Active(w.db.tokens, h)
    ensures Inv(Set(ConsumeChallenge(w, h), id, Issuing(u, Some(Pass(h, f)))))
  {
    assert RequestOk(w, id, w.requests[id]);
    InFlightUnminted(w, id);
    ActiveIsFree(w, h);
    ConsumeChallengeKeeps(w, h);
    SetKeeps(ConsumeChallenge(w, h), id, Issuing(u, Some(Pass(h, f))));
  }

  lemma VerifyKeeps(w: World, id: RequestId, c: Choice)
    requires Inv(w) && id in w.requests && !InLogin(w.requests[id]) && !InIssue(w.requests[id])
    ensures Inv(AdvanceVerify(w, id, c))
  {
    var r := w.requests[id];
    SetKeeps(w, id, Finished);
    if r.MarkingCode? {
      if r.code in w.db.codes && !w.db.codes[r.code].used {
        MarkStepKeeps(w, id, r.h, r.user, r.code);
      }
    } else if r.Consuming? {
      if Active(w.db.tokens, r.h) {
        ConsumeStepKeeps(w, id, r.h, r.user, r.factor);
      }
    } else if !r.Finished? {
      assert RequestOk(w, id, r);
      InFlightUnminted(w, id);
      var next := AdvanceVerify(w, id, c).requests[id];
      assert RequestOk(w, id, next);
      SetKeeps(w, id, next);
    }
  }

  lemma IssueKeeps(w: World, id: RequestId)
    requires Inv(w) && id in w.requests && InIssue(w.requests[id])
    ensures Inv(AdvanceIssue(w, id))
  {
    var r := w.requests[id];
    assert RequestOk(w, id, r);
    InFlightUnminted(w, id);
    SetKeeps(w, id, Finished);
    if r.user in w.db.users {
      if r.Issuing? {
        assert forall h :: Holds(Minting(r.user, w.db.users[r.user], r.pass), h) ==> Holds(r, h);
        SetKeeps(w, id, Minting(r.user, w.db.users[r.user], r.pass));
      } else {
        var stopped := Set(w, id, Finished);
        if r.pass.Some? {
          assert Holds(w.requests[id], r.pass.value.h);
        }
        MintKeeps(stopped, r.user, r.mfaEnabled, id, r.pass);
      }
    }
  }

  lemma RunKeeps(w: World, id: RequestId, c: Choice)
    requires Inv(w) && id in w.requests
    ensures Inv(Advance(w, id, c))
  {
    if InLogin(w.requests[id]) {
      LoginKeeps(w, id, c);
    } else if InIssue(w.requests[id]) {
      IssueKeeps(w, id);
    } else {
      VerifyKeeps(w, id, c);
    }
  }

  lemma PlainMintKeeps(w: World, u: UserId)
    requires Inv(w) && u in w.db.users
    ensures Inv(Mint(w, u, w.db.users[u], 0, None))
  {
    MintKeeps(w, u, w.db.users[u], 0, None);
  }

  lemma RowActionKeeps(w: World, a: Action)
    requires Inv(w)
    requires a.SetMfaEnabled? || a.AddCode? || a.RemoveCodes? || a.Register? || a.Delete? || a.Tick?
    ensures Inv(Apply(w, a))
  {
    RowChangeKeeps(w, Apply(w, a).db);
  }

  lemma ApplyKeeps(w: World, a: Action)
    requires Inv(w)
    ensures Inv(Apply(w, a))
  {
    match a
    case ArriveLogin(id, u) => ArriveKeeps(w, id, CheckingPassword(u));
    case ArriveVerify(id, h) => ArriveKeeps(w, id, Validating(h));
    case Run(id, c) => if id in w.requests { RunKeeps(w, id, c); }
    case Abort(id) => SetKeeps(w, id, Finished);
    case OtherLogin(u) => if u in w.db.users { PlainMintKeeps(w, u); }
    case Refresh(u) => if u in w.db.users { PlainMintKeeps(w, u); }
    case _ => RowActionKeeps(w, a);
  }

  lemma ArriveKeeps(w: World, id: RequestId, r: Request)
    requires Inv(w) && (r.CheckingPassword? || r.Validating?)
    ensures id !in w.requests ==> Inv(Set(w, id, r))
  {
    if id !in w.requests {
      InFlightUnminted(w, id);
      SetKeeps(w, id, r);
    }
  }

  lemma {:induction false} ExecKeeps(w: World, schedule: seq<Action>)
    requires Inv(w)
    ensures Inv(Exec(w, schedule))
    decreases |schedule|
  {
    if schedule != [] {
      ApplyKeeps(w, schedule[0]);
      ExecKeeps(Apply(w, schedule[0]), schedule[1..]);
    }
  }

  // ---- what every interleaving guarantees

  predicate IsMfaToken(t: AccessToken) { t.mfaEnabled && t.mfaVerified }

  /** The tokens that claim MFA verification for users read as MFA-enabled. */
  function MfaTokens(ts: seq<AccessToken>): seq<AccessToken> {
    if ts == [] then []
    else MfaTokens(ts[..|ts| - 1]) + (if IsMfaToken(ts[|ts| - 1]) then [ts[|ts| - 1]] else [])
  }

  lemma {:induction false} MfaTokensAreShown(w: World, n: nat) returns (hs: seq<TokenHash>)
    requires Inv(w) && n <= |w.log.minted|
    ensures |hs| == |MfaTokens(w.log.minted[..n])| && Distinct(hs)
    ensures forall h :: h in hs ==> h in w.log.consumed && exists k :: 0 <= k < n && Shows(w.log.minted[k], h)
  {
    if n == 0 {
      hs := [];
    } else {
      var before := MfaTokensAreShown(w, n - 1);
      var t := w.log.minted[n - 1];
      assert w.log.minted[..n][..n - 1] == w.log.minted[..n - 1];
      assert TokenOk(w, t);
      hs := if IsMfaToken(t) then before + [t.pass.value.h] else before;
      if IsMfaToken(t) {
        assert Shows(t, t.pass.value.h);
      }
    }
  }

  lemma {:induction false} ChallengesWithinChecks(w: World, n: nat) returns (logins: seq<RequestId>)
    requires Inv(w) && n <= |w.log.created|
    ensures |logins| == n && Distinct(logins)
    ensures forall i :: 0 <= i < n ==> logins[i] == w.log.origin[w.log.created[i]].login && logins[i] in w.log.checked
  {
    if n == 0 {
      logins := [];
    } else {
      logins := ChallengesWithinChecks(w, n - 1);
      assert w.log.created[n - 1] in w.log.origin;
      logins := logins + [w.log.origin[w.log.created[n - 1]].login];
    }
  }

  /**
   * Conservation, in every interleaving: tokens that claim MFA for MFA-enabled users are no more than
   * challenges consumed, these no more than challenges created, these no more than correct passwords.
   */
  lemma Conservation(schedule: seq<Action>)
    ensures var log := Exec(START, schedule).log;
      |MfaTokens(log.minted)| <= |log.consumed| <= |log.created| <= |log.checked|
  {
    ExecKeeps(START, schedule);
    var w := Exec(START, schedule);
    var hs := MfaTokensAreShown(w, |w.log.minted|);
    assert w.log.minted[..|w.log.minted|] == w.log.minted;
    DistinctWithin(hs, w.log.consumed);
    DistinctWithin(w.log.consumed, w.log.created);
    var logins := ChallengesWithinChecks(w, |w.log.created|);
    DistinctWithin(logins, w.log.checked);
  }

  /**
   * In every interleaving: a token that claims MFA for an MFA-enabled user comes from a consumed challenge
   * of that same user, whose password was checked by the login that created the challenge; refreshed
   * tokens and other logins carry no such claim.
   */
  lemma MfaTokenHasPass(schedule: seq<Action>, k: nat)
    requires k < |Exec(START, schedule).log.minted|
    ensures var log := Exec(START, schedule).log; var t := log.minted[k];
      IsMfaToken(t) ==>
        t.pass.Some? && t.pass.value.h in log.consumed && t.pass.value.h in log.origin &&
        log.origin[t.pass.value.h].user == t.user &&
        log.origin[t.pass.value.h].login in log.who && log.who[log.origin[t.pass.value.h].login] == t.user
  {
    ExecKeeps(START, schedule);
    assert TokenOk(Exec(START, schedule), Exec(START, schedule).log.minted[k]);
  }

  lemma OneUsePerCode(w: World, a: CodeUse, b: CodeUse)
    requires CodesOk(w) && a in w.log.used && b in w.log.used && a.code == b.code
    ensures a == b
  {
  }

  /** In every interleaving each challenge, and each recovery code, stands behind at most one token. */
  lemma OneTokenPerPass(schedule: seq<Action>, k: nat, l: nat)
    requires k < l < |Exec(START, schedule).log.minted|
    requires var ts := Exec(START, schedule).log.minted; ts[k].pass.Some? && ts[l].pass.Some?
    ensures var ts := Exec(START, schedule).log.minted;
      ts[k].pass.value.h != ts[l].pass.value.h &&
      (ts[k].pass.value.factor.Recovery? ==> ts[k].pass.value.factor != ts[l].pass.value.factor)
  {
    ExecKeeps(START, schedule);
    var w := Exec(START, schedule);
    var t, t' := w.log.minted[k], w.log.minted[l];
    assert TokenOk(w, t) && TokenOk(w, t');
    assert Shows(t, t.pass.value.h);
    if t.pass.value.factor.Recovery? && t.pass.value.factor == t'.pass.value.factor {
      var code := t.pass.value.factor.code;
      OneUsePerCode(w, CodeUse(code, t.user, t.request), CodeUse(code, t'.user, t'.request));
    }
  }
}
