/**
 * Concurrent creation and redemption of email tokens and profile updates: each request is a program counter
 * over its atomic steps (a read, one write, or one committed transaction), and a schedule is any list of
 * arrivals, steps, aborted requests, new accounts, account deletions and clock ticks. A profile update reads the
 * whole row and later writes it back, email_verified included (internal/http/features/me/handler.go).
 */
module EmailProtocol {
  import opened Prelude
  import opened TokenTable
  import opened VerificationService

  type RequestId = nat
  /** An address as it is written, and as the CITEXT column compares it. */
  datatype Email = Email(spelling: string, folded: string)

  datatype Request =
    | Creating(user: UserId, kind: Kind, h: TokenHash)
    | Reading(h: TokenHash)
    | Redeeming(h: TokenHash, user: UserId)
    | Created(h: TokenHash, superseded: set<TokenHash>)
    | Verified(h: TokenHash, user: UserId)
    // PATCH /v1/me
    | Loading(user: UserId, newEmail: Option<Email>)
    | Saving(user: UserId, email: Email, verified: bool, changes: bool, readAt: nat)
    | Saved(user: UserId)
    | Failed

  datatype Action =
    | ArriveCreate(id: RequestId, user: UserId, kind: Kind, h: TokenHash, to: Email)
    | ArriveVerify(id: RequestId, h: TokenHash)
    | ArriveUpdate(id: RequestId, user: UserId, newEmail: Option<Email>)
    | Run(id: RequestId)
    | Abort(id: RequestId)
    | Make(user: UserId, email: Email, verified: bool)
    | Delete(user: UserId)
    | Tick(d: nat)

  /**
   * A write to the email or email_verified column: a new account, a redeemed token, a new address, or the row
   * written back as a request read it after the first readAt writes.
   */
  datatype Event =
    | Made(user: UserId, email: Email, verified: bool)
    | Redeemed(user: UserId, h: TokenHash)
    | Changed(user: UserId, email: Email)
    | WrittenBack(user: UserId, readAt: nat)

  /** The email column, the address each token was mailed to, and the writes to email and email_verified. */
  datatype Mail = Mail(emails: map<UserId, Email>, mailedTo: map<TokenHash, Email>, log: seq<Event>)

  /** The database and the requests, with every hash and user id handed out so far. */
  datatype World = World(store: Store, mail: Mail, now: int, requests: map<RequestId, Request>,
                         issued: set<TokenHash>, registered: set<UserId>)

  const START := World(Store(map[], map[]), Mail(map[], map[], []), 0, map[], {}, {})

  function Set(w: World, id: RequestId, r: Request): World {
    w.(requests := w.requests[id := r])
  }

  /** UNIQUE(email), whatever the letter case. */
  predicate Taken(emails: map<UserId, Email>, u: UserId, email: Email) {
    exists v :: v in emails && v != u && emails[v].folded == email.folded
  }

  function WriteRow(w: World, u: UserId, email: Email, verified: bool, e: Event): World {
    w.(store := w.store.(users := w.store.users[u := verified]),
       mail := w.mail.(emails := w.mail.emails[u := email], log := w.mail.log + [e]))
  }

  /** The handler compares spellings: another letter case is another address to it. */
  predicate ChangesEmail(newEmail: Option<Email>, email: Email) {
    newEmail.Some? && newEmail.value.spelling != "" && newEmail.value.spelling != email.spelling
  }

  /** One atomic step of a profile update. */
  function AdvanceUpdate(w: World, id: RequestId): World
    requires id in w.requests
  {
    match w.requests[id]
    case Loading(u, newEmail) =>
      if u !in w.mail.emails || u !in w.store.users then Set(w, id, Failed)
      else if !ChangesEmail(newEmail, w.mail.emails[u])
      then Set(w, id, Saving(u, w.mail.emails[u], w.store.users[u], false, |w.mail.log|))
      else if Taken(w.mail.emails, u, newEmail.value) then Set(w, id, Failed)
      else Set(w, id, Saving(u, newEmail.value, false, true, |w.mail.log|))
    case Saving(u, email, verified, changes, readAt) =>
      if u !in w.store.users || Taken(w.mail.emails, u, email) then Set(w, id, Failed)
      else
        var write := if changes then Changed(u, email) else WrittenBack(u, readAt);
        Set(WriteRow(w, u, email, verified, write), id, Saved(u))
    case _ => w
  }

  /** The transaction of VerifyEmailToken. */
  function Redeem(w: World, h: TokenHash, u: UserId): World {
    w.(store := SetVerified(Consume(w.store, h, w.now), u), mail := w.mail.(log := w.mail.log + [Redeemed(u, h)]))
  }

  /** One atomic step of a request. */
  function Advance(cfg: Config, w: World, id: RequestId): World
    requires id in w.requests
  {
    match w.requests[id]
    case Creating(u, kind, h) =>
      var (s, r) := CreateToken(w.store, u, kind, h, w.now, Ttl(cfg, kind));
      if r.Ok? then Set(w.(store := s), id, Created(h, ActiveOf(w.store.tokens, u, kind))) else Set(w, id, Failed)
    case Reading(h) =>
      var r := Check(w.store, h, EmailVerification, w.now);
      Set(w, id, if r.Ok? then Redeeming(h, r.value) else Failed)
    case Redeeming(h, u) =>
      if Active(w.store.tokens, h)
      then Set(Redeem(w, h, u), id, Verified(h, u))
      else Set(w, id, Failed)
    case _ => AdvanceUpdate(w, id)
  }

  predicate InFlight(r: Request) { r.Creating? || r.Reading? || r.Redeeming? || r.Loading? || r.Saving? }

  function Apply(cfg: Config, w: World, a: Action): World {
    match a
    case ArriveCreate(id, u, kind, h, to) =>
      // the random source never repeats a token; the address is any the caller has at hand
      if id in w.requests || h in w.issued || kind == MfaChallenge then w
      else
        var mailed := w.mail.(mailedTo := w.mail.mailedTo[h := to]);
        Set(w.(issued := w.issued + {h}, mail := mailed), id, Creating(u, kind, h))
    case ArriveVerify(id, h) => if id in w.requests then w else Set(w, id, Reading(h))
    case ArriveUpdate(id, u, newEmail) => if id in w.requests then w else Set(w, id, Loading(u, newEmail))
    case Run(id) => if id in w.requests then Advance(cfg, w, id) else w
    case Abort(id) => if id in w.requests && InFlight(w.requests[id]) then Set(w, id, Failed) else w
    case Make(u, email, verified) =>
      if u in w.registered || Taken(w.mail.emails, u, email) then w
      else WriteRow(w, u, email, verified, Made(u, email, verified)).(registered := w.registered + {u})
    case Delete(u) =>
      w.(store := Store(w.store.users - {u}, CascadeUser(w.store.tokens, u)),
         mail := w.mail.(emails := w.mail.emails - {u}))
    case Tick(d) => w.(now := w.now + d)
  }

  function Exec(cfg: Config, w: World, schedule: seq<Action>): World
    decreases |schedule|
  {
    if schedule == [] then w else Exec(cfg, Apply(cfg, w, schedule[0]), schedule[1..])
  }

  // ---- the invariant

  /** The request has redeemed or superseded the token. */
  predicate Uses(r: Request, h: TokenHash) {
    (r.Verified? && r.h == h) || (r.Created? && h in r.superseded)
  }

  predicate Pending(r: Request, h: TokenHash) { r.Creating? && r.h == h }

  /** A hash that can never be active again: handed out, not active, and no creation pending. */
  ghost predicate Gone(w: World, h: TokenHash) {
    h in w.issued && !Active(w.store.tokens, h) &&
    forall id :: id in w.requests ==> !Pending(w.requests[id], h)
  }

  ghost predicate RequestOk(w: World, r: Request) {
    match r
    case Creating(u, kind, h) => h in w.issued && h !in w.store.tokens
    case Redeeming(h, u) =>
      h in w.issued && (forall id :: id in w.requests ==> !Pending(w.requests[id], h)) &&
      u in w.registered && (h in w.store.tokens ==> w.store.tokens[h].userId == u)
    case Created(h, superseded) => forall k :: k in superseded ==> Gone(w, k)
    case Verified(h, u) => Gone(w, h) && u in w.registered
    case _ => true
  }

  ghost predicate AtMostOnce(w: World) {
    forall i, j, h | i in w.requests && j in w.requests && i != j ::
      Uses(w.requests[i], h) ==> !Uses(w.requests[j], h)
  }

  ghost predicate OnePending(w: World) {
    forall i, j, h | i in w.requests && j in w.requests && i != j ::
      Pending(w.requests[i], h) ==> !Pending(w.requests[j], h)
  }

  ghost predicate Inv(w: World) {
    w.store.tokens.Keys <= w.issued &&
    w.store.users.Keys <= w.registered &&
    (forall h :: h in w.store.tokens ==> w.store.tokens[h].userId in w.store.users) &&
    (forall id :: id in w.requests ==> RequestOk(w, w.requests[id])) &&
    OnePending(w) && AtMostOnce(w) && w.mail.emails.Keys == w.store.users.Keys
  }

  // ---- every step keeps it

  lemma LeavingIsFinal(cfg: Config, w: World, a: Action, h: TokenHash)
    requires Inv(w)
    ensures Active(w.store.tokens, h) && !Active(Apply(cfg, w, a).store.tokens, h) ==> Gone(Apply(cfg, w, a), h)
    ensures Gone(w, h) ==> Gone(Apply(cfg, w, a), h)
  {
  }

  /** A step of another request leaves a request in flight alone, and takes away no token that it needs. */
  lemma PeerStep(cfg: Config, w: World, j: RequestId, id: RequestId)
    requires Inv(w) && id in w.requests && j in w.requests && j != id
    requires w.requests[id].Creating? || w.requests[id].Redeeming?
    ensures RequestOk(Advance(cfg, w, j), w.requests[id])
  {
    assert RequestOk(w, w.requests[id]) && RequestOk(w, w.requests[j]);
    assert !Pending(w.requests[j], w.requests[id].h);
  }

  /** What is no step of a request leaves those in flight alone, and takes away no token that they need. */
  lemma CreatingStays(cfg: Config, w: World, a: Action, id: RequestId)
    requires Inv(w) && id in w.requests && w.requests[id].Creating? && !a.Run?
    ensures var w' := Apply(cfg, w, a); id in w'.requests && RequestOk(w', w'.requests[id])
  {
    assert RequestOk(w, w.requests[id]);
  }

  lemma RedeemingStays(cfg: Config, w: World, a: Action, id: RequestId)
    requires Inv(w) && id in w.requests && w.requests[id].Redeeming? && !a.Run?
    ensures var w' := Apply(cfg, w, a); id in w'.requests && RequestOk(w', w'.requests[id])
  {
    assert RequestOk(w, w.requests[id]);
  }

  lemma DoneStays(cfg: Config, w: World, a: Action, id: RequestId)
    requires Inv(w) && id in w.requests && (w.requests[id].Created? || w.requests[id].Verified?)
    ensures var w' := Apply(cfg, w, a);
      id in w'.requests && w'.requests[id] == w.requests[id] && w.registered <= w'.registered
  {
  }

  lemma RequestStays(cfg: Config, w: World, a: Action, id: RequestId)
    requires Inv(w) && id in Apply(cfg, w, a).requests
    ensures RequestOk(Apply(cfg, w, a), Apply(cfg, w, a).requests[id])
  {
    if id in w.requests {
      assert RequestOk(w, w.requests[id]);
      var r := w.requests[id];
      if r.Created? || r.Verified? {
        DoneStays(cfg, w, a, id);
        forall h | Gone(w, h) ensures Gone(Apply(cfg, w, a), h) { LeavingIsFinal(cfg, w, a, h); }
      } else if a == Run(id) { OwnStep(cfg, w, id); }
      else if !r.Creating? && !r.Redeeming? { OthersStepKeepsPlain(cfg, w, a, id); }
      else if a.Run? {
        if a.id in w.requests { PeerStep(cfg, w, a.id, id); }
      } else if r.Creating? { CreatingStays(cfg, w, a, id); }
      else { RedeemingStays(cfg, w, a, id); }
    } else {
      ArrivalOk(cfg, w, a, id);
    }
  }

  lemma OthersStepKeepsPlain(cfg: Config, w: World, a: Action, id: RequestId)
    requires id in w.requests && a != Run(id) && id in Apply(cfg, w, a).requests
    ensures Apply(cfg, w, a).requests[id] == w.requests[id] || Apply(cfg, w, a).requests[id] == Failed
  {
  }

  lemma ArrivalOk(cfg: Config, w: World, a: Action, id: RequestId)
    requires Inv(w) && id !in w.requests && id in Apply(cfg, w, a).requests
    ensures RequestOk(Apply(cfg, w, a), Apply(cfg, w, a).requests[id])
  {
  }

  lemma OwnStep(cfg: Config, w: World, id: RequestId)
    requires Inv(w) && id in w.requests
    ensures RequestOk(Advance(cfg, w, id), Advance(cfg, w, id).requests[id])
  {
  }

  lemma PendingStays(cfg: Config, w: World, a: Action)
    requires Inv(w)
    ensures OnePending(Apply(cfg, w, a))
  {
    var w' := Apply(cfg, w, a);
    forall i, j, h | i in w'.requests && j in w'.requests && i != j && Pending(w'.requests[i], h)
      ensures !Pending(w'.requests[j], h)
    {
      PendingBefore(cfg, w, a, i, h);
      if Pending(w'.requests[j], h) { PendingBefore(cfg, w, a, j, h); }
    }
  }

  /** A creation under way was so before the step, or has just come in with a token not handed out before. */
  lemma PendingBefore(cfg: Config, w: World, a: Action, id: RequestId, h: TokenHash)
    requires Inv(w) && id in Apply(cfg, w, a).requests && Pending(Apply(cfg, w, a).requests[id], h)
    ensures if id in w.requests then Pending(w.requests[id], h) && h in w.issued
      else a.ArriveCreate? && a.id == id && h !in w.issued
  {
    if id in w.requests { assert RequestOk(w, w.requests[id]); }
  }

  /** Whatever a step newly uses was active just before, so no other request has used it. */
  lemma NewUseWasActive(cfg: Config, w: World, a: Action, id: RequestId, h: TokenHash)
    requires Inv(w) && id in Apply(cfg, w, a).requests
    ensures Uses(Apply(cfg, w, a).requests[id], h) ==>
      (id in w.requests && Uses(w.requests[id], h)) || (a == Run(id) && Active(w.store.tokens, h))
  {
  }

  lemma UsedIsGone(w: World, id: RequestId, h: TokenHash)
    requires Inv(w) && id in w.requests && Uses(w.requests[id], h)
    ensures Gone(w, h)
  {
  }

  lemma AtMostOnceStays(cfg: Config, w: World, a: Action)
    requires Inv(w)
    ensures AtMostOnce(Apply(cfg, w, a))
  {
    var w' := Apply(cfg, w, a);
    forall i, j, h | i in w'.requests && j in w'.requests && i != j && Uses(w'.requests[i], h)
      ensures !Uses(w'.requests[j], h)
    {
      NewUseWasActive(cfg, w, a, i, h);
      NewUseWasActive(cfg, w, a, j, h);
      if i in w.requests && Uses(w.requests[i], h) { UsedIsGone(w, i, h); }
      if j in w.requests && Uses(w.requests[j], h) { UsedIsGone(w, j, h); }
    }
  }

  lemma TokensIssued(cfg: Config, w: World, a: Action)
    requires Inv(w)
    ensures Apply(cfg, w, a).store.tokens.Keys <= Apply(cfg, w, a).issued
  {
    if a.Run? && a.id in w.requests {
      assert RequestOk(w, w.requests[a.id]);
    }
  }

  lemma UsersRegistered(cfg: Config, w: World, a: Action)
    requires Inv(w)
    ensures Apply(cfg, w, a).store.users.Keys <= Apply(cfg, w, a).registered
    ensures Apply(cfg, w, a).mail.emails.Keys == Apply(cfg, w, a).store.users.Keys
  {
  }

  lemma OwnersExist(cfg: Config, w: World, a: Action)
    requires Inv(w)
    ensures var w' := Apply(cfg, w, a); forall h :: h in w'.store.tokens ==> w'.store.tokens[h].userId in w'.store.users
  {
  }

  lemma ApplyKeeps(cfg: Config, w: World, a: Action)
    requires Inv(w)
    ensures Inv(Apply(cfg, w, a))
  {
    var w' := Apply(cfg, w, a);
    TokensIssued(cfg, w, a);
    UsersRegistered(cfg, w, a);
    OwnersExist(cfg, w, a);
    forall id | id in w'.requests ensures RequestOk(w', w'.requests[id]) { RequestStays(cfg, w, a, id); }
    PendingStays(cfg, w, a);
    AtMostOnceStays(cfg, w, a);
  }

  lemma {:induction false} ExecKeeps(cfg: Config, w: World, schedule: seq<Action>)
    requires Inv(w)
    ensures Inv(Exec(cfg, w, schedule))
    decreases |schedule|
  {
    if schedule != [] {
      ApplyKeeps(cfg, w, schedule[0]);
      ExecKeeps(cfg, Apply(cfg, w, schedule[0]), schedule[1..]);
    }
  }

  /** In every interleaving at most one of all requests has redeemed or superseded a given token. */
  lemma UsedAtMostOnce(cfg: Config, schedule: seq<Action>)
    ensures AtMostOnce(Exec(cfg, START, schedule))
  {
    ExecKeeps(cfg, START, schedule);
  }

  /** The step that turns a request into a success is the one that consumes the token and verifies the user. */
  lemma SuccessIsOneStep(cfg: Config, w: World, a: Action, id: RequestId)
    requires Inv(w)
    requires id in Apply(cfg, w, a).requests && Apply(cfg, w, a).requests[id].Verified?
    requires id !in w.requests || !w.requests[id].Verified?
    ensures var Verified(h, u) := Apply(cfg, w, a).requests[id]; var w' := Apply(cfg, w, a);
      Active(w.store.tokens, h) && !Active(w'.store.tokens, h) && w.store.tokens[h].userId == u &&
      u in w'.store.users && w'.store.users[u]
  {
  }

  /** The step that makes a creation succeed supersedes the user's active tokens of that kind, all but its own. */
  lemma CreationIsOneStep(cfg: Config, w: World, id: RequestId)
    requires id in w.requests && w.requests[id].Creating? && Apply(cfg, w, Run(id)).requests[id].Created?
    ensures var Creating(u, kind, h) := w.requests[id];
      var w' := Apply(cfg, w, Run(id));
      w'.requests[id].h == h && u in w.store.users && h !in w.store.tokens && w'.store.users == w.store.users &&
      (forall k :: k in w'.requests[id].superseded <==>
        Active(w.store.tokens, k) && w.store.tokens[k].userId == u && w.store.tokens[k].kind == kind) &&
      (forall k | k in w.store.tokens :: k in w'.store.tokens && (k !in w'.requests[id].superseded ==>
        w'.store.tokens[k] == w.store.tokens[k])) &&
      ActiveOf(w'.store.tokens, u, kind) == {h} && w'.store.tokens[h].expiresAt == w.now + Ttl(cfg, kind)
  {
  }

  /** How often a token leaves the active state along a schedule, for whatever reason. */
  function Leaves(cfg: Config, w: World, schedule: seq<Action>, h: TokenHash): nat
    decreases |schedule|
  {
    if schedule == [] then 0
    else
      var w' := Apply(cfg, w, schedule[0]);
      (if Active(w.store.tokens, h) && !Active(w'.store.tokens, h) then 1 else 0) + Leaves(cfg, w', schedule[1..], h)
  }

  lemma {:induction false} LeavesOnce(cfg: Config, w: World, schedule: seq<Action>, h: TokenHash)
    requires Inv(w)
    ensures Leaves(cfg, w, schedule, h) <= if Gone(w, h) then 0 else 1
    decreases |schedule|
  {
    if schedule != [] {
      ApplyKeeps(cfg, w, schedule[0]);
      LeavingIsFinal(cfg, w, schedule[0], h);
      LeavesOnce(cfg, Apply(cfg, w, schedule[0]), schedule[1..], h);
    }
  }

  /** In every interleaving a token leaves the unconsumed state at most once. */
  lemma TokenLeavesAtMostOnce(cfg: Config, schedule: seq<Action>, h: TokenHash)
    ensures Leaves(cfg, START, schedule, h) <= 1
  {
    LeavesOnce(cfg, START, schedule, h);
  }

  // ---- one request alone

  lemma TwoSteps(cfg: Config, w: World, a: Action, id: RequestId)
    ensures Exec(cfg, w, [a, Run(id), Run(id)]) == Apply(cfg, Apply(cfg, Apply(cfg, w, a), Run(id)), Run(id))
  {
    var schedule := [a, Run(id), Run(id)];
    assert schedule[1..] == [Run(id), Run(id)] && schedule[1..][1..] == [Run(id)] && schedule[1..][1..][1..] == [];
    var w1 := Apply(cfg, w, a);
    var w2 := Apply(cfg, w1, Run(id));
    assert Exec(cfg, w2, [Run(id)]) == Exec(cfg, Apply(cfg, w2, Run(id)), []);
    assert Exec(cfg, w1, [Run(id), Run(id)]) == Exec(cfg, w2, [Run(id)]);
  }

  /**
   * Run without interference, a profile update is saved exactly if the account exists and no other has the address it
   * will have. A new spelling becomes its address, and clears the flag; otherwise both stay as they were.
   */
  lemma SoloUpdate(cfg: Config, w: World, id: RequestId, u: UserId, newEmail: Option<Email>)
    requires id !in w.requests && u in w.mail.emails && u in w.store.users
    ensures var w' := Exec(cfg, w, [ArriveUpdate(id, u, newEmail), Run(id), Run(id)]);
      var was := w.mail.emails[u];
      var changes := newEmail.Some? && newEmail.value.spelling != "" && newEmail.value.spelling != was.spelling;
      var email := if changes then newEmail.value else was;
      var free := forall v | v in w.mail.emails && v != u :: w.mail.emails[v].folded != email.folded;
      id in w'.requests && w'.store.tokens == w.store.tokens &&
      w'.requests[id] == (if free then Saved(u) else Failed) &&
      w'.mail.emails == (if free then w.mail.emails[u := email] else w.mail.emails) &&
      w'.store.users == (if free then w.store.users[u := w.store.users[u] && !changes] else w.store.users)
  {
    TwoSteps(cfg, w, ArriveUpdate(id, u, newEmail), id);
  }

  /** A profile update is refused as soon as it has read: for a missing account, or an address that another has. */
  lemma UpdateReads(cfg: Config, w: World, id: RequestId)
    requires id in w.requests && w.requests[id].Loading?
    ensures var Loading(u, newEmail) := w.requests[id];
      var w' := Apply(cfg, w, Run(id));
      var changes := u in w.mail.emails && newEmail.Some? && newEmail.value.spelling != "" &&
        newEmail.value.spelling != w.mail.emails[u].spelling;
      (w'.requests[id] == Failed <==>
        u !in w.mail.emails || u !in w.store.users ||
        (changes && exists v | v in w.mail.emails && v != u :: w.mail.emails[v].folded == newEmail.value.folded)) &&
      w'.store == w.store && w'.mail == w.mail
  {
  }

  /** Run without interference, a verifying request does exactly what the service method does. */
  lemma SoloVerify(cfg: Config, w: World, id: RequestId, h: TokenHash)
    requires id !in w.requests
    ensures var w' := Exec(cfg, w, [ArriveVerify(id, h), Run(id), Run(id)]);
      var (s, r) := VerifyEmail(w.store, h, w.now);
      w'.store == s && id in w'.requests && w'.requests[id] == if r.Ok? then Verified(h, r.value) else Failed
  {
    TwoSteps(cfg, w, ArriveVerify(id, h), id);
  }
}
