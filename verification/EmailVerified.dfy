/**
 * What email_verified says. The two columns are those the log of writes calls for, lost updates included; the
 * flag speaks of the user's current address exactly as long as no token is redeemed that was mailed to another
 * one; and a redemption stays in force exactly until a profile update writes over it.
 */
module EmailVerified {
  import opened Prelude
  import opened TokenTable
  import opened VerificationService
  import opened EmailProtocol

  /** What a set flag rests on: the identity provider's word for an address, or a redeemed token. */
  datatype Proof = ByProvider(email: Email) | ByToken(h: TokenHash)

  datatype Row = Row(email: Email, proof: Option<Proof>)

  /** The row the log gives a user. A row written back is the one that was there when it was read. */
  function RowOf(log: seq<Event>, u: UserId): Option<Row>
    decreases |log|
  {
    if log == [] then None
    else
      var last, before := log[|log| - 1], RowOf(log[..|log| - 1], u);
      if last.user != u then before
      else
        match last
        case Made(_, email, verified) => Some(Row(email, if verified then Some(ByProvider(email)) else None))
        case Redeemed(_, h) => if before.Some? then Some(before.value.(proof := Some(ByToken(h)))) else None
        case Changed(_, email) => Some(Row(email, None))
        case WrittenBack(_, readAt) => if readAt < |log| then RowOf(log[..readAt], u) else before
  }

  ghost predicate RowAgrees(row: Option<Row>, email: Email, verified: bool) {
    row.Some? && row.value.email == email && row.value.proof.Some? == verified
  }

  ghost predicate SnapshotAgrees(w: World, r: Request) {
    r.Saving? ==>
      if r.changes then !r.verified
      else r.readAt <= |w.mail.log| && RowAgrees(RowOf(w.mail.log[..r.readAt], r.user), r.email, r.verified)
  }

  ghost predicate Follows(w: World) {
    (forall u | u in w.store.users ::
      u in w.mail.emails && RowAgrees(RowOf(w.mail.log, u), w.mail.emails[u], w.store.users[u])) &&
    (forall id | id in w.requests :: SnapshotAgrees(w, w.requests[id]))
  }

  lemma OneMore(log: seq<Event>, e: Event, u: UserId)
    ensures (log + [e])[..|log|] == log
    ensures e.user != u ==> RowOf(log + [e], u) == RowOf(log, u)
    ensures forall k | 0 <= k <= |log| :: (log + [e])[..k] == log[..k]
  {
  }

  /** A step appends at most one write. */
  lemma LogGrows(cfg: Config, w: World, a: Action)
    ensures var w' := Apply(cfg, w, a); w'.mail.log == w.mail.log || exists e :: w'.mail.log == w.mail.log + [e]
  {
  }

  lemma WrittenRow(w: World, u: UserId, email: Email, verified: bool, e: Event)
    requires Inv(w) && Follows(w) && e.user == u
    requires RowAgrees(RowOf(w.mail.log + [e], u), email, verified)
    ensures Follows(WriteRow(w, u, email, verified, e))
  {
    var w' := WriteRow(w, u, email, verified, e);
    forall v | v in w'.store.users ensures RowAgrees(RowOf(w'.mail.log, v), w'.mail.emails[v], w'.store.users[v]) {
      OneMore(w.mail.log, e, v);
    }
    forall id | id in w'.requests ensures SnapshotAgrees(w', w'.requests[id]) {
      assert SnapshotAgrees(w, w.requests[id]);
      OneMore(w.mail.log, e, u);
    }
  }

  /** A request that holds no snapshot may become anything else that holds none. */
  lemma SetFollows(w: World, id: RequestId, r: Request)
    requires Follows(w) && SnapshotAgrees(w, r)
    ensures Follows(Set(w, id, r))
  {
    forall j | j in Set(w, id, r).requests ensures SnapshotAgrees(Set(w, id, r), Set(w, id, r).requests[j]) {
      if j != id { assert SnapshotAgrees(w, w.requests[j]); }
    }
  }

  lemma SaveFollows(w: World, id: RequestId)
    requires Inv(w) && Follows(w) && id in w.requests && w.requests[id].Saving?
    ensures Follows(AdvanceUpdate(w, id))
  {
    var r := w.requests[id];
    assert SnapshotAgrees(w, r);
    if r.user in w.store.users && !Taken(w.mail.emails, r.user, r.email) {
      var e := if r.changes then Changed(r.user, r.email) else WrittenBack(r.user, r.readAt);
      OneMore(w.mail.log, e, r.user);
      WrittenRow(w, r.user, r.email, r.verified, e);
      SetFollows(WriteRow(w, r.user, r.email, r.verified, e), id, Saved(r.user));
    } else {
      SetFollows(w, id, Failed);
    }
  }

  lemma LoadFollows(w: World, id: RequestId)
    requires Inv(w) && Follows(w) && id in w.requests && w.requests[id].Loading?
    ensures Follows(AdvanceUpdate(w, id))
  {
    var u := w.requests[id].user;
    assert w.mail.log[..|w.mail.log|] == w.mail.log;
    SetFollows(w, id, AdvanceUpdate(w, id).requests[id]);
  }

  lemma RedeemFollows(cfg: Config, w: World, id: RequestId)
    requires Inv(w) && Follows(w) && id in w.requests && w.requests[id].Redeeming?
    requires Active(w.store.tokens, w.requests[id].h)
    ensures Follows(Advance(cfg, w, id))
  {
    var r := w.requests[id];
    assert EmailProtocol.RequestOk(w, r);
    var e := Redeemed(r.user, r.h);
    OneMore(w.mail.log, e, r.user);
    WrittenRow(w, r.user, w.mail.emails[r.user], true, e);
    var written := WriteRow(w, r.user, w.mail.emails[r.user], true, e);
    SetFollows(written, id, Verified(r.h, r.user));
    var w', done := Advance(cfg, w, id), Set(written, id, Verified(r.h, r.user));
    assert w'.store.users == done.store.users && w'.mail.emails == done.mail.emails;
    forall j | j in w'.requests ensures SnapshotAgrees(w', w'.requests[j]) {
      assert SnapshotAgrees(done, done.requests[j]);
    }
  }

  /** Steps that write neither column. */
  lemma OtherFollows(w: World, w': World)
    requires Follows(w) && w'.mail.log == w.mail.log
    requires forall u | u in w'.store.users ::
      u in w.store.users && u in w'.mail.emails &&
      w'.store.users[u] == w.store.users[u] && w'.mail.emails[u] == w.mail.emails[u]
    requires forall id | id in w'.requests ::
      (id in w.requests && w'.requests[id] == w.requests[id]) || !w'.requests[id].Saving?
    ensures Follows(w')
  {
    forall id | id in w'.requests ensures SnapshotAgrees(w', w'.requests[id]) {
      if id in w.requests { assert SnapshotAgrees(w, w.requests[id]); }
    }
  }

  lemma RunFollows(cfg: Config, w: World, id: RequestId)
    requires Inv(w) && Follows(w) && id in w.requests
    ensures Follows(Advance(cfg, w, id))
  {
    var r := w.requests[id];
    if r.Loading? { LoadFollows(w, id); }
    else if r.Saving? { SaveFollows(w, id); }
    else if r.Redeeming? && Active(w.store.tokens, r.h) { RedeemFollows(cfg, w, id); }
    else { OtherFollows(w, Advance(cfg, w, id)); }
  }

  lemma MakeFollows(w: World, u: UserId, email: Email, verified: bool)
    requires Inv(w) && Follows(w)
    ensures Follows(WriteRow(w, u, email, verified, Made(u, email, verified)).(registered := w.registered + {u}))
  {
    var e := Made(u, email, verified);
    OneMore(w.mail.log, e, u);
    WrittenRow(w, u, email, verified, e);
    var written := WriteRow(w, u, email, verified, e);
    OtherFollows(written, written.(registered := w.registered + {u}));
  }

  lemma ApplyFollows(cfg: Config, w: World, a: Action)
    requires Inv(w) && Follows(w)
    ensures Follows(Apply(cfg, w, a))
  {
    if a.Run? {
      if a.id in w.requests { RunFollows(cfg, w, a.id); }
    } else if a.Make? {
      MakeFollows(w, a.user, a.email, a.verified);
    } else {
      OtherFollows(w, Apply(cfg, w, a));
    }
  }

  lemma {:induction false} ExecFollows(cfg: Config, w: World, schedule: seq<Action>)
    requires Inv(w) && Follows(w)
    ensures Follows(Exec(cfg, w, schedule))
    decreases |schedule|
  {
    if schedule != [] {
      ApplyFollows(cfg, w, schedule[0]);
      ApplyKeeps(cfg, w, schedule[0]);
      ExecFollows(cfg, Apply(cfg, w, schedule[0]), schedule[1..]);
    }
  }

  /**
   * In every interleaving each account's email and email_verified are those its history of writes gives: set by
   * the provider or by the latest redeemed token, cleared by a change of address, and put back to what they were
   * when a profile update had read them.
   */
  lemma FlagFollowsHistory(cfg: Config, schedule: seq<Action>, u: UserId)
    requires u in Exec(cfg, START, schedule).store.users
    ensures var w := Exec(cfg, START, schedule);
      var row := RowOf(w.mail.log, u);
      row.Some? && u in w.mail.emails && w.mail.emails[u] == row.value.email &&
      (w.store.users[u] <==> row.value.proof.Some?)
  {
    ExecKeeps(cfg, START, schedule);
    ExecFollows(cfg, START, schedule);
  }

  // ---- does the flag speak of the current address?

  function Address(w: World, p: Proof): Option<Email> {
    match p
    case ByProvider(email) => Some(email)
    case ByToken(h) => if h in w.mail.mailedTo then Some(w.mail.mailedTo[h]) else None
  }

  /** The proof behind the flag, if any, is about the address in the row. */
  ghost predicate Genuine(w: World, row: Option<Row>) {
    row.Some? && row.value.proof.Some? ==>
      var address := Address(w, row.value.proof.value);
      address.Some? && address.value.folded == row.value.email.folded
  }

  /** Whatever account is marked verified, it is its current address that was. */
  ghost predicate FlagsGenuine(w: World) {
    forall u | u in w.store.users && w.store.users[u] :: Genuine(w, RowOf(w.mail.log, u))
  }

  /** The step redeems a token that was mailed to an address other than the one its user has now. */
  predicate StaleRedemption(w: World, a: Action) {
    a.Run? && a.id in w.requests && w.requests[a.id].Redeeming? &&
    var r := w.requests[a.id];
    Active(w.store.tokens, r.h) && r.h in w.mail.mailedTo && r.user in w.mail.emails &&
    w.mail.mailedTo[r.h].folded != w.mail.emails[r.user].folded
  }

  /** Flags are genuine in every state of the run. */
  ghost predicate AlwaysGenuine(cfg: Config, w: World, schedule: seq<Action>)
    decreases |schedule|
  {
    FlagsGenuine(w) && (schedule != [] ==> AlwaysGenuine(cfg, Apply(cfg, w, schedule[0]), schedule[1..]))
  }

  predicate NeverStale(cfg: Config, w: World, schedule: seq<Action>)
    decreases |schedule|
  {
    schedule != [] ==> !StaleRedemption(w, schedule[0]) && NeverStale(cfg, Apply(cfg, w, schedule[0]), schedule[1..])
  }

  /** Every row there ever was is genuine, and all mail is on record. */
  ghost predicate PastGenuine(w: World) {
    (forall k, u | 0 <= k <= |w.mail.log| :: Genuine(w, RowOf(w.mail.log[..k], u))) && w.mail.mailedTo.Keys == w.issued
  }

  lemma MailStays(cfg: Config, w: World, a: Action)
    requires w.mail.mailedTo.Keys == w.issued
    ensures var w' := Apply(cfg, w, a);
      w'.mail.mailedTo.Keys == w'.issued &&
      forall h | h in w.mail.mailedTo :: h in w'.mail.mailedTo && w'.mail.mailedTo[h] == w.mail.mailedTo[h]
  {
  }

  lemma GenuineStays(w: World, w': World, row: Option<Row>)
    requires forall h | h in w.mail.mailedTo :: h in w'.mail.mailedTo && w'.mail.mailedTo[h] == w.mail.mailedTo[h]
    requires Genuine(w, row)
    ensures Genuine(w', row)
  {
  }

  /** The one write of a step is genuine unless the step is a stale redemption. */
  lemma WriteGenuine(cfg: Config, w: World, a: Action, e: Event, u: UserId)
    requires Inv(w) && Follows(w) && PastGenuine(w) && !StaleRedemption(w, a)
    requires Apply(cfg, w, a).mail.log == w.mail.log + [e]
    ensures Genuine(w, RowOf(w.mail.log + [e], u))
  {
    OneMore(w.mail.log, e, u);
    assert w.mail.log[..|w.mail.log|] == w.mail.log;
    assert Genuine(w, RowOf(w.mail.log[..|w.mail.log|], u));
    if e.user == u && e.Redeemed? {
      assert EmailProtocol.RequestOk(w, w.requests[a.id]);
    }
    if e.user == u && e.WrittenBack? && e.readAt <= |w.mail.log| {
      assert (w.mail.log + [e])[..e.readAt] == w.mail.log[..e.readAt];
      assert Genuine(w, RowOf(w.mail.log[..e.readAt], u));
    }
  }

  lemma PastStaysGenuine(cfg: Config, w: World, a: Action)
    requires Inv(w) && Follows(w) && PastGenuine(w) && !StaleRedemption(w, a)
    ensures PastGenuine(Apply(cfg, w, a))
  {
    var w' := Apply(cfg, w, a);
    MailStays(cfg, w, a);
    LogGrows(cfg, w, a);
    forall k, u | 0 <= k <= |w'.mail.log| ensures Genuine(w', RowOf(w'.mail.log[..k], u)) {
      if k <= |w.mail.log| {
        assert w'.mail.log[..k] == w.mail.log[..k];
        GenuineStays(w, w', RowOf(w.mail.log[..k], u));
      } else {
        var e := w'.mail.log[|w.mail.log|];
        assert w'.mail.log == w.mail.log + [e] && w'.mail.log[..k] == w'.mail.log;
        WriteGenuine(cfg, w, a, e, u);
        GenuineStays(w, w', RowOf(w'.mail.log, u));
      }
    }
  }

  lemma StaleIsNotGenuine(cfg: Config, w: World, a: Action)
    requires Inv(w) && Follows(w) && StaleRedemption(w, a)
    ensures !FlagsGenuine(Apply(cfg, w, a))
  {
    var w', r := Apply(cfg, w, a), w.requests[a.id];
    assert EmailProtocol.RequestOk(w, r);
    assert r.user in w.store.users && w'.store.users[r.user] && w'.mail.mailedTo == w.mail.mailedTo;
    OneMore(w.mail.log, Redeemed(r.user, r.h), r.user);
    assert !Genuine(w', RowOf(w'.mail.log, r.user));
  }

  lemma {:induction false} GenuineIff(cfg: Config, w: World, schedule: seq<Action>)
    requires Inv(w) && Follows(w) && PastGenuine(w)
    ensures AlwaysGenuine(cfg, w, schedule) <==> NeverStale(cfg, w, schedule)
    decreases |schedule|
  {
    assert w.mail.log[..|w.mail.log|] == w.mail.log;
    assert FlagsGenuine(w);
    if schedule != [] {
      var a := schedule[0];
      ApplyKeeps(cfg, w, a);
      ApplyFollows(cfg, w, a);
      if StaleRedemption(w, a) {
        StaleIsNotGenuine(cfg, w, a);
      } else {
        PastStaysGenuine(cfg, w, a);
        GenuineIff(cfg, Apply(cfg, w, a), schedule[1..]);
      }
    }
  }

  /**
   * Exactly when email_verified can be trusted: in every run it speaks of each account's current address in every
   * state if and only if no step redeems a token that was mailed to an address the account no longer has.
   */
  lemma GenuineExactlyWhen(cfg: Config, schedule: seq<Action>)
    ensures AlwaysGenuine(cfg, START, schedule) <==> NeverStale(cfg, START, schedule)
  {
    GenuineIff(cfg, START, schedule);
  }

  // ---- does a redemption stay in force?

  /** The step writes the row of u that a profile update holds. */
  predicate SavesRow(w: World, a: Action, u: UserId) {
    a.Run? && a.id in w.requests && w.requests[a.id].Saving? && w.requests[a.id].user == u &&
    !Taken(w.mail.emails, u, w.requests[a.id].email)
  }

  /**
   * In every reachable state the only step that clears the flag of an account and keeps the account is that of a
   * profile update that is not refused and holds the flag cleared.
   */
  lemma ClearedExactlyBy(cfg: Config, before: seq<Action>, a: Action, u: UserId)
    requires var w := Exec(cfg, START, before);
      u in w.store.users && w.store.users[u] && u in Apply(cfg, w, a).store.users
    ensures var w := Exec(cfg, START, before);
      !Apply(cfg, w, a).store.users[u] <==> SavesRow(w, a, u) && !w.requests[a.id].verified
  {
    ExecKeeps(cfg, START, before);
    StepClears(cfg, Exec(cfg, START, before), a, u);
  }

  lemma StepClears(cfg: Config, w: World, a: Action, u: UserId)
    requires Inv(w) && u in w.store.users && w.store.users[u] && u in Apply(cfg, w, a).store.users
    ensures !Apply(cfg, w, a).store.users[u] <==> SavesRow(w, a, u) && !w.requests[a.id].verified
  {
  }

  /** A profile update that changes no address and, at that state, has read the row while its flag was not set. */
  predicate HoldsUnverified(done: World, id: RequestId) {
    id in done.requests && done.requests[id].Saving? && !done.requests[id].changes && !done.requests[id].verified
  }

  /** The step saves a new address, or a row read before the redemption that left the state done. */
  predicate Undoes(done: World, w: World, a: Action, u: UserId) {
    SavesRow(w, a, u) && (w.requests[a.id].changes || HoldsUnverified(done, a.id))
  }

  predicate NeverUndone(cfg: Config, done: World, w: World, schedule: seq<Action>, u: UserId)
    decreases |schedule|
  {
    schedule != [] ==>
      !Undoes(done, w, schedule[0], u) && NeverUndone(cfg, done, Apply(cfg, w, schedule[0]), schedule[1..], u)
  }

  /** The account exists in every state of the run. */
  predicate Kept(cfg: Config, w: World, schedule: seq<Action>, u: UserId)
    decreases |schedule|
  {
    u in w.store.users && (schedule != [] ==> Kept(cfg, Apply(cfg, w, schedule[0]), schedule[1..], u))
  }

  /** The flag is set in every state of the run. */
  predicate StaysVerified(cfg: Config, w: World, schedule: seq<Action>, u: UserId)
    decreases |schedule|
  {
    u in w.store.users && w.store.users[u] &&
    (schedule != [] ==> StaysVerified(cfg, Apply(cfg, w, schedule[0]), schedule[1..], u))
  }

  /** What updates of u hold while its flag has been set since done: the flag set, unless they read the row before. */
  ghost predicate HeldSince(done: World, w: World, u: UserId) {
    (forall id | id in w.requests && w.requests[id].Saving? && w.requests[id].user == u ::
      w.requests[id].verified <==> !(w.requests[id].changes || HoldsUnverified(done, id))) &&
    forall id | HoldsUnverified(done, id) :: id in w.requests && !w.requests[id].Loading?
  }

  lemma StillHeld(cfg: Config, done: World, w: World, a: Action, u: UserId)
    requires Inv(w) && HeldSince(done, w, u) && u in w.store.users && w.store.users[u]
    ensures HeldSince(done, Apply(cfg, w, a), u)
  {
    var w' := Apply(cfg, w, a);
    forall id | id in w'.requests && w'.requests[id].Saving? && w'.requests[id].user == u
      ensures w'.requests[id].verified <==> !(w'.requests[id].changes || HoldsUnverified(done, id))
    {
      if id in w.requests && w.requests[id].Saving? { SavingStays(cfg, w, a, id); }
      else { NewlySaving(cfg, w, a, id); }
    }
    forall id | HoldsUnverified(done, id) ensures id in w'.requests && !w'.requests[id].Loading? {
      NeverLoadsAgain(cfg, w, a, id);
    }
  }

  lemma SavingStays(cfg: Config, w: World, a: Action, id: RequestId)
    requires id in w.requests && id in Apply(cfg, w, a).requests
    requires w.requests[id].Saving? && Apply(cfg, w, a).requests[id].Saving?
    ensures Apply(cfg, w, a).requests[id] == w.requests[id]
  {
  }

  /** An update that has just read the row. */
  lemma NewlySaving(cfg: Config, w: World, a: Action, id: RequestId)
    requires id in Apply(cfg, w, a).requests && Apply(cfg, w, a).requests[id].Saving?
    requires id !in w.requests || !w.requests[id].Saving?
    ensures var r := Apply(cfg, w, a).requests[id];
      id in w.requests && w.requests[id].Loading? && w.requests[id].user == r.user && r.user in w.store.users &&
      (if r.changes then !r.verified else r.verified == w.store.users[r.user])
  {
  }

  lemma NeverLoadsAgain(cfg: Config, w: World, a: Action, id: RequestId)
    requires id in w.requests && !w.requests[id].Loading?
    ensures id in Apply(cfg, w, a).requests && !Apply(cfg, w, a).requests[id].Loading?
  {
  }

  lemma {:induction false} StaysIff(cfg: Config, done: World, w: World, schedule: seq<Action>, u: UserId)
    requires Inv(w) && HeldSince(done, w, u) && Kept(cfg, w, schedule, u) && w.store.users[u]
    ensures StaysVerified(cfg, w, schedule, u) <==> NeverUndone(cfg, done, w, schedule, u)
    decreases |schedule|
  {
    if schedule != [] {
      var w' := Apply(cfg, w, schedule[0]);
      StepClears(cfg, w, schedule[0], u);
      if w'.store.users[u] {
        ApplyKeeps(cfg, w, schedule[0]);
        StillHeld(cfg, done, w, schedule[0], u);
        StaysIff(cfg, done, w', schedule[1..], u);
      }
    }
  }

  /**
   * Exactly when a redemption stays in force: in every continuation that keeps the account its flag is set in every
   * state, if and only if no profile update is saved that changes the address or that had read the row, not yet
   * verified, before the redemption.
   */
  lemma RedemptionStaysIff(cfg: Config, before: seq<Action>, id: RequestId, after: seq<Action>)
    requires var w := Exec(cfg, START, before);
      id in w.requests && w.requests[id].Redeeming? && Active(w.store.tokens, w.requests[id].h) &&
      Kept(cfg, Apply(cfg, w, Run(id)), after, w.requests[id].user)
    ensures var w := Exec(cfg, START, before);
      var u, done := w.requests[id].user, Apply(cfg, w, Run(id));
      StaysVerified(cfg, done, after, u) <==> NeverUndone(cfg, done, done, after, u)
  {
    ExecKeeps(cfg, START, before);
    ExecFollows(cfg, START, before);
    var w := Exec(cfg, START, before);
    var u, done := w.requests[id].user, Apply(cfg, w, Run(id));
    ApplyKeeps(cfg, w, Run(id));
    ApplyFollows(cfg, w, Run(id));
    assert EmailProtocol.RequestOk(w, w.requests[id]);
    forall j | j in done.requests && done.requests[j].Saving? && done.requests[j].user == u
      ensures done.requests[j].verified <==> !(done.requests[j].changes || HoldsUnverified(done, j))
    {
      assert SnapshotAgrees(done, done.requests[j]);
    }
    StaysIff(cfg, done, done, after, u);
  }

  /** To a profile update another letter case is another address: the account is no longer verified. */
  lemma RespellingUnverifies(cfg: Config, w: World, id: RequestId)
    requires id in w.requests && w.requests[id].Loading? && w.requests[id].newEmail.Some?
    requires var u, e := w.requests[id].user, w.requests[id].newEmail.value;
      u in w.store.users && u in w.mail.emails && !Taken(w.mail.emails, u, e) && e.spelling != "" &&
      e.folded == w.mail.emails[u].folded && e.spelling != w.mail.emails[u].spelling
    ensures var u, w' := w.requests[id].user, Apply(cfg, Apply(cfg, w, Run(id)), Run(id));
      u in w'.store.users && !w'.store.users[u] && u in w'.mail.emails &&
      w'.mail.emails[u].folded == w.mail.emails[u].folded
  {
  }

  // ---- inputs that show what is not promised

  lemma {:induction false} OneMoreStep(cfg: Config, w: World, schedule: seq<Action>, a: Action)
    ensures Exec(cfg, w, schedule + [a]) == Apply(cfg, Exec(cfg, w, schedule), a)
    decreases |schedule|
  {
    if schedule == [] {
      assert [a][1..] == [] && schedule + [a] == [a];
    } else {
      assert (schedule + [a])[1..] == schedule[1..] + [a];
      OneMoreStep(cfg, Apply(cfg, w, schedule[0]), schedule[1..], a);
    }
  }

  ghost predicate Reachable(cfg: Config, w: World) {
    exists schedule :: Exec(cfg, START, schedule) == w
  }

  lemma StepReachable(cfg: Config, w: World, a: Action)
    requires Reachable(cfg, w)
    ensures Reachable(cfg, Apply(cfg, w, a))
  {
    var schedule :| Exec(cfg, START, schedule) == w;
    OneMoreStep(cfg, START, schedule, a);
  }

  lemma StartReachable(cfg: Config)
    ensures Reachable(cfg, START)
  {
    assert Exec(cfg, START, []) == START;
  }

  function ThreeSteps(cfg: Config, w: World, a: Action, b: Action, c: Action): World {
    Apply(cfg, Apply(cfg, Apply(cfg, w, a), b), c)
  }

  lemma ThreeStepsReachable(cfg: Config, w: World, a: Action, b: Action, c: Action)
    requires Reachable(cfg, w)
    ensures Reachable(cfg, ThreeSteps(cfg, w, a, b, c))
  {
    StepReachable(cfg, w, a);
    StepReachable(cfg, Apply(cfg, w, a), b);
    StepReachable(cfg, Apply(cfg, Apply(cfg, w, a), b), c);
  }

  const A := Email("a", "a")
  const B := Email("b", "b")

  /** A new account has been mailed token 5 at its first address. */
  function Mailed(cfg: Config): World {
    World(Store(map[0 := false], map[5 := Token(0, EmailVerification, cfg.emailTtl, None)]),
          Mail(map[0 := A], map[5 := A], [Made(0, A, false)]), 0, map[1 := Created(5, {})], {5}, {0})
  }

  lemma ReachMailed(cfg: Config)
    ensures ThreeSteps(cfg, START, Make(0, A, false), ArriveCreate(1, 0, EmailVerification, 5, A), Run(1)) ==
      Mailed(cfg)
  {
    var w1 := Apply(cfg, START, Make(0, A, false));
    var w2 := Apply(cfg, w1, ArriveCreate(1, 0, EmailVerification, 5, A));
    assert ActiveOf(w2.store.tokens, 0, EmailVerification) == {};
    assert RevokeActive(w2.store.tokens, 0, EmailVerification, 0) == map[];
  }

  lemma UpdateAfterMail(cfg: Config, newEmail: Option<Email>)
    requires newEmail == None || newEmail == Some(B)
    ensures var w := Mailed(cfg);
      Apply(cfg, Apply(cfg, w, ArriveUpdate(2, 0, newEmail)), Run(2)) ==
      Set(w, 2, if newEmail.Some? then Saving(0, B, false, true, 1) else Saving(0, A, false, false, 1))
  {
    var w := Mailed(cfg);
    assert w.requests[2 := Loading(0, newEmail)][2 := Saving(0, A, false, false, 1)] ==
      w.requests[2 := Saving(0, A, false, false, 1)];
    assert w.requests[2 := Loading(0, newEmail)][2 := Saving(0, B, false, true, 1)] ==
      w.requests[2 := Saving(0, B, false, true, 1)];
  }

  /** Redeeming token 5 in a state that still has it. */
  lemma RedeemFive(cfg: Config, w: World)
    requires cfg.emailTtl > 0 && w.now == 0 && 3 !in w.requests && 0 in w.store.users
    requires 5 in w.store.tokens && w.store.tokens[5] == Token(0, EmailVerification, cfg.emailTtl, None)
    ensures var w' := ThreeSteps(cfg, w, ArriveVerify(3, 5), Run(3), Run(3));
      w'.requests == w.requests[3 := Verified(5, 0)] && w'.store.users == w.store.users[0 := true] &&
      w'.mail.emails == w.mail.emails && w'.mail.mailedTo == w.mail.mailedTo &&
      w'.mail.log == w.mail.log + [Redeemed(0, 5)]
  {
    var w1 := Apply(cfg, w, ArriveVerify(3, 5));
    var w2 := Apply(cfg, w1, Run(3));
    assert w2.requests[3] == Redeeming(5, 0);
    var w3 := Apply(cfg, w2, Run(3));
    assert w.requests[3 := Reading(5)][3 := Redeeming(5, 0)][3 := Verified(5, 0)] == w.requests[3 := Verified(5, 0)];
  }

  /**
   * An account with address A is mailed token 5, changes to B, and redeems the token before the new one is created:
   * B is marked verified, on the word of mail sent to A.
   */
  lemma OldTokenVerifiesNewAddress(cfg: Config) returns (w: World)
    requires cfg.emailTtl > 0
    ensures Reachable(cfg, w) && 0 in w.store.users && w.store.users[0] && 0 in w.mail.emails && w.mail.emails[0] == B
    ensures RowOf(w.mail.log, 0) == Some(Row(B, Some(ByToken(5)))) && Address(w, ByToken(5)) == Some(A)
  {
    var moved := Moved(cfg);
    RedeemFive(cfg, moved);
    ThreeStepsReachable(cfg, moved, ArriveVerify(3, 5), Run(3), Run(3));
    w := ThreeSteps(cfg, moved, ArriveVerify(3, 5), Run(3), Run(3));
    OneMore(moved.mail.log, Redeemed(0, 5), 0);
  }

  lemma MailedReachable(cfg: Config)
    ensures Reachable(cfg, Mailed(cfg))
  {
    StartReachable(cfg);
    ThreeStepsReachable(cfg, START, Make(0, A, false), ArriveCreate(1, 0, EmailVerification, 5, A), Run(1));
    ReachMailed(cfg);
  }

  lemma SaveWrites(cfg: Config, w: World, email: Email, changes: bool)
    requires w.mail.emails == map[0 := A] && 0 in w.store.users && 2 in w.requests
    requires w.requests[2] == Saving(0, email, false, changes, 1)
    ensures var w' := Apply(cfg, w, Run(2));
      w'.requests == w.requests[2 := Saved(0)] && w'.now == w.now &&
      w'.store == w.store.(users := w.store.users[0 := false]) &&
      w'.mail == Mail(map[0 := email], w.mail.mailedTo,
        w.mail.log + [if changes then Changed(0, email) else WrittenBack(0, 1)])
  {
  }

  lemma Moved(cfg: Config) returns (w: World)
    ensures Reachable(cfg, w) && w.now == 0 && 3 !in w.requests && w.store == Mailed(cfg).store
    ensures w.mail.emails == map[0 := B] && w.mail.mailedTo == map[5 := A]
    ensures RowOf(w.mail.log, 0) == Some(Row(B, None))
  {
    var m := Mailed(cfg);
    MailedReachable(cfg);
    var loaded := LoadedAfterMail(cfg, Some(B));
    SaveWrites(cfg, loaded, B, true);
    StepReachable(cfg, loaded, Run(2));
    w := Apply(cfg, loaded, Run(2));
    OneMore(m.mail.log, Changed(0, B), 0);
    assert m.store.users[0 := false] == m.store.users;
  }

  lemma LoadedAfterMail(cfg: Config, newEmail: Option<Email>) returns (w: World)
    requires newEmail == None || newEmail == Some(B)
    ensures Reachable(cfg, w)
    ensures w == Set(Mailed(cfg), 2,
      if newEmail.Some? then Saving(0, B, false, true, 1) else Saving(0, A, false, false, 1))
  {
    var m := Mailed(cfg);
    MailedReachable(cfg);
    UpdateAfterMail(cfg, newEmail);
    StepReachable(cfg, m, ArriveUpdate(2, 0, newEmail));
    StepReachable(cfg, Apply(cfg, m, ArriveUpdate(2, 0, newEmail)), Run(2));
    w := Apply(cfg, Apply(cfg, m, ArriveUpdate(2, 0, newEmail)), Run(2));
  }

  /**
   * A profile update that changes no address reads the row, a token is redeemed, and the update writes the row
   * back: the redemption succeeded, and the account is not verified.
   */
  lemma UpdateUndoesVerification(cfg: Config) returns (w: World)
    requires cfg.emailTtl > 0
    ensures Reachable(cfg, w) && 3 in w.requests && w.requests[3] == Verified(5, 0)
    ensures 0 in w.store.users && !w.store.users[0]
  {
    var loaded := LoadedAfterMail(cfg, None);
    RedeemFive(cfg, loaded);
    ThreeStepsReachable(cfg, loaded, ArriveVerify(3, 5), Run(3), Run(3));
    var redeemed := ThreeSteps(cfg, loaded, ArriveVerify(3, 5), Run(3), Run(3));
    SaveWrites(cfg, redeemed, A, false);
    StepReachable(cfg, redeemed, Run(2));
    w := Apply(cfg, redeemed, Run(2));
  }
}
