/**
 * Google logins running at the same time. Each is a program counter over its statements; the create
 * transaction is one step. Around them users register, write their profile, which may
 * change email and email_verified, and delete their account.
 */
module GoogleProtocol {
  import opened Prelude
  import opened GoogleAccounts

  type RequestId = nat

  /** How a login that succeeded came by its user. */
  datatype How = Found | Linked | Made

  datatype Request =
    | FindingIdentity(c: Claims)
    | FindingUser(c: Claims)
    | Linking(c: Claims, user: UserId)
    | Creating(c: Claims)
    | Returned(c: Claims, user: UserId, how: How)
    | Failed(c: Claims)

  datatype Action =
    | Arrive(id: RequestId, c: Claims)
    | Run(id: RequestId, drawn: UserId)
    | Abort(id: RequestId)
    | Register(user: UserId, email: Email)
    | WriteProfile(user: UserId, email: Email, verified: bool)
    | Delete(user: UserId)

  /** The tables and the logins, with every user id drawn and every email each user has had. */
  datatype World = World(db: Db, requests: map<RequestId, Request>, drawn: set<UserId>, held: set<(UserId, Email)>)

  const START := World(Db(map[], map[]), map[], {}, {})

  function Set(w: World, id: RequestId, r: Request): World {
    w.(requests := w.requests[id := r])
  }

  ghost function Advance(w: World, id: RequestId, u: UserId): World
    requires id in w.requests
  {
    match w.requests[id]
    case FindingIdentity(c) =>
      Set(w, id,
        if c.subject in w.db.identities then Returned(c, w.db.identities[c.subject], Found) else FindingUser(c))
    case FindingUser(c) =>
      var row := FindUser(w.db.users, c.email);
      Set(w, id, if row.Some? && c.emailVerified then Linking(c, row.value) else Creating(c))
    case Linking(c, v) =>
      var (db, r) := Link(w.db, c.subject, v);
      Set(w.(db := db), id, if r.Ok? then Returned(c, v, Linked) else Failed(c))
    case Creating(c) =>
      if u in w.drawn then w // the random source never repeats an id
      else
        var (db, r) := Create(w.db, c, u);
        Set(w.(db := db, drawn := w.drawn + {u}, held := w.held + {(u, c.email)}), id,
            if r.Ok? then Returned(c, u, Made) else Failed(c))
    case Returned(c, v, how) => w
    case Failed(c) => w
  }

  ghost function Apply(w: World, a: Action): World {
    match a
    case Arrive(id, c) => if id in w.requests then w else Set(w, id, FindingIdentity(c))
    case Run(id, u) => if id in w.requests then Advance(w, id, u) else w
    case Abort(id) =>
      if id in w.requests && !w.requests[id].Returned? then Set(w, id, Failed(w.requests[id].c)) else w
    case Register(u, email) =>
      if u in w.drawn || !CanInsertUser(w.db, u, email) then w
      else w.(db := w.db.(users := w.db.users[u := User(email, false)]),
              drawn := w.drawn + {u}, held := w.held + {(u, email)})
    case WriteProfile(u, email, verified) =>
      if u !in w.db.users || (exists v :: v != u && HasEmail(w.db.users, v, email)) then w
      else w.(db := w.db.(users := w.db.users[u := User(email, verified)]), held := w.held + {(u, email)})
    case Delete(u) =>
      w.(db := Db(w.db.users - {u}, map s | s in w.db.identities && w.db.identities[s] != u :: w.db.identities[s]))
  }

  ghost function Exec(w: World, schedule: seq<Action>): World
    decreases |schedule|
  {
    if schedule == [] then w else Exec(Apply(w, schedule[0]), schedule[1..])
  }

  // ---- the invariant

  /** A login that linked or created this identity; it linked only on a verified email the user has had. */
  predicate Earned(w: World, r: Request, s: Subject, u: UserId) {
    r.Returned? && r.c.subject == s && r.user == u && !r.how.Found? &&
    (r.how.Linked? ==> r.c.emailVerified && (u, r.c.email) in w.held)
  }

  ghost predicate HasSource(w: World, s: Subject, u: UserId) {
    exists id :: id in w.requests && Earned(w, w.requests[id], s, u)
  }

  predicate RequestOk(w: World, r: Request) {
    (r.Linking? ==> r.user in w.drawn && r.c.emailVerified && (r.user, r.c.email) in w.held) &&
    (r.Returned? ==> r.user in w.drawn) &&
    (r.Returned? && r.user in w.db.users ==> r.c.subject in w.db.identities && w.db.identities[r.c.subject] == r.user)
  }

  predicate UsersKnown(w: World) {
    w.db.users.Keys <= w.drawn && forall u | u in w.db.users :: (u, w.db.users[u].email) in w.held
  }

  predicate Referential(w: World) {
    forall s | s in w.db.identities :: w.db.identities[s] in w.db.users
  }

  ghost predicate Inv(w: World) {
    UniqueEmails(w.db.users) && UsersKnown(w) && Referential(w) &&
    (forall id | id in w.requests :: RequestOk(w, w.requests[id])) &&
    forall s | s in w.db.identities :: HasSource(w, s, w.db.identities[s])
  }

  // ---- every step keeps it

  lemma EmailsStayUnique(w: World, a: Action)
    requires Inv(w)
    ensures UniqueEmails(Apply(w, a).db.users)
  {
    var w' := Apply(w, a);
    if a.Run? {
      if a.id in w.requests && w.requests[a.id].Creating? { CreateKeepsUnique(w.db, w.requests[a.id].c, a.drawn); }
    } else if a.Register? {
      if CanInsertUser(w.db, a.user, a.email) { InsertKeepsUnique(w.db, a.user, User(a.email, false)); }
    } else if a.WriteProfile? || a.Delete? {
      forall u, v, e | HasEmail(w'.db.users, u, e) && HasEmail(w'.db.users, v, e) ensures u == v {
        assert u != a.user ==> HasEmail(w.db.users, u, e);
        assert v != a.user ==> HasEmail(w.db.users, v, e);
      }
    }
  }

  lemma RowsStay(w: World, a: Action)
    requires Inv(w)
    ensures UsersKnown(Apply(w, a)) && Referential(Apply(w, a))
  {
  }

  lemma OwnStep(w: World, id: RequestId, drawn: UserId)
    requires Inv(w) && id in w.requests
    ensures var w' := Advance(w, id, drawn); id in w'.requests && RequestOk(w', w'.requests[id])
  {
    assert RequestOk(w, w.requests[id]);
  }

  lemma PeerStep(w: World, a: Action, id: RequestId)
    requires Inv(w) && id in w.requests && !(a.Run? && a.id == id) && id in Apply(w, a).requests
    ensures RequestOk(Apply(w, a), Apply(w, a).requests[id])
  {
    assert RequestOk(w, w.requests[id]);
  }

  lemma RequestStays(w: World, a: Action, id: RequestId)
    requires Inv(w) && id in Apply(w, a).requests
    ensures RequestOk(Apply(w, a), Apply(w, a).requests[id])
  {
    if id in w.requests {
      if a.Run? && a.id == id { OwnStep(w, id, a.drawn); }
      else { PeerStep(w, a, id); }
    }
  }

  lemma SuccessStays(w: World, a: Action, id: RequestId)
    requires id in w.requests && w.requests[id].Returned?
    ensures id in Apply(w, a).requests && Apply(w, a).requests[id] == w.requests[id]
    ensures w.held <= Apply(w, a).held
  {
  }

  lemma SourceStays(w: World, a: Action, s: Subject)
    requires Inv(w) && s in Apply(w, a).db.identities
    ensures HasSource(Apply(w, a), s, Apply(w, a).db.identities[s])
  {
    var w' := Apply(w, a);
    if s in w.db.identities {
      var id :| id in w.requests && Earned(w, w.requests[id], s, w.db.identities[s]);
      SuccessStays(w, a, id);
      assert Earned(w', w'.requests[id], s, w'.db.identities[s]);
    } else {
      assert RequestOk(w, w.requests[a.id]);
      assert Earned(w', w'.requests[a.id], s, w'.db.identities[s]);
    }
  }

  lemma ApplyKeeps(w: World, a: Action)
    requires Inv(w)
    ensures Inv(Apply(w, a))
  {
    var w' := Apply(w, a);
    EmailsStayUnique(w, a);
    RowsStay(w, a);
    forall id | id in w'.requests ensures RequestOk(w', w'.requests[id]) { RequestStays(w, a, id); }
    forall s | s in w'.db.identities ensures HasSource(w', s, w'.db.identities[s]) { SourceStays(w, a, s); }
  }

  lemma {:induction false} ExecKeeps(w: World, schedule: seq<Action>)
    requires Inv(w)
    ensures Inv(Exec(w, schedule))
    decreases |schedule|
  {
    if schedule != [] {
      ApplyKeeps(w, schedule[0]);
      ExecKeeps(Apply(w, schedule[0]), schedule[1..]);
    }
  }

  // ---- the results

  /**
   * In every interleaving: when a login for a subject succeeds, its user is the one every earlier success for
   * that subject returned, unless that one has been deleted since.
   */
  lemma SubjectStable(schedule: seq<Action>, a: Action, i: RequestId, j: RequestId)
    requires var w := Exec(START, schedule);
      i in w.requests && w.requests[i].Returned? &&
      (j in w.requests ==> !w.requests[j].Returned?) && j in Apply(w, a).requests && Apply(w, a).requests[j].Returned?
    requires var w := Exec(START, schedule);
      w.requests[i].c.subject == Apply(w, a).requests[j].c.subject
    ensures var w := Exec(START, schedule);
      w.requests[i].user in w.db.users ==> Apply(w, a).requests[j].user == w.requests[i].user
  {
    ExecKeeps(START, schedule);
    var w := Exec(START, schedule);
    ApplyKeeps(w, a);
    assert RequestOk(w, w.requests[i]);
    assert RequestOk(Apply(w, a), Apply(w, a).requests[j]);
  }

  /** A deleted user id never comes back, so two living users are never returned for one subject. */
  lemma OneLivingUser(schedule: seq<Action>, i: RequestId, j: RequestId)
    requires var w := Exec(START, schedule);
      i in w.requests && j in w.requests && w.requests[i].Returned? && w.requests[j].Returned? &&
      w.requests[i].c.subject == w.requests[j].c.subject &&
      w.requests[i].user in w.db.users && w.requests[j].user in w.db.users
    ensures Exec(START, schedule).requests[i].user == Exec(START, schedule).requests[j].user
  {
    ExecKeeps(START, schedule);
    var w := Exec(START, schedule);
    assert RequestOk(w, w.requests[i]) && RequestOk(w, w.requests[j]);
  }

  /**
   * In every interleaving: each identity refers to a user that exists, and was made together with that user or
   * linked by a login with a verified email which the user had had.
   */
  lemma IdentitiesEarned(schedule: seq<Action>, s: Subject)
    requires s in Exec(START, schedule).db.identities
    ensures var w := Exec(START, schedule);
      w.db.identities[s] in w.db.users && HasSource(w, s, w.db.identities[s])
  {
    ExecKeeps(START, schedule);
  }

  /** A step of a login writes only if the login succeeds in it, and then adds its identity and at most its user. */
  lemma WritesOnlyOnSuccess(w: World, id: RequestId, drawn: UserId)
    requires id in w.requests && Apply(w, Run(id, drawn)).db != w.db
    ensures
      var w' := Apply(w, Run(id, drawn));
      var r := w'.requests[id];
      !w.requests[id].Returned? && r.Returned? && r.c.subject !in w.db.identities &&
      w'.db.identities == w.db.identities[r.c.subject := r.user] &&
      if r.how.Made?
      then r.user !in w.db.users && w'.db.users == w.db.users[r.user := User(r.c.email, r.c.emailVerified)]
      else r.user in w.db.users && w'.db.users == w.db.users
  {
  }

  /** Run without interference, a login does what the service method does. */
  lemma SoloLogin(w: World, id: RequestId, c: Claims, u: UserId)
    requires id !in w.requests && u !in w.drawn
    ensures var w' := Exec(w, [Arrive(id, c), Run(id, u), Run(id, u), Run(id, u)]);
      var (db, r) := Authenticate(w.db, c, u);
      w'.db == db && id in w'.requests &&
      if r.Ok? then w'.requests[id].Returned? && w'.requests[id].user == r.value else w'.requests[id].Failed?
  {
    var run := Run(id, u);
    var w1 := Apply(w, Arrive(id, c));
    var w2 := Apply(w1, run);
    var w3 := Apply(w2, run);
    var schedule := [Arrive(id, c), run, run, run];
    assert schedule[1..] == [run, run, run] && [run, run, run][1..] == [run, run] && [run, run][1..] == [run];
    assert Exec(w3, [run]) == Exec(Apply(w3, run), []) by { assert [run][1..] == []; }
    assert Exec(w2, [run, run]) == Exec(w3, [run]);
    assert Exec(w1, [run, run, run]) == Exec(w2, [run, run]);
  }
}
