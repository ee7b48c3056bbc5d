/** In every run of role requests, the names each user holds are those the history of requests says. */
module RoleHistory {
  import opened Prelude
  import opened Counting
  import opened Roles
  import opened RoleLaws

  datatype Op =
    | AddUser(user: UserId)
    | RemoveUser(user: UserId)
    | CreateNamed(name: Name, id: RoleId)
    | Give(user: UserId, name: Name, id: RoleId)
    | Take(user: UserId, name: Name)
    | Replace(user: UserId, names: seq<Name>, ids: seq<RoleId>)
    | Rename(role: RoleId, name: Name)
    | Drop(role: RoleId)

  /** What a request that succeeded did, in terms of names. */
  datatype Event =
    | Gave(user: UserId, name: Name)
    | Took(user: UserId, name: Name)
    | Replaced(user: UserId, names: set<Name>)
    | Renamed(from: Name, to: Name)
    | Dropped(name: Name)
    | Nothing

  const START := Db({}, map[], {})

  /** The ids drawn for new roles are new and distinct. */
  ghost predicate FreshIds(db: Db, op: Op) {
    match op
    case CreateNamed(_, id) => id !in db.roles
    case Give(_, _, id) => id !in db.roles
    case Replace(_, names, ids) => |ids| == |names| && Drawn(db, ids)
    case AddUser(_) => true
    case RemoveUser(_) => true
    case Take(_, _) => true
    case Rename(_, _) => true
    case Drop(_) => true
  }

  ghost function Step(db: Db, op: Op): (Db, Event)
    requires FreshIds(db, op)
  {
    match op
    case AddUser(u) => (db.(users := db.users + {u}), Nothing)
    case RemoveUser(u) => (DeleteUser(db, u), Replaced(u, {}))
    case CreateNamed(n, id) => (CreateRole(db, n, id).0, Nothing)
    case Give(u, n, id) =>
      var (db', r) := AssignRole(db, u, n, id);
      (db', if r.Ok? then Gave(u, n) else Nothing)
    case Take(u, n) =>
      var (db', r) := RemoveRole(db, u, n);
      (db', if r.Ok? then Took(u, n) else Nothing)
    case Replace(u, names, ids) =>
      var (db', r) := SetUserRoles(db, u, names, ids);
      (db', if r.Ok? then Replaced(u, Elements(names)) else Nothing)
    case Rename(role, n) =>
      var (db', r) := RenameRole(db, role, n);
      (db', if r.Ok? then Renamed(db.roles[role], n) else Nothing)
    case Drop(role) => (DeleteRole(db, role), if role in db.roles then Dropped(db.roles[role]) else Nothing)
  }

  /** Requests whose drawn ids are not new are skipped: the random source never repeats one. */
  ghost function Run(ops: seq<Op>): (Db, seq<Event>)
    decreases |ops|
  {
    if ops == [] then (START, [])
    else
      var (db, h) := Run(ops[..|ops| - 1]);
      if FreshIds(db, ops[|ops| - 1]) then
        var (db', e) := Step(db, ops[|ops| - 1]);
        (db', h + [e])
      else (db, h)
  }

  /** One user's names after one event. */
  function Next(names: set<Name>, e: Event, u: UserId): set<Name> {
    match e
    case Gave(v, n) => if v == u then names + {n} else names
    case Took(v, n) => if v == u then names - {n} else names
    case Replaced(v, given) => if v == u then given else names
    case Renamed(from, to) => if from in names then names - {from} + {to} else names
    case Dropped(n) => names - {n}
    case Nothing => names
  }

  function HeldBy(h: seq<Event>, u: UserId): set<Name>
    decreases |h|
  {
    if h == [] then {} else Next(HeldBy(h[..|h| - 1], u), h[|h| - 1], u)
  }

  lemma CreateExactly(db: Db, n: Name, id: RoleId, u: UserId)
    requires Consistent(db) && id !in db.roles
    ensures Consistent(CreateRole(db, n, id).0) && NamesOf(CreateRole(db, n, id).0, u) == NamesOf(db, u)
  {
    if CreateRole(db, n, id).1.Ok? {
      EnsureKeeps(db, n, id);
      ExtendKeepsNames(db, CreateRole(db, n, id).0, u);
    }
  }

  lemma RemoveUserExactly(db: Db, v: UserId, u: UserId)
    requires Consistent(db)
    ensures Consistent(DeleteUser(db, v)) && NamesOf(DeleteUser(db, v), u) == if u == v then {} else NamesOf(db, u)
  {
  }

  lemma SetFollows(db: Db, v: UserId, names: seq<Name>, ids: seq<RoleId>, u: UserId)
    requires Consistent(db) && |ids| == |names| && Drawn(db, ids)
    ensures var (db', r) := SetUserRoles(db, v, names, ids);
      Consistent(db') && NamesOf(db', u) == if r.Ok? && u == v then Elements(names) else NamesOf(db, u)
  {
    if "" in names || (v !in db.users && names != []) {
      SetRefused(db, v, names, ids, u);
    } else if v in db.users {
      SetExactly(db, v, names, ids, u);
    } else {
      assert RolesOf(db, u) == RolesOf(SetUserRoles(db, v, names, ids).0, u);
    }
  }

  lemma StepFollows(db: Db, op: Op, u: UserId)
    requires Consistent(db) && FreshIds(db, op)
    ensures var (db', e) := Step(db, op); Consistent(db') && NamesOf(db', u) == Next(NamesOf(db, u), e, u)
  {
    match op
    case AddUser(v) => assert RolesOf(Step(db, op).0, u) == RolesOf(db, u);
    case RemoveUser(v) => RemoveUserExactly(db, v, u);
    case CreateNamed(n, id) => CreateExactly(db, n, id, u);
    case Give(v, n, id) => AssignExactly(db, v, n, id, u);
    case Take(v, n) => RemoveExactly(db, v, n, u);
    case Replace(v, names, ids) => SetFollows(db, v, names, ids, u);
    case Rename(r, n) => RenamePointwise(db, r, n, u);
    case Drop(r) => DeletePointwise(db, r, u);
  }

  /** In every run the tables stay consistent and each user holds exactly the names the history says. */
  lemma {:induction false} NamesFollowHistory(ops: seq<Op>, u: UserId)
    ensures var (db, h) := Run(ops); Consistent(db) && NamesOf(db, u) == HeldBy(h, u)
    decreases |ops|
  {
    if ops == [] {
      assert RolesOf(START, u) == {};
    } else {
      NamesFollowHistory(ops[..|ops| - 1], u);
      var (db, h) := Run(ops[..|ops| - 1]);
      var op := ops[|ops| - 1];
      if FreshIds(db, op) {
        StepFollows(db, op, u);
        var h' := Run(ops).1;
        assert h'[..|h'| - 1] == h;
      }
    }
  }
}
