/**
 * Roles and their assignment to users (pkg/repository/roles_repo.go, idm/idm.go) on the users, roles and
 * user_roles tables. Role names are TEXT, compared exactly; ORDER BY follows the collation of the database,
 * any strict total order.
 */
module Roles {
  import opened Prelude
  import opened Counting

  type RoleId = nat
  type Name = string

  /** roles gives each role's name; grants holds the rows of user_roles. */
  datatype Db = Db(users: set<UserId>, roles: map<RoleId, Name>, grants: set<(UserId, RoleId)>)

  datatype RoleError = InvalidRoleName | RoleNotFound | RoleAlreadyExists | Storage

  // ---- queries and constraints

  predicate Named(roles: map<RoleId, Name>, r: RoleId, name: Name) { r in roles && roles[r] == name }

  /** UNIQUE(name), no empty name, and the foreign keys of user_roles. */
  ghost predicate Consistent(db: Db) {
    (forall r, q, n | Named(db.roles, r, n) && Named(db.roles, q, n) :: r == q) &&
    (forall r | r in db.roles :: db.roles[r] != "") &&
    forall a | a in db.grants :: a.0 in db.users && a.1 in db.roles
  }

  ghost function FindRole(roles: map<RoleId, Name>, name: Name): (row: Option<RoleId>)
    ensures row.Some? ==> Named(roles, row.value, name)
    ensures row.None? ==> forall r :: !Named(roles, r, name)
  {
    if exists r :: Named(roles, r, name) then
      var r :| Named(roles, r, name);
      Some(r)
    else None
  }

  predicate Holds(db: Db, u: UserId, r: RoleId) { r in db.roles && (u, r) in db.grants }

  function RolesOf(db: Db, u: UserId): set<RoleId> {
    set r | r in db.roles && Holds(db, u, r)
  }

  function NamesOf(db: Db, u: UserId): set<Name> {
    set r | r in RolesOf(db, u) :: db.roles[r]
  }

  /** The names in the given rows. */
  function NamesAt(roles: map<RoleId, Name>, rows: seq<RoleId>): seq<Name>
    requires forall k | 0 <= k < |rows| :: rows[k] in roles
  {
    seq(|rows|, k requires 0 <= k < |rows| => roles[rows[k]])
  }

  /** The collation of the database. */
  type Collation = (Name, Name) -> bool

  ghost predicate Ascending(less: Collation, names: seq<Name>) {
    forall i, j | 0 <= i < j < |names| :: less(names[i], names[j])
  }

  /** The rows of the user's roles ORDER BY name: each once, in ascending order. */
  ghost predicate OrderedRows(less: Collation, db: Db, u: UserId, rows: seq<RoleId>) {
    Elements(rows) == RolesOf(db, u) && (forall k | 0 <= k < |rows| :: rows[k] in db.roles) &&
    Ascending(less, NamesAt(db.roles, rows))
  }

  lemma ListedNames(less: Collation, db: Db, u: UserId, rows: seq<RoleId>)
    requires OrderedRows(less, db, u, rows)
    ensures Elements(NamesAt(db.roles, rows)) == NamesOf(db, u)
  {
    forall n ensures n in NamesAt(db.roles, rows) <==> n in NamesOf(db, u) {
      if n in NamesOf(db, u) {
        var r :| r in RolesOf(db, u) && db.roles[r] == n;
        assert r in Elements(rows);
        var k :| 0 <= k < |rows| && rows[k] == r;
        assert NamesAt(db.roles, rows)[k] == n;
      }
      if n in NamesAt(db.roles, rows) {
        var k :| 0 <= k < |rows| && NamesAt(db.roles, rows)[k] == n;
        assert rows[k] in Elements(rows);
      }
    }
  }

  // ---- the operations as functions on table values; drawn is the id a new role would get

  ghost function CreateRole(db: Db, name: Name, drawn: RoleId): (Db, Result<RoleId, RoleError>) {
    if name == "" then (db, Err(InvalidRoleName))
    else if FindRole(db.roles, name).Some? then (db, Err(RoleAlreadyExists))
    else if drawn in db.roles then (db, Err(Storage))
    else (db.(roles := db.roles[drawn := name]), Ok(drawn))
  }

  ghost function Ensure(db: Db, name: Name, drawn: RoleId): (Db, Result<RoleId, RoleError>) {
    if name == "" then (db, Err(InvalidRoleName))
    else
      var row := FindRole(db.roles, name);
      if row.Some? then (db, Ok(row.value))
      else if drawn in db.roles then (db, Err(Storage))
      else (db.(roles := db.roles[drawn := name]), Ok(drawn))
  }

  /** The ids of the named roles, creating those that are missing; it stops at the first error. */
  ghost function EnsureAll(db: Db, names: seq<Name>, drawn: seq<RoleId>): (result: (Db, Result<seq<RoleId>, RoleError>))
    requires |drawn| == |names|
    decreases |names|
  {
    if names == [] then (db, Ok([]))
    else
      var last := |names| - 1;
      var (db1, ids) := EnsureAll(db, names[..last], drawn[..last]);
      if ids.Err? then (db1, ids)
      else
        var (db2, id) := Ensure(db1, names[last], drawn[last]);
        if id.Err? then (db2, Err(id.error)) else (db2, Ok(ids.value + [id.value]))
  }

  predicate CanAssign(db: Db, u: UserId, r: RoleId) { u in db.users && r in db.roles }

  function Assign(db: Db, u: UserId, r: RoleId): (Db, Result<(), RoleError>) {
    if CanAssign(db, u, r) then (db.(grants := db.grants + {(u, r)}), Ok(())) else (db, Err(Storage))
  }

  function Unassign(db: Db, u: UserId, r: RoleId): Db {
    db.(grants := db.grants - {(u, r)})
  }

  function UnassignAll(db: Db, u: UserId): Db {
    db.(grants := set a | a in db.grants && a.0 != u)
  }

  /** The transaction of SetUserRoles. */
  function Replace(db: Db, u: UserId, ids: seq<RoleId>): (Db, Result<(), RoleError>) {
    if forall k | 0 <= k < |ids| :: CanAssign(db, u, ids[k])
    then (db.(grants := UnassignAll(db, u).grants + set r | r in ids :: (u, r)), Ok(()))
    else (db, Err(Storage))
  }

  ghost function AssignRole(db: Db, u: UserId, name: Name, drawn: RoleId): (Db, Result<(), RoleError>) {
    var (db1, r) := Ensure(db, name, drawn);
    if r.Err? then (db1, Err(r.error)) else Assign(db1, u, r.value)
  }

  ghost function RemoveRole(db: Db, u: UserId, name: Name): (Db, Result<(), RoleError>) {
    if name == "" then (db, Err(InvalidRoleName))
    else
      var row := FindRole(db.roles, name);
      if row.None? then (db, Ok(())) else (Unassign(db, u, row.value), Ok(()))
  }

  ghost function SetUserRoles(db: Db, u: UserId, names: seq<Name>, drawn: seq<RoleId>): (Db, Result<(), RoleError>)
    requires |drawn| == |names|
  {
    var (db1, ids) := EnsureAll(db, names, drawn);
    if ids.Err? then (db1, Err(ids.error)) else Replace(db1, u, ids.value)
  }

  ghost function RenameRole(db: Db, r: RoleId, name: Name): (Db, Result<RoleId, RoleError>) {
    if name == "" then (db, Err(InvalidRoleName))
    else if r !in db.roles then (db, Err(RoleNotFound))
    else if exists q :: q != r && Named(db.roles, q, name) then (db, Err(RoleAlreadyExists))
    else (db.(roles := db.roles[r := name]), Ok(r))
  }

  function DeleteRole(db: Db, r: RoleId): Db {
    db.(roles := db.roles - {r}, grants := set a | a in db.grants && a.1 != r)
  }

  function DeleteUser(db: Db, u: UserId): Db {
    UnassignAll(db, u).(users := db.users - {u})
  }

  // ---- the repository

  class RolesRepository {
    var users: set<UserId>
    var roles: map<RoleId, Name>
    var grants: set<(UserId, RoleId)>

    ghost function State(): Db
      reads this
    {
      Db(users, roles, grants)
    }

    constructor ()
      ensures State() == Db({}, map[], {})
    {
      users, roles, grants := {}, map[], {};
    }

    method GetByName(name: Name) returns (row: Result<RoleId, RoleError>)
      requires Consistent(State())
      ensures row == if name == "" then Err(InvalidRoleName)
        else var found := FindRole(roles, name); if found.Some? then Ok(found.value) else Err(RoleNotFound)
    {
      if name == "" {
        return Err(InvalidRoleName);
      }
      if r :| r in roles && roles[r] == name {
        assert Named(roles, r, name);
        return Ok(r);
      }
      assert forall r :: !Named(roles, r, name);
      return Err(RoleNotFound);
    }

    method Create(name: Name, drawn: RoleId) returns (r: Result<RoleId, RoleError>)
      requires Consistent(State())
      modifies this`roles
      ensures (State(), r) == CreateRole(old(State()), name, drawn)
    {
      if name == "" {
        return Err(InvalidRoleName);
      }
      var existing := GetByName(name);
      if existing.Ok? {
        return Err(RoleAlreadyExists);
      }
      if drawn in roles {
        return Err(Storage);
      }
      roles := roles[drawn := name];
      return Ok(drawn);
    }

    /** INSERT .. ON CONFLICT (name) DO UPDATE .. RETURNING */
    method Upsert(name: Name, drawn: RoleId) returns (r: Result<RoleId, RoleError>)
      requires Consistent(State())
      modifies this`roles
      ensures (State(), r) == Ensure(old(State()), name, drawn)
    {
      if name == "" {
        return Err(InvalidRoleName);
      }
      var existing := GetByName(name);
      if existing.Ok? {
        return existing;
      }
      if drawn in roles {
        return Err(Storage);
      }
      roles := roles[drawn := name];
      return Ok(drawn);
    }

    method Update(r: RoleId, name: Name) returns (result: Result<RoleId, RoleError>)
      requires Consistent(State())
      modifies this`roles
      ensures (State(), result) == RenameRole(old(State()), r, name)
    {
      if name == "" {
        return Err(InvalidRoleName);
      }
      if r !in roles {
        return Err(RoleNotFound);
      }
      var existing := GetByName(name);
      if existing.Ok? && existing.value != r {
        return Err(RoleAlreadyExists);
      }
      roles := roles[r := name];
      return Ok(r);
    }

    method Delete(r: RoleId)
      modifies this`roles, this`grants
      ensures State() == DeleteRole(old(State()), r)
      ensures r !in roles && (forall u :: (u, r) !in grants)
      ensures forall q | q != r :: (q in roles <==> q in old(roles)) && (q in roles ==> roles[q] == old(roles)[q])
      ensures forall u, q | q != r :: (u, q) in grants <==> (u, q) in old(grants)
    {
      roles := roles - {r};
      grants := set a | a in grants && a.1 != r;
    }

    method AssignToUser(u: UserId, r: RoleId) returns (result: Result<(), RoleError>)
      modifies this`grants
      ensures (State(), result) == Assign(old(State()), u, r)
    {
      if u !in users || r !in roles {
        return Err(Storage);
      }
      if (u, r) !in grants {
        grants := grants + {(u, r)};
      }
      assert grants == old(grants) + {(u, r)};
      return Ok(());
    }

    method RemoveFromUser(u: UserId, r: RoleId)
      modifies this`grants
      ensures State() == Unassign(old(State()), u, r)
      ensures forall v, q :: (v, q) in grants <==> (v, q) in old(grants) && !(v == u && q == r)
    {
      grants := grants - {(u, r)};
    }

    /** One transaction; an insert that violates a foreign key rolls it back. */
    method SetRoles(u: UserId, ids: seq<RoleId>) returns (result: Result<(), RoleError>)
      modifies this`grants
      ensures (State(), result) == Replace(old(State()), u, ids)
    {
      var begin := grants;
      grants := set a | a in grants && a.0 != u;
      for i := 0 to |ids|
        invariant users == old(users) && roles == old(roles)
        invariant grants == UnassignAll(old(State()), u).grants + set r | r in ids[..i] :: (u, r)
        invariant forall k | 0 <= k < i :: CanAssign(old(State()), u, ids[k])
      {
        var r := AssignToUser(u, ids[i]);
        if r.Err? {
          assert !CanAssign(old(State()), u, ids[i]);
          grants := begin;
          return r;
        }
        assert ids[..i + 1] == ids[..i] + [ids[i]];
      }
      assert ids[..|ids|] == ids;
      return Ok(());
    }

    /** rows is what the ordered query of the user's roles returns. */
    method GetUserRoleNames(u: UserId, rows: seq<RoleId>, ghost less: Collation) returns (names: seq<Name>)
      requires OrderedRows(less, State(), u, rows)
      ensures Ascending(less, names) && Elements(names) == NamesOf(State(), u)
    {
      names := [];
      for i := 0 to |rows|
        invariant |names| == i && forall k | 0 <= k < i :: names[k] == roles[rows[k]]
      {
        names := names + [roles[rows[i]]];
      }
      assert names == NamesAt(roles, rows);
      ListedNames(less, State(), u, rows);
    }
  }

  // ---- the embedding interface

  class Idm {
    const repo: RolesRepository

    constructor (repo: RolesRepository)
      ensures this.repo == repo
    {
      this.repo := repo;
    }

    method AssignByName(u: UserId, name: Name, drawn: RoleId) returns (result: Result<(), RoleError>)
      requires Consistent(repo.State())
      modifies repo
      ensures (repo.State(), result) == AssignRole(old(repo.State()), u, name, drawn)
    {
      var role := repo.Upsert(name, drawn);
      if role.Err? {
        return Err(role.error);
      }
      result := repo.AssignToUser(u, role.value);
    }

    method RemoveByName(u: UserId, name: Name) returns (result: Result<(), RoleError>)
      requires Consistent(repo.State())
      modifies repo
      ensures (repo.State(), result) == RemoveRole(old(repo.State()), u, name)
    {
      var role := repo.GetByName(name);
      if role.Err? {
        if role.error == RoleNotFound {
          return Ok(());
        }
        return Err(role.error);
      }
      repo.RemoveFromUser(u, role.value);
      return Ok(());
    }

    method SetByNames(u: UserId, names: seq<Name>, drawn: seq<RoleId>) returns (result: Result<(), RoleError>)
      requires Consistent(repo.State()) && |drawn| == |names|
      modifies repo
      ensures (repo.State(), result) == SetUserRoles(old(repo.State()), u, names, drawn)
    {
      var ids: seq<RoleId> := [];
      for i := 0 to |names|
        invariant EnsureAll(old(repo.State()), names[..i], drawn[..i]) == (repo.State(), Ok(ids))
        invariant Consistent(repo.State())
      {
        assert names[..i + 1][..i] == names[..i] && drawn[..i + 1][..i] == drawn[..i];
        EnsureKeeps(repo.State(), names[i], drawn[i]);
        var role := repo.Upsert(names[i], drawn[i]);
        if role.Err? {
          ErrorSticks(old(repo.State()), names, drawn, i + 1);
          return Err(role.error);
        }
        ids := ids + [role.value];
      }
      assert names[..|names|] == names && drawn[..|names|] == drawn;
      result := repo.SetRoles(u, ids);
    }
  }

  lemma EnsureKeeps(db: Db, name: Name, drawn: RoleId)
    requires Consistent(db)
    ensures Consistent(Ensure(db, name, drawn).0)
  {
    var db' := Ensure(db, name, drawn).0;
    if db' != db {
      forall r, q, n | Named(db'.roles, r, n) && Named(db'.roles, q, n) ensures r == q {
        assert r != drawn ==> Named(db.roles, r, n);
        assert q != drawn ==> Named(db.roles, q, n);
      }
    }
  }

  lemma {:induction false} ErrorSticks(db: Db, names: seq<Name>, drawn: seq<RoleId>, k: nat)
    requires |drawn| == |names| && k <= |names| && EnsureAll(db, names[..k], drawn[..k]).1.Err?
    ensures EnsureAll(db, names, drawn) == EnsureAll(db, names[..k], drawn[..k])
    decreases |names|
  {
    var last := |names| - 1;
    if k == |names| {
      assert names[..k] == names && drawn[..k] == drawn;
    } else {
      assert names[..last][..k] == names[..k] && drawn[..last][..k] == drawn[..k];
      ErrorSticks(db, names[..last], drawn[..last], k);
    }
  }
}
