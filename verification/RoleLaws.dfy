/**
 * What the role operations do to the names a user holds, whatever ids stand behind them, and the order in which
 * they are listed.
 */
module RoleLaws {
  import opened Prelude
  import opened Counting
  import opened Roles

  function AllNames(db: Db): set<Name> { db.roles.Values }

  lemma HeldName(db: Db, u: UserId, r: RoleId)
    ensures Holds(db, u, r) ==> db.roles[r] in NamesOf(db, u)
  {
  }

  /** A held name has one role behind it. */
  lemma RoleBehind(db: Db, u: UserId, n: Name)
    ensures n in NamesOf(db, u) <==> exists r :: Holds(db, u, r) && Named(db.roles, r, n)
  {
  }

  /** New roles change no list. */
  ghost predicate Extends(db: Db, db': Db) {
    db'.users == db.users && db'.grants == db.grants &&
    forall r | r in db.roles :: r in db'.roles && db'.roles[r] == db.roles[r]
  }

  lemma ExtendKeepsNames(db: Db, db': Db, u: UserId)
    requires Consistent(db) && Extends(db, db')
    ensures NamesOf(db', u) == NamesOf(db, u)
  {
  }

  // ---- Ensure

  lemma EnsureExactly(db: Db, name: Name, drawn: RoleId)
    requires Consistent(db) && drawn !in db.roles && name != ""
    ensures var (db', r) := Ensure(db, name, drawn);
      r.Ok? && Named(db'.roles, r.value, name) && Consistent(db') && Extends(db, db') &&
      db'.roles.Keys <= db.roles.Keys + {drawn} && AllNames(db') == AllNames(db) + {name}
  {
    EnsureKeeps(db, name, drawn);
    var (db', r) := Ensure(db, name, drawn);
    if db' == db {
      assert db.roles[r.value] in db.roles.Values;
    } else {
      AddedName(db.roles, drawn, name);
    }
  }

  lemma AddedName(roles: map<RoleId, Name>, r: RoleId, name: Name)
    requires r !in roles
    ensures roles[r := name].Values == roles.Values + {name}
  {
    var roles' := roles[r := name];
    forall n | n in roles.Values + {name} ensures n in roles'.Values {
      if n == name { assert roles'[r] == n; }
      else {
        var q :| q in roles && roles[q] == n;
        assert roles'[q] == n;
      }
    }
  }

  ghost predicate Drawn(db: Db, drawn: seq<RoleId>) {
    Distinct(drawn) && Elements(drawn) !! db.roles.Keys
  }

  lemma DrawnPrefix(db: Db, drawn: seq<RoleId>, k: nat)
    requires Drawn(db, drawn) && k <= |drawn|
    ensures Drawn(db, drawn[..k])
  {
  }

  lemma LastElement<T>(s: seq<T>)
    requires s != []
    ensures Elements(s) == Elements(s[..|s| - 1]) + {s[|s| - 1]}
  {
  }

  /** db' has the named roles under the given ids, and all of db unchanged. */
  ghost predicate Gives(db: Db, names: seq<Name>, db': Db, ids: seq<RoleId>) {
    |ids| == |names| && Consistent(db') && Extends(db, db') &&
    forall k | 0 <= k < |names| :: Named(db'.roles, ids[k], names[k])
  }

  /** Only drawn ids are new. */
  lemma {:induction false} EnsureAllKeys(db: Db, names: seq<Name>, drawn: seq<RoleId>)
    requires |drawn| == |names|
    ensures EnsureAll(db, names, drawn).0.roles.Keys <= db.roles.Keys + Elements(drawn)
    decreases |names|
  {
    if names != [] {
      EnsureAllKeys(db, names[..|names| - 1], drawn[..|drawn| - 1]);
      LastElement(drawn);
    }
  }

  lemma LastIsNew(db: Db, names: seq<Name>, drawn: seq<RoleId>)
    requires |drawn| == |names| && names != [] && Drawn(db, drawn)
    ensures drawn[|drawn| - 1] !in EnsureAll(db, names[..|names| - 1], drawn[..|drawn| - 1]).0.roles
  {
    EnsureAllKeys(db, names[..|names| - 1], drawn[..|drawn| - 1]);
    assert drawn[|drawn| - 1] in Elements(drawn) && drawn[|drawn| - 1] !in Elements(drawn[..|drawn| - 1]);
  }

  lemma GivesOneMore(db: Db, names: seq<Name>, db1: Db, ids: seq<RoleId>, name: Name, drawn: RoleId)
    requires Gives(db, names, db1, ids) && name != "" && drawn !in db1.roles
    ensures var (db2, id) := Ensure(db1, name, drawn);
      id.Ok? && Gives(db, names + [name], db2, ids + [id.value])
  {
    EnsureExactly(db1, name, drawn);
  }

  /** With no empty name, every name gets its role. */
  lemma {:induction false} EnsureAllGives(db: Db, names: seq<Name>, drawn: seq<RoleId>)
    requires Consistent(db) && |drawn| == |names| && Drawn(db, drawn) && "" !in names
    ensures var (db', ids) := EnsureAll(db, names, drawn); ids.Ok? && Gives(db, names, db', ids.value)
    decreases |names|
  {
    if names != [] {
      var last := |names| - 1;
      DrawnPrefix(db, drawn, last);
      EnsureAllGives(db, names[..last], drawn[..last]);
      LastIsNew(db, names, drawn);
      var (db1, ids) := EnsureAll(db, names[..last], drawn[..last]);
      GivesOneMore(db, names[..last], db1, ids.value, names[last], drawn[last]);
      assert names[..last] + [names[last]] == names;
    }
  }

  lemma {:induction false} EnsureAllNames(db: Db, names: seq<Name>, drawn: seq<RoleId>)
    requires Consistent(db) && |drawn| == |names| && Drawn(db, drawn) && "" !in names
    ensures AllNames(EnsureAll(db, names, drawn).0) == AllNames(db) + Elements(names)
    decreases |names|
  {
    if names != [] {
      var last := |names| - 1;
      DrawnPrefix(db, drawn, last);
      EnsureAllGives(db, names[..last], drawn[..last]);
      EnsureAllNames(db, names[..last], drawn[..last]);
      LastIsNew(db, names, drawn);
      LastElement(names);
      EnsureExactly(EnsureAll(db, names[..last], drawn[..last]).0, names[last], drawn[last]);
    }
  }

  /** Every name gets its own role, those that were missing are created, and no existing role changes. */
  lemma EnsureAllExactly(db: Db, names: seq<Name>, drawn: seq<RoleId>)
    requires Consistent(db) && |drawn| == |names| && Drawn(db, drawn) && "" !in names
    ensures var (db', ids) := EnsureAll(db, names, drawn);
      ids.Ok? && |ids.value| == |names| && Consistent(db') && Extends(db, db') &&
      AllNames(db') == AllNames(db) + Elements(names) &&
      forall k | 0 <= k < |names| :: Named(db'.roles, ids.value[k], names[k])
  {
    EnsureAllGives(db, names, drawn);
    EnsureAllNames(db, names, drawn);
  }

  /** An empty name stops the loop; the names before it have been created. */
  lemma EnsureAllStops(db: Db, names: seq<Name>, drawn: seq<RoleId>, k: nat)
    requires Consistent(db) && |drawn| == |names| && Drawn(db, drawn)
    requires k < |names| && names[k] == "" && "" !in names[..k]
    ensures var (db', r) := EnsureAll(db, names, drawn);
      r == Err(InvalidRoleName) && Consistent(db') && Extends(db, db') &&
      AllNames(db') == AllNames(db) + Elements(names[..k])
  {
    DrawnPrefix(db, drawn, k);
    EnsureAllExactly(db, names[..k], drawn[..k]);
    OneStep(db, names, drawn, k);
    ErrorSticks(db, names, drawn, k + 1);
  }

  /** An empty name after names that went through. */
  lemma OneStep(db: Db, names: seq<Name>, drawn: seq<RoleId>, k: nat)
    requires |drawn| == |names| && k < |names| && names[k] == "" && EnsureAll(db, names[..k], drawn[..k]).1.Ok?
    ensures EnsureAll(db, names[..k + 1], drawn[..k + 1]) ==
      (EnsureAll(db, names[..k], drawn[..k]).0, Err(InvalidRoleName))
  {
    assert names[..k + 1][..k] == names[..k] && drawn[..k + 1][..k] == drawn[..k];
  }

  // ---- assignments, pointwise

  lemma ReplacedNames(db: Db, u: UserId, names: seq<Name>, ids: seq<RoleId>, v: UserId)
    requires Consistent(db) && u in db.users && |ids| == |names|
    requires forall k | 0 <= k < |names| :: Named(db.roles, ids[k], names[k])
    ensures var (db', r) := Replace(db, u, ids);
      r.Ok? && Consistent(db') && NamesOf(db', v) == if v == u then Elements(names) else NamesOf(db, v)
  {
  }

  /** Non-empty names for an existing user: that user holds exactly these, and nobody else's list changes. */
  lemma SetExactly(db: Db, u: UserId, names: seq<Name>, drawn: seq<RoleId>, v: UserId)
    requires Consistent(db) && |drawn| == |names| && Drawn(db, drawn)
    requires u in db.users && "" !in names
    ensures var (db', r) := SetUserRoles(db, u, names, drawn);
      r.Ok? && Consistent(db') && AllNames(db') == AllNames(db) + Elements(names) &&
      NamesOf(db', v) == if v == u then Elements(names) else NamesOf(db, v)
  {
    EnsureAllExactly(db, names, drawn);
    var (db1, ids) := EnsureAll(db, names, drawn);
    ExtendKeepsNames(db, db1, v);
    ReplacedNames(db1, u, names, ids.value, v);
  }

  /** Any empty name, or a user that does not exist: an error, and nobody's list changes. */
  lemma SetRefused(db: Db, u: UserId, names: seq<Name>, drawn: seq<RoleId>, v: UserId)
    requires Consistent(db) && |drawn| == |names| && Drawn(db, drawn)
    requires "" in names || (u !in db.users && names != [])
    ensures var (db', r) := SetUserRoles(db, u, names, drawn);
      r == Err(if "" in names then InvalidRoleName else Storage) && Consistent(db') &&
      db'.grants == db.grants && NamesOf(db', v) == NamesOf(db, v)
  {
    if "" in names {
      var k := FirstEmpty(names);
      EnsureAllStops(db, names, drawn, k);
    } else {
      EnsureAllExactly(db, names, drawn);
      assert !CanAssign(EnsureAll(db, names, drawn).0, u, EnsureAll(db, names, drawn).1.value[0]);
    }
    ExtendKeepsNames(db, EnsureAll(db, names, drawn).0, v);
  }

  function FirstEmpty(names: seq<Name>): (k: nat)
    requires "" in names
    ensures k < |names| && names[k] == "" && "" !in names[..k]
    decreases |names|
  {
    if names[0] == "" then 0
    else
      var k := FirstEmpty(names[1..]);
      assert names[..k + 1] == [names[0]] + names[1..][..k];
      k + 1
  }

  lemma NameTaken(db: Db, name: Name)
    ensures FindRole(db.roles, name).Some? <==> name in AllNames(db)
  {
    if name in AllNames(db) {
      var r :| r in db.roles && db.roles[r] == name;
      assert Named(db.roles, r, name);
    }
  }

  /** Each refusal and its condition; only that of an assignment, after its role was created, changes anything. */
  lemma RefusalsExactly(db: Db, u: UserId, r: RoleId, name: Name, drawn: RoleId)
    requires Consistent(db)
    ensures var (db', result) := CreateRole(db, name, drawn);
      (result == Err(InvalidRoleName) <==> name == "") &&
      (result == Err(RoleAlreadyExists) <==> name != "" && name in AllNames(db)) &&
      (result == Err(Storage) <==> name != "" && name !in AllNames(db) && drawn in db.roles) &&
      (result.Ok? ==> result.value == drawn && db' == db.(roles := db.roles[drawn := name])) &&
      (result.Err? ==> db' == db)
    ensures var (db', result) := RenameRole(db, r, name);
      (result == Err(InvalidRoleName) <==> name == "") &&
      (result == Err(RoleNotFound) <==> name != "" && r !in db.roles) &&
      (result == Err(RoleAlreadyExists) <==>
        name != "" && r in db.roles && db.roles[r] != name && name in AllNames(db)) &&
      (result.Ok? ==> result.value == r) && (result.Err? ==> db' == db)
    ensures var (db', result) := AssignRole(db, u, name, drawn);
      (result == Err(InvalidRoleName) <==> name == "") &&
      (result == Err(Storage) <==> name != "" && (u !in db.users || (name !in AllNames(db) && drawn in db.roles))) &&
      (result == Ok(()) || result == Err(InvalidRoleName) || result == Err(Storage))
    ensures var (db', result) := RemoveRole(db, u, name);
      result == if name == "" then Err(InvalidRoleName) else Ok(())
  {
    NameTaken(db, name);
    if r in db.roles && name in AllNames(db) && db.roles[r] != name {
      var q :| q in db.roles && db.roles[q] == name;
      assert Named(db.roles, q, name);
    }
    if q :| q != r && Named(db.roles, q, name) {
      assert r in db.roles && db.roles[r] == name ==> Named(db.roles, r, name);
    }
  }

  /** Assigning by name adds that name to the one list, if the user exists and the name is not empty. */
  lemma AssignExactly(db: Db, u: UserId, name: Name, drawn: RoleId, v: UserId)
    requires Consistent(db) && drawn !in db.roles
    ensures var (db', r) := AssignRole(db, u, name, drawn);
      (r.Ok? <==> name != "" && u in db.users) && Consistent(db') &&
      NamesOf(db', v) == NamesOf(db, v) + if r.Ok? && v == u then {name} else {}
  {
    if name != "" {
      EnsureExactly(db, name, drawn);
      var (db1, id) := Ensure(db, name, drawn);
      var db' := AssignRole(db, u, name, drawn).0;
      ExtendKeepsNames(db, db1, v);
      forall n ensures n in NamesOf(db', v) <==> n in NamesOf(db1, v) || (u in db.users && v == u && n == name) {
        RoleBehind(db', v, n);
        RoleBehind(db1, v, n);
        if r :| Holds(db1, v, r) && Named(db1.roles, r, n) { assert Holds(db', v, r); }
        if u in db.users && v == u && n == name { assert Holds(db', v, id.value); }
        if r :| Holds(db', v, r) && Named(db'.roles, r, n) { assert Holds(db1, v, r) || r == id.value; }
      }
    }
  }

  /** Removing by name takes that name off the one list, and does nothing where it was not on it. */
  lemma RemoveExactly(db: Db, u: UserId, name: Name, v: UserId)
    requires Consistent(db)
    ensures var (db', r) := RemoveRole(db, u, name);
      (r.Ok? <==> name != "") && Consistent(db') && NamesOf(db', v) == NamesOf(db, v) - if v == u then {name} else {}
  {
    var db' := RemoveRole(db, u, name).0;
    forall n ensures n in NamesOf(db', v) <==> n in NamesOf(db, v) && !(v == u && n == name) {
      RoleBehind(db', v, n);
      RoleBehind(db, v, n);
      if r :| Holds(db, v, r) && Named(db.roles, r, n) && !(v == u && n == name) { assert Holds(db', v, r); }
      if r :| Holds(db', v, r) && Named(db'.roles, r, n) { assert Holds(db, v, r); }
    }
  }

  /** Renaming goes through iff the new name is not empty and free, and replaces the name in every list that had it. */
  lemma RenamePointwise(db: Db, r: RoleId, name: Name, v: UserId)
    requires Consistent(db)
    ensures var (db', result) := RenameRole(db, r, name);
      (result.Ok? <==> name != "" && r in db.roles && (db.roles[r] == name || name !in AllNames(db))) &&
      Consistent(db') &&
      NamesOf(db', v) ==
        if result.Ok? && db.roles[r] in NamesOf(db, v) then NamesOf(db, v) - {db.roles[r]} + {name} else NamesOf(db, v)
  {
    var (db', result) := RenameRole(db, r, name);
    if result.Ok? {
      RenameKeeps(db, r, name);
      forall n
        ensures n in NamesOf(db', v) <==> (n != db.roles[r] && n in NamesOf(db, v)) || (n == name && Holds(db, v, r))
      {
        RoleBehind(db', v, n);
        RoleBehind(db, v, n);
        if q :| Holds(db, v, q) && Named(db.roles, q, n) {
          assert q != r ==> Holds(db', v, q) && Named(db'.roles, q, n);
        }
        if q :| Holds(db', v, q) && Named(db'.roles, q, n) {
          assert q != r ==> Holds(db, v, q) && Named(db.roles, q, n);
          assert Named(db.roles, r, db.roles[r]);
        }
        if n == name && Holds(db, v, r) { assert Holds(db', v, r) && Named(db'.roles, r, n); }
      }
      RoleBehind(db, v, db.roles[r]);
      assert db.roles[r] in NamesOf(db, v) <==> Holds(db, v, r);
    } else if r in db.roles && name != "" {
      var q :| q != r && Named(db.roles, q, name);
      assert Named(db.roles, r, db.roles[r]);
      assert name in db.roles.Values;
    }
    if r in db.roles && name in AllNames(db) && db.roles[r] != name {
      var q :| q in db.roles && db.roles[q] == name;
      assert Named(db.roles, q, name);
    }
  }

  lemma RenameKeeps(db: Db, r: RoleId, name: Name)
    requires Consistent(db) && RenameRole(db, r, name).1.Ok?
    ensures Consistent(RenameRole(db, r, name).0)
  {
    var db' := RenameRole(db, r, name).0;
    forall p, q, n | Named(db'.roles, p, n) && Named(db'.roles, q, n) ensures p == q {
      assert p != r ==> Named(db.roles, p, n);
      assert q != r ==> Named(db.roles, q, n);
    }
  }

  /** Deleting a role takes its name off every list. */
  lemma DeletePointwise(db: Db, r: RoleId, v: UserId)
    requires Consistent(db)
    ensures var db' := DeleteRole(db, r);
      Consistent(db') && NamesOf(db', v) == NamesOf(db, v) - if r in db.roles then {db.roles[r]} else {}
  {
    var db' := DeleteRole(db, r);
    forall p, q, n | Named(db'.roles, p, n) && Named(db'.roles, q, n) ensures p == q {
      assert Named(db.roles, p, n) && Named(db.roles, q, n);
    }
    forall n ensures n in NamesOf(db', v) <==> n in NamesOf(db, v) && !(r in db.roles && n == db.roles[r]) {
      RoleBehind(db', v, n);
      RoleBehind(db, v, n);
      if q :| Holds(db, v, q) && Named(db.roles, q, n) {
        assert r in db.roles && n == db.roles[r] ==> Named(db.roles, r, n);
        assert q != r ==> Holds(db', v, q) && Named(db'.roles, q, n);
      }
      if q :| Holds(db', v, q) && Named(db'.roles, q, n) {
        assert Holds(db, v, q) && Named(db.roles, q, n);
        assert r in db.roles && n == db.roles[r] ==> Named(db.roles, r, n);
      }
    }
  }

  // ---- listing

  ghost predicate TotalOrder(less: Collation) {
    (forall a, b :: less(a, b) ==> !less(b, a)) &&
    (forall a, b :: a == b || less(a, b) || less(b, a)) &&
    forall a, b, c :: less(a, b) && less(b, c) ==> less(a, c)
  }

  /** Inserting into an ascending list without repeating a name. */
  function Insert(less: Collation, name: Name, names: seq<Name>): seq<Name>
    decreases |names|
  {
    if names == [] || less(name, names[0]) then [name] + names
    else if names[0] == name then names
    else [names[0]] + Insert(less, name, names[1..])
  }

  function Sorted(less: Collation, names: seq<Name>): seq<Name>
    decreases |names|
  {
    if names == [] then [] else Insert(less, names[0], Sorted(less, names[1..]))
  }

  lemma AscendingCons(less: Collation, first: Name, names: seq<Name>)
    requires Ascending(less, names) && forall n | n in Elements(names) :: less(first, n)
    ensures Ascending(less, [first] + names) && Elements([first] + names) == {first} + Elements(names)
  {
  }

  lemma {:induction false} InsertAscending(less: Collation, name: Name, names: seq<Name>)
    requires TotalOrder(less) && Ascending(less, names)
    ensures Ascending(less, Insert(less, name, names))
    ensures Elements(Insert(less, name, names)) == Elements(names) + {name}
    decreases |names|
  {
    if names == [] {
    } else if less(name, names[0]) {
      forall n | n in Elements(names) ensures less(name, n) {}
      AscendingCons(less, name, names);
    } else if names[0] != name {
      InsertAscending(less, name, names[1..]);
      assert Elements(names) == {names[0]} + Elements(names[1..]);
      forall n | n in Elements(names[1..]) ensures less(names[0], n) {}
      AscendingCons(less, names[0], Insert(less, name, names[1..]));
    }
  }

  lemma {:induction false} SortedAscending(less: Collation, names: seq<Name>)
    requires TotalOrder(less)
    ensures Ascending(less, Sorted(less, names)) && Elements(Sorted(less, names)) == Elements(names)
    decreases |names|
  {
    if names != [] {
      SortedAscending(less, names[1..]);
      InsertAscending(less, names[0], Sorted(less, names[1..]));
      assert Elements(names) == {names[0]} + Elements(names[1..]);
    }
  }

  /** An ascending list is determined by its elements. */
  lemma {:induction false} AscendingUnique(less: Collation, a: seq<Name>, b: seq<Name>)
    requires TotalOrder(less) && Ascending(less, a) && Ascending(less, b) && Elements(a) == Elements(b)
    ensures a == b
    decreases |a|
  {
    assert a != [] ==> a[0] in Elements(b);
    assert b != [] ==> b[0] in Elements(a);
    if a != [] {
      var i :| 0 <= i < |b| && b[i] == a[0];
      var j :| 0 <= j < |a| && a[j] == b[0];
      assert a[0] == b[0];
      forall n ensures n in Elements(a[1..]) <==> n in Elements(b[1..]) {
        assert n in a[1..] ==> n in Elements(a) && n != a[0];
        assert n in b[1..] ==> n in Elements(b) && n != b[0];
        assert n in a && n != a[0] ==> n in a[1..];
        assert n in b && n != b[0] ==> n in b[1..];
      }
      AscendingUnique(less, a[1..], b[1..]);
    }
  }

  /** Setting roles and then listing them gives the names sorted and without repetitions. */
  lemma SetThenGet(less: Collation, db: Db, u: UserId, names: seq<Name>, drawn: seq<RoleId>, rows: seq<RoleId>)
    requires TotalOrder(less) && Consistent(db) && |drawn| == |names| && Drawn(db, drawn)
    requires u in db.users && "" !in names
    requires OrderedRows(less, SetUserRoles(db, u, names, drawn).0, u, rows)
    ensures NamesAt(SetUserRoles(db, u, names, drawn).0.roles, rows) == Sorted(less, names)
  {
    var db' := SetUserRoles(db, u, names, drawn).0;
    SetExactly(db, u, names, drawn, u);
    ListedNames(less, db', u, rows);
    SortedAscending(less, names);
    AscendingUnique(less, NamesAt(db'.roles, rows), Sorted(less, names));
  }

  /** The order of the given names and their repetitions make no difference. */
  lemma SortedIgnoresOrder(less: Collation, a: seq<Name>, b: seq<Name>)
    requires TotalOrder(less)
    ensures Sorted(less, a) == Sorted(less, b) <==> Elements(a) == Elements(b)
  {
    SortedAscending(less, a);
    SortedAscending(less, b);
    if Elements(a) == Elements(b) { AscendingUnique(less, Sorted(less, a), Sorted(less, b)); }
  }

  /** A sorted list of the user's roles exists in every consistent state. */
  lemma OrderedRowsExist(less: Collation, db: Db, u: UserId) returns (rows: seq<RoleId>)
    requires TotalOrder(less) && Consistent(db)
    ensures OrderedRows(less, db, u, rows)
  {
    var names := Sorted(less, Listing(NamesOf(db, u)));
    SortedAscending(less, Listing(NamesOf(db, u)));
    assert forall n :: n in Elements(names) <==> n in NamesOf(db, u);
    forall k | 0 <= k < |names|
      ensures FindRole(db.roles, names[k]).Some? && Holds(db, u, FindRole(db.roles, names[k]).value)
    {
      assert names[k] in Elements(names);
      RoleBehind(db, u, names[k]);
    }
    rows := seq(|names|, k requires 0 <= k < |names| => FindRole(db.roles, names[k]).value);
    assert NamesAt(db.roles, rows) == names;
    forall r | r in RolesOf(db, u) ensures r in rows {
      HeldName(db, u, r);
      assert db.roles[r] in Elements(names);
      var k :| 0 <= k < |names| && names[k] == db.roles[r];
      assert Named(db.roles, rows[k], names[k]) && Named(db.roles, r, names[k]);
    }
  }

  ghost function Listing(s: set<Name>): (l: seq<Name>)
    ensures Elements(l) == s
    decreases |s|
  {
    if s == {} then []
    else
      var x :| x in s;
      var l := Listing(s - {x});
      assert Elements([x] + l) == {x} + Elements(l);
      [x] + l
  }
}
