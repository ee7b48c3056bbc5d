/**
 * Any number of transactions replacing one user's roles at the same time (pkg/repository/roles_repo.go), statement
 * by statement under the default isolation: a DELETE takes the rows committed when it starts; an INSERT passes over
 * a role that a committed row assigns, and waits while another transaction deletes that row or has inserted the role.
 */
module RoleRaces {
  import opened Prelude
  import opened Counting
  import Roles

  type RoleId = Roles.RoleId
  type TxId = nat

  /** A row of the user, by its role and the transaction that inserted it. */
  datatype Version = Version(role: RoleId, tx: TxId)

  /** What the DELETE took, the roles inserted so far, and those still to insert. */
  datatype Tx = Tx(taken: set<Version>, added: set<RoleId>, left: seq<RoleId>)

  /** The committed rows, the transactions under way, those that committed, and all there have been. */
  datatype State = State(rows: set<Version>, open: map<TxId, Tx>, committed: set<TxId>, used: set<TxId>)

  datatype Event =
    | Delete(tx: TxId, list: seq<RoleId>)
    | Insert(tx: TxId)
    | Commit(tx: TxId)
    | Abort(tx: TxId)

  predicate IsAnother(s: State, tx: TxId, other: TxId) { other in s.open && other != tx }

  /** A committed row of the role that the transaction has not deleted. */
  predicate Conflicts(s: State, tx: TxId, r: RoleId, v: Version) {
    v in s.rows && v.role == r && tx in s.open && v !in s.open[tx].taken
  }

  /** Another transaction decides whether the role is assigned. */
  ghost predicate Waits(s: State, tx: TxId, r: RoleId) {
    exists other | IsAnother(s, tx, other) ::
      r in s.open[other].added || exists v | v in s.open[other].taken :: Conflicts(s, tx, r, v)
  }

  ghost predicate Passes(s: State, tx: TxId, r: RoleId) {
    tx in s.open && (r in s.open[tx].added || exists v | v in s.rows :: Conflicts(s, tx, r, v))
  }

  ghost function Apply(s: State, e: Event): State {
    match e
    case Delete(tx, list) =>
      if tx in s.used then s else s.(open := s.open[tx := Tx(s.rows, {}, list)], used := s.used + {tx})
    case Insert(tx) =>
      if tx !in s.open || s.open[tx].left == [] then s
      else
        var t := s.open[tx];
        var r := t.left[0];
        if Waits(s, tx, r) then s
        else if Passes(s, tx, r) then s.(open := s.open[tx := t.(left := t.left[1..])])
        else s.(open := s.open[tx := t.(added := t.added + {r}, left := t.left[1..])])
    case Commit(tx) =>
      if tx !in s.open || s.open[tx].left != [] then s
      else
        State(s.rows - s.open[tx].taken + Versions(s.open[tx].added, tx), s.open - {tx}, s.committed + {tx}, s.used)
    case Abort(tx) => s.(open := s.open - {tx})
  }

  function Versions(roles: set<RoleId>, tx: TxId): set<Version> {
    set r | r in roles :: Version(r, tx)
  }

  function RolesIn(rows: set<Version>): set<RoleId> {
    set v | v in rows :: v.role
  }

  ghost function Exec(s: State, schedule: seq<Event>): State
    decreases |schedule|
  {
    if schedule == [] then s else Exec(Apply(s, schedule[0]), schedule[1..])
  }

  ghost predicate Inv(s: State) {
    s.open.Keys <= s.used && s.committed <= s.used && s.committed !! s.open.Keys && Past(s, s.rows) &&
    forall k | k in s.open :: Past(s, s.open[k].taken)
  }

  /** Rows of transactions that are over. */
  predicate Past(s: State, rows: set<Version>) {
    forall v | v in rows :: v.tx in s.used && v.tx !in s.open
  }

  lemma ApplyKeeps(s: State, e: Event)
    requires Inv(s)
    ensures Inv(Apply(s, e))
  {
  }

  lemma {:induction false} ExecKeeps(s: State, schedule: seq<Event>)
    requires Inv(s)
    ensures Inv(Exec(s, schedule))
    decreases |schedule|
  {
    if schedule != [] {
      ApplyKeeps(s, schedule[0]);
      ExecKeeps(Apply(s, schedule[0]), schedule[1..]);
    }
  }

  // ---- what the last DELETE decides

  /** The roles a transaction has inserted or will still come to. */
  ghost function Claims(t: Tx): set<RoleId> {
    t.added + Elements(t.left)
  }

  ghost function ClaimsOf(open: map<TxId, Tx>, txs: set<TxId>): set<RoleId> {
    set k, r | k in open && k in txs && r in Claims(open[k]) :: r
  }

  /** Rows that came after the state s0. */
  ghost function NewRows(s0: State, s: State): set<Version> {
    set v | v in s.rows && v.tx in s0.open
  }

  /**
   * Since the state s0, in which the last DELETE has just run: what each transaction claimed it has claimed still or
   * finds assigned, and what came in is what the committed ones claimed.
   */
  ghost predicate Since(s0: State, s: State, last: TxId) {
    s.open.Keys <= s0.open.Keys &&
    (forall k | k in s.open ::
      s.open[k].taken == s0.open[k].taken && Claims(s.open[k]) <= Claims(s0.open[k]) &&
      Claims(s0.open[k]) <= Claims(s.open[k]) + RolesIn(NewRows(s0, s))) &&
    RolesIn(NewRows(s0, s)) == ClaimsOf(s0.open, s.committed) &&
    (forall v | v in s.rows :: v in s0.rows || v.tx in s0.open) &&
    (last in s.open || (last in s.committed && s.rows !! s0.rows))
  }

  /** An INSERT adds its role or finds it assigned by a row the last DELETE has not taken. */
  lemma InsertSince(s0: State, s: State, last: TxId, tx: TxId)
    requires Inv(s0) && Inv(s) && Since(s0, s, last) && last in s0.open && s0.open[last].taken == s0.rows
    ensures Since(s0, Apply(s, Insert(tx)), last)
  {
    var s' := Apply(s, Insert(tx));
    if s' != s {
      var t, r := s.open[tx], s.open[tx].left[0];
      assert Elements(t.left) == {r} + Elements(t.left[1..]);
      if r !in s'.open[tx].added { PassedOver(s0, s, last, tx, r); }
      assert NewRows(s0, s') == NewRows(s0, s);
    }
  }

  /** A role that is passed over is assigned by a row that came after. */
  lemma PassedOver(s0: State, s: State, last: TxId, tx: TxId, r: RoleId)
    requires Inv(s0) && Since(s0, s, last) && last in s0.open && s0.open[last].taken == s0.rows
    requires tx in s.open && !Waits(s, tx, r) && Passes(s, tx, r) && r !in s.open[tx].added
    ensures r in RolesIn(NewRows(s0, s))
  {
    var v :| v in s.rows && Conflicts(s, tx, r, v);
    if v in s0.rows { assert last in s.open && v in s.open[last].taken; }
  }

  /** What a COMMIT brings in is what is left of its claims, and no DELETE has taken it. */
  lemma CommitSince(s0: State, s: State, last: TxId, tx: TxId)
    requires Inv(s0) && Inv(s) && Since(s0, s, last) && last in s0.open && s0.open[last].taken == s0.rows
    ensures Since(s0, Apply(s, Commit(tx)), last)
  {
    var s' := Apply(s, Commit(tx));
    if tx in s.open && s.open[tx].left == [] {
      CommitBrings(s0, s, last, tx);
      assert s.open[tx].left == [] ==> Claims(s.open[tx]) == s.open[tx].added;
      assert ClaimsOf(s0.open, s'.committed) == ClaimsOf(s0.open, s.committed) + Claims(s0.open[tx]);
    }
  }

  lemma CommitBrings(s0: State, s: State, last: TxId, tx: TxId)
    requires Inv(s0) && Since(s0, s, last) && tx in s.open && s.open[tx].left == []
    ensures RolesIn(NewRows(s0, Apply(s, Commit(tx)))) == RolesIn(NewRows(s0, s)) + s.open[tx].added
  {
    var added := s.open[tx].added;
    assert Past(s0, s0.open[tx].taken);
    assert NewRows(s0, Apply(s, Commit(tx))) == NewRows(s0, s) + Versions(added, tx);
    RolesOfVersions(added, tx);
  }

  lemma RolesOfVersions(roles: set<RoleId>, tx: TxId)
    ensures RolesIn(Versions(roles, tx)) == roles
  {
    forall r | r in roles ensures r in RolesIn(Versions(roles, tx)) { assert Version(r, tx) in Versions(roles, tx); }
  }

  predicate NoDelete(schedule: seq<Event>) {
    forall e | e in schedule :: !e.Delete?
  }

  /** A transaction that is over stays so, committed or not. */
  lemma {:induction false} OverIsOver(s: State, schedule: seq<Event>, tx: TxId)
    requires tx in s.used && tx !in s.open
    ensures tx !in Exec(s, schedule).open && (tx in Exec(s, schedule).committed <==> tx in s.committed)
    decreases |schedule|
  {
    if schedule != [] { OverIsOver(Apply(s, schedule[0]), schedule[1..], tx); }
  }

  lemma {:induction false} ExecSince(s0: State, s: State, last: TxId, schedule: seq<Event>)
    requires Inv(s0) && Inv(s) && Since(s0, s, last) && last in s0.open && s0.open[last].taken == s0.rows
    requires NoDelete(schedule) && last in Exec(s, schedule).committed
    ensures Since(s0, Exec(s, schedule), last)
    decreases |schedule|
  {
    if schedule != [] {
      var e := schedule[0];
      ApplyKeeps(s, e);
      match e
      case Insert(tx) => InsertSince(s0, s, last, tx);
        ExecSince(s0, Apply(s, e), last, schedule[1..]);
      case Commit(tx) => CommitSince(s0, s, last, tx);
        ExecSince(s0, Apply(s, e), last, schedule[1..]);
      case Abort(tx) =>
        if tx == last && last in s.open { OverIsOver(Apply(s, e), schedule[1..], last); }
        else { ExecSince(s0, Apply(s, e), last, schedule[1..]); }
    }
  }

  /**
   * Any number of replacements, from the state in which the last DELETE starts on: once its transaction has
   * committed, the roles are those that the committed ones among the transactions then under way had inserted by
   * then or had still to come to. What any other had assigned is gone.
   */
  lemma Outcome(s: State, last: TxId, list: seq<RoleId>, schedule: seq<Event>)
    requires Inv(s) && last !in s.used && NoDelete(schedule)
    requires last in Exec(Apply(s, Delete(last, list)), schedule).committed
    ensures var s0 := Apply(s, Delete(last, list));
      var end := Exec(s0, schedule);
      RolesIn(end.rows) == ClaimsOf(s0.open, end.committed)
  {
    var s0 := Apply(s, Delete(last, list));
    var end := Exec(s0, schedule);
    ApplyKeeps(s, Delete(last, list));
    assert NewRows(s0, s0) == {} && ClaimsOf(s0.open, s0.committed) == {};
    ExecSince(s0, s0, last, schedule);
    ExecKeeps(s0, schedule);
    assert NewRows(s0, end) == end.rows;
  }

  /** No other transaction commits. */
  predicate OnlyCommits(schedule: seq<Event>, tx: TxId) {
    forall e | e in schedule && e.Commit? :: e.tx == tx
  }

  /**
   * A transaction has inserted, or has still to come to, its whole list at least until another commits: only a role
   * that one has assigned since its own DELETE can it have passed over.
   */
  lemma {:induction false} ClaimsAll(s: State, tx: TxId, schedule: seq<Event>)
    requires tx in s.open && tx in s.used && s.rows <= s.open[tx].taken && OnlyCommits(schedule, tx)
    ensures var end := Exec(s, schedule);
      tx in end.open ==> Claims(end.open[tx]) == Claims(s.open[tx])
    decreases |schedule|
  {
    if schedule != [] {
      var s' := Apply(s, schedule[0]);
      if tx in s'.open { ClaimsAll(s', tx, schedule[1..]); }
      else { OverIsOver(s', schedule[1..], tx); }
    }
  }

  // ---- two transactions

  /** The second DELETE starts when the first transaction has taken some of its steps, and both commit in the end. */
  ghost predicate TwoCommit(s: State, a: TxId, la: seq<RoleId>, between: seq<Event>, b: TxId, lb: seq<RoleId>,
                            after: seq<Event>)
  {
    var s2 := Exec(Apply(s, Delete(a, la)), between);
    var end := Exec(Apply(s2, Delete(b, lb)), after);
    Inv(s) && s.open == map[] && a !in s.used && b !in s.used && a != b &&
    (forall e | e in between :: e.tx == a && !e.Delete?) && NoDelete(after) &&
    a in end.committed && b in end.committed
  }

  lemma {:induction false} NoneElse(s: State, a: TxId, schedule: seq<Event>)
    requires s.open.Keys <= {a} && a in s.used && forall e | e in schedule :: e.tx == a
    ensures var end := Exec(s, schedule);
      end.open.Keys <= {a} && end.used == s.used && end.committed <= s.committed + {a}
    decreases |schedule|
  {
    if schedule != [] { NoneElse(Apply(s, schedule[0]), a, schedule[1..]); }
  }

  /**
   * Whatever the user's roles were before: the later of two transactions in a row decides, and two that overlap
   * leave the roles of both lists.
   */
  lemma OutcomeOfTwo(s: State, a: TxId, la: seq<RoleId>, between: seq<Event>, b: TxId, lb: seq<RoleId>,
                     after: seq<Event>)
    requires TwoCommit(s, a, la, between, b, lb, after)
    ensures var s2 := Exec(Apply(s, Delete(a, la)), between);
      RolesIn(Exec(Apply(s2, Delete(b, lb)), after).rows) ==
        if a in s2.committed then Elements(lb) else Elements(la) + Elements(lb)
  {
    var s1 := Apply(s, Delete(a, la));
    var s2 := Exec(s1, between);
    var s3 := Apply(s2, Delete(b, lb));
    var end := Exec(s3, after);
    ApplyKeeps(s, Delete(a, la));
    ExecKeeps(s1, between);
    NoneElse(s1, a, between);
    ApplyKeeps(s2, Delete(b, lb));
    Outcome(s2, b, lb, after);
    ClaimsAll(s1, a, between);
    assert Claims(s1.open[a]) == Elements(la) && Claims(s3.open[b]) == Elements(lb);
    if a in s2.open {
      assert ClaimsOf(s3.open, end.committed) == Claims(s3.open[a]) + Claims(s3.open[b]);
    } else {
      OverIsOver(s3, after, a);
      assert ClaimsOf(s3.open, end.committed) == Claims(s3.open[b]);
    }
  }

  /** The outcome is the list of one request exactly when they do not overlap or one list has all of the other. */
  lemma OneListIff(s: State, a: TxId, la: seq<RoleId>, between: seq<Event>, b: TxId, lb: seq<RoleId>,
                   after: seq<Event>)
    requires TwoCommit(s, a, la, between, b, lb, after)
    ensures var s2 := Exec(Apply(s, Delete(a, la)), between);
      RolesIn(Exec(Apply(s2, Delete(b, lb)), after).rows) in {Elements(la), Elements(lb)} <==>
        a in s2.committed || Elements(la) <= Elements(lb) || Elements(lb) <= Elements(la)
  {
    OutcomeOfTwo(s, a, la, between, b, lb, after);
    var first, second := Elements(la), Elements(lb);
    assert first + second == first <==> second <= first;
    assert first + second == second <==> first <= second;
  }

  // ---- one transaction alone

  function Inserts(tx: TxId, n: nat): seq<Event> {
    if n == 0 then [] else [Insert(tx)] + Inserts(tx, n - 1)
  }

  lemma {:induction false} InsertsAlone(s: State, tx: TxId)
    requires tx in s.open && s.open.Keys == {tx} && s.rows <= s.open[tx].taken
    ensures Exec(s, Inserts(tx, |s.open[tx].left|)) ==
      s.(open := map[tx := Tx(s.open[tx].taken, s.open[tx].added + Elements(s.open[tx].left), [])])
    decreases |s.open[tx].left|
  {
    var t := s.open[tx];
    if t.left == [] {
      assert Claims(t) == t.added && s.open == map[tx := t];
    } else {
      var s' := Apply(s, Insert(tx));
      assert Claims(s'.open[tx]) == Claims(t) by { assert Elements(t.left) == {t.left[0]} + Elements(t.left[1..]); }
      assert Inserts(tx, |t.left|)[1..] == Inserts(tx, |s'.open[tx].left|);
      InsertsAlone(s', tx);
    }
  }

  /** A transaction with nothing in between does to the user's roles what replacing them does. */
  lemma AloneIsReplace(db: Roles.Db, u: UserId, ids: seq<RoleId>, s: State, tx: TxId)
    requires Roles.Replace(db, u, ids).1.Ok? && s.open == map[] && tx !in s.used
    ensures var end := Apply(Exec(Apply(s, Delete(tx, ids)), Inserts(tx, |ids|)), Commit(tx));
      forall r :: r in RolesIn(end.rows) <==> (u, r) in Roles.Replace(db, u, ids).0.grants
  {
    var s1 := Apply(s, Delete(tx, ids));
    assert s1.open == map[tx := Tx(s.rows, {}, ids)] && {} + Elements(ids) == Elements(ids);
    InsertsAlone(s1, tx);
    AloneCommits(Exec(s1, Inserts(tx, |ids|)), tx, Elements(ids));
  }

  lemma AloneCommits(s: State, tx: TxId, list: set<RoleId>)
    requires s.open == map[tx := Tx(s.rows, list, [])]
    ensures RolesIn(Apply(s, Commit(tx)).rows) == list
  {
    RolesOfVersions(list, tx);
    assert s.rows - s.rows + Versions(list, tx) == Versions(list, tx);
  }
}
