/**
 * Resets of one token racing each other (internal/http/features/password/handler.go): what becomes of a request
 * that has validated its token, and exactly which of any number of resets of one token succeed.
 */
module ResetRaces {
  import opened Prelude
  import opened TokenTable
  import opened VerificationService
  import opened PasswordReset
  import Accounts = PasswordService

  /** How many steps of the request the schedule has. */
  function StepsOf(schedule: seq<Action>, id: RequestId): nat
    decreases |schedule|
  {
    if schedule == [] then 0 else (if schedule[0] == Run(id) then 1 else 0) + StepsOf(schedule[1..], id)
  }

  /** The state in which the request takes its k-th step from here, counted from zero. */
  function AtStep(w: World, schedule: seq<Action>, id: RequestId, k: nat): Option<World>
    decreases |schedule|
  {
    if schedule == [] then None
    else if schedule[0] != Run(id) then AtStep(Apply(w, schedule[0]), schedule[1..], id, k)
    else if k == 0 then Some(w)
    else AtStep(Apply(w, schedule[0]), schedule[1..], id, k - 1)
  }

  lemma OthersLeaveRequest(w: World, a: Action, id: RequestId)
    requires id in w.requests && a != Run(id)
    ensures id in Apply(w, a).requests && Apply(w, a).requests[id] == w.requests[id]
  {
  }

  lemma {:induction false} RevokingFate(w: World, id: RequestId, schedule: seq<Action>)
    requires id in w.requests && w.requests[id].Revoking?
    ensures var r, w' := w.requests[id], Exec(w, schedule);
      id in w'.requests && (w'.requests[id] == Finished(r.f, Done(r.user)) <==> StepsOf(schedule, id) >= 1)
    decreases |schedule|
  {
    if schedule != [] {
      if schedule[0] == Run(id) { FinishedStays(Apply(w, schedule[0]), id, schedule[1..]); }
      else {
        OthersLeaveRequest(w, schedule[0], id);
        RevokingFate(Apply(w, schedule[0]), id, schedule[1..]);
      }
    }
  }

  lemma {:induction false} MarkingFate(w: World, id: RequestId, schedule: seq<Action>)
    requires id in w.requests && w.requests[id].Marking?
    ensures var r, w' := w.requests[id], Exec(w, schedule);
      id in w'.requests && (w'.requests[id] == Finished(r.f, Done(r.user)) <==> StepsOf(schedule, id) >= 2)
    decreases |schedule|
  {
    if schedule != [] {
      if schedule[0] == Run(id) { RevokingFate(Apply(w, schedule[0]), id, schedule[1..]); }
      else {
        OthersLeaveRequest(w, schedule[0], id);
        MarkingFate(Apply(w, schedule[0]), id, schedule[1..]);
      }
    }
  }

  /** The token is valid in that state. */
  predicate Finds(w: Option<World>, h: TokenHash) {
    w.Some? && Check(w.value.db.store, h, PasswordReset, w.value.now).Ok?
  }

  lemma {:induction false} ConsumingFate(w: World, id: RequestId, schedule: seq<Action>)
    requires id in w.requests && w.requests[id].Consuming?
    ensures var r, w' := w.requests[id], Exec(w, schedule);
      id in w'.requests &&
      (w'.requests[id] == Finished(r.f, Done(r.user)) <==>
        StepsOf(schedule, id) >= if Finds(AtStep(w, schedule, id, 0), r.f.h) then 3 else 2)
    decreases |schedule|
  {
    if schedule != [] {
      var w1 := Apply(w, schedule[0]);
      if schedule[0] == Run(id) {
        if w1.requests[id].Marking? { MarkingFate(w1, id, schedule[1..]); }
        else { RevokingFate(w1, id, schedule[1..]); }
      } else {
        OthersLeaveRequest(w, schedule[0], id);
        ConsumingFate(w1, id, schedule[1..]);
      }
    }
  }

  /**
   * A reset that has validated its token succeeds exactly when its password is acceptable, the user has a credential
   * at its next step, and it takes its remaining steps: one fewer if the token is over where it reads it again, for
   * that does not matter otherwise.
   */
  lemma {:induction false} ValidatedFate(w: World, id: RequestId, schedule: seq<Action>)
    requires id in w.requests && w.requests[id].Changing?
    ensures var r, w' := w.requests[id], Exec(w, schedule);
      var changing := AtStep(w, schedule, id, 0);
      id in w'.requests &&
      (w'.requests[id] == Finished(r.f, Done(r.user)) <==>
        r.f.policyOk && changing.Some? && r.user in changing.value.db.accounts.creds &&
        StepsOf(schedule, id) >= if Finds(AtStep(w, schedule, id, 1), r.f.h) then 4 else 3)
    decreases |schedule|
  {
    if schedule != [] {
      var w1 := Apply(w, schedule[0]);
      if schedule[0] == Run(id) {
        if w1.requests[id].Consuming? { ConsumingFate(w1, id, schedule[1..]); }
        else { FinishedStays(w1, id, schedule[1..]); }
      } else {
        OthersLeaveRequest(w, schedule[0], id);
        ValidatedFate(w1, id, schedule[1..]);
      }
    }
  }

  // ---- any number of resets of one token

  predicate IsDone(w: World, id: RequestId) {
    id in w.requests && w.requests[id].Finished? && w.requests[id].answer.Done?
  }

  /** Resets of one valid token that have all come in and not begun. */
  predicate AllReady(w: World, ids: set<RequestId>, h: TokenHash, u: UserId) {
    Check(w.db.store, h, PasswordReset, w.now) == Ok(u) && u in w.db.accounts.creds &&
    forall id | id in ids ::
      id in w.requests && w.requests[id].Validating? && w.requests[id].f.h == h && w.requests[id].f.policyOk
  }

  /** Nothing but these resets ends the token, and the user stays. */
  ghost predicate Undisturbed(w: World, schedule: seq<Action>, ids: set<RequestId>, h: TokenHash, u: UserId) {
    forall t | 0 <= t < |schedule| ::
      schedule[t] != DeleteUser(u) &&
      (TokenOver(Exec(w, schedule[..t + 1]), h) ==>
        TokenOver(Exec(w, schedule[..t]), h) || (schedule[t].Run? && schedule[t].id in ids))
  }

  /**
   * Before the first step of the request, which validates, none of them has taken its fourth, which marks the token
   * as consumed.
   */
  predicate InTime(schedule: seq<Action>, id: RequestId, ids: set<RequestId>) {
    forall t | 0 <= t < |schedule| && schedule[t] == Run(id) && StepsOf(schedule[..t], id) == 0 ::
      forall q | q in ids :: StepsOf(schedule[..t], q) < 4
  }

  lemma {:induction false} ExecInTwo(w: World, s: seq<Action>, rest: seq<Action>)
    ensures Exec(w, s + rest) == Exec(Exec(w, s), rest)
    decreases |s|
  {
    if s == [] { assert s + rest == rest; }
    else {
      assert (s + rest)[1..] == s[1..] + rest;
      ExecInTwo(Apply(w, s[0]), s[1..], rest);
    }
  }

  lemma {:induction false} StepsInTwo(s: seq<Action>, rest: seq<Action>, id: RequestId)
    ensures StepsOf(s + rest, id) == StepsOf(s, id) + StepsOf(rest, id)
    decreases |s|
  {
    if s == [] { assert s + rest == rest; }
    else {
      assert (s + rest)[1..] == s[1..] + rest;
      StepsInTwo(s[1..], rest, id);
    }
  }

  lemma OneMoreStep(w: World, schedule: seq<Action>, t: nat)
    requires t < |schedule|
    ensures Exec(w, schedule[..t + 1]) == Apply(Exec(w, schedule[..t]), schedule[t])
    ensures forall id ::
      StepsOf(schedule[..t + 1], id) == StepsOf(schedule[..t], id) + if schedule[t] == Run(id) then 1 else 0
  {
    var a := schedule[t];
    assert schedule[..t + 1] == schedule[..t] + [a] && [a][1..] == [];
    ExecInTwo(w, schedule[..t], [a]);
    forall id ensures StepsOf(schedule[..t + 1], id) == StepsOf(schedule[..t], id) + if a == Run(id) then 1 else 0 {
      StepsInTwo(schedule[..t], [a], id);
    }
  }

  /** Where a reset of a token that is not over is after k steps. */
  function Stage(f: Form, u: UserId, k: nat): Request {
    if k == 0 then Validating(f) else if k == 1 then Changing(f, u)
    else if k == 2 then Consuming(f, u) else Marking(f, u)
  }

  /** The row of the token, while it is there. */
  predicate RowIs(w: World, h: TokenHash, u: UserId) {
    h in w.issued && u in w.db.accounts.creds &&
    (h in w.db.store.tokens ==> w.db.store.tokens[h].kind == PasswordReset && w.db.store.tokens[h].userId == u)
  }

  lemma RowStays(w: World, a: Action, h: TokenHash, u: UserId)
    requires RowIs(w, h, u) && a != DeleteUser(u)
    ensures RowIs(Apply(w, a), h, u)
  {
    if h in Apply(w, a).db.store.tokens { KindStays(w, a, h); }
  }

  /** A step of one of them while the token is not over: only the fourth ends it. */
  lemma StepOnStage(w: World, id: RequestId, f: Form, u: UserId, k: nat)
    requires RowIs(w, f.h, u) && !TokenOver(w, f.h) && f.policyOk && k < 4
    requires id in w.requests && w.requests[id] == Stage(f, u, k)
    ensures TokenOver(Advance(w, id), f.h) <==> k == 3
    ensures k < 3 ==> Advance(w, id).requests[id] == Stage(f, u, k + 1)
  {
  }

  /** What the steps the resets have taken say of the token and of them. */
  ghost predicate OnStage(w: World, w': World, taken: RequestId -> nat, ids: set<RequestId>, h: TokenHash, u: UserId) {
    RowIs(w', h, u) && (TokenOver(w', h) <==> exists q | q in ids :: taken(q) >= 4) &&
    (!TokenOver(w', h) ==>
      forall id | id in ids :: id in w.requests && id in w'.requests && taken(id) < 4 &&
        w'.requests[id] == Stage(w.requests[id].f, u, taken(id)))
  }

  function Taken(s: seq<Action>): RequestId -> nat {
    id => StepsOf(s, id)
  }

  lemma {:induction false} StaysOnStage(w: World, schedule: seq<Action>, ids: set<RequestId>, h: TokenHash, u: UserId,
                                        t: nat)
    requires Inv(w) && AllReady(w, ids, h, u) && Undisturbed(w, schedule, ids, h, u) && t <= |schedule|
    ensures OnStage(w, Exec(w, schedule[..t]), Taken(schedule[..t]), ids, h, u)
  {
    if t > 0 {
      var a, s, s' := schedule[t - 1], schedule[..t - 1], schedule[..t];
      StaysOnStage(w, schedule, ids, h, u, t - 1);
      OneMoreStep(w, schedule, t - 1);
      var w1 := Exec(w, s);
      assert TokenOver(Exec(w, schedule[..t - 1 + 1]), h) ==> TokenOver(w1, h) || (a.Run? && a.id in ids);
      NextOnStage(w, w1, a, Taken(s), Taken(s'), ids, h, u);
    }
  }

  lemma NextOnStage(w: World, w1: World, a: Action, taken: RequestId -> nat, taken': RequestId -> nat,
                    ids: set<RequestId>, h: TokenHash, u: UserId)
    requires AllReady(w, ids, h, u) && OnStage(w, w1, taken, ids, h, u) && a != DeleteUser(u)
    requires forall id :: taken'(id) == taken(id) + if a == Run(id) then 1 else 0
    requires TokenOver(Apply(w1, a), h) ==> TokenOver(w1, h) || (a.Run? && a.id in ids)
    ensures OnStage(w, Apply(w1, a), taken', ids, h, u)
  {
    RowStays(w1, a, h, u);
    if TokenOver(w1, h) {
      TokenStepOver(w1, a, h);
      var q :| q in ids && taken(q) >= 4;
      assert taken'(q) >= 4;
    } else if a.Run? && a.id in ids { OwnOnStage(w, w1, a, taken, taken', ids, h, u); }
    else { OthersOnStage(w, w1, a, taken, taken', ids, h, u); }
  }

  /** One of them takes a step. */
  lemma OwnOnStage(w: World, w1: World, a: Action, taken: RequestId -> nat, taken': RequestId -> nat,
                   ids: set<RequestId>, h: TokenHash, u: UserId)
    requires AllReady(w, ids, h, u) && OnStage(w, w1, taken, ids, h, u) && a.Run? && a.id in ids
    requires forall id :: taken'(id) == taken(id) + if a == Run(id) then 1 else 0
    requires !TokenOver(w1, h) && RowIs(Apply(w1, a), h, u)
    ensures OnStage(w, Apply(w1, a), taken', ids, h, u)
  {
    forall id | id in ids && a != Run(id) ensures Apply(w1, a).requests[id] == w1.requests[id] {
      OthersLeaveRequest(w1, a, id);
    }
    StepOnStage(w1, a.id, w.requests[a.id].f, u, taken(a.id));
  }

  lemma OthersOnStage(w: World, w1: World, a: Action, taken: RequestId -> nat, taken': RequestId -> nat,
                      ids: set<RequestId>, h: TokenHash, u: UserId)
    requires OnStage(w, w1, taken, ids, h, u) && !(a.Run? && a.id in ids)
    requires forall id :: taken'(id) == taken(id) + if a == Run(id) then 1 else 0
    requires !TokenOver(w1, h) && !TokenOver(Apply(w1, a), h) && RowIs(Apply(w1, a), h, u)
    ensures OnStage(w, Apply(w1, a), taken', ids, h, u)
  {
    forall id | id in ids ensures id in Apply(w1, a).requests && Apply(w1, a).requests[id] == w1.requests[id] {
      OthersLeaveRequest(w1, a, id);
    }
  }

  lemma {:induction false} FirstStep(schedule: seq<Action>, id: RequestId) returns (t: nat)
    requires StepsOf(schedule, id) > 0
    ensures t < |schedule| && schedule[t] == Run(id) && StepsOf(schedule[..t], id) == 0
    decreases |schedule|
  {
    if schedule[0] == Run(id) { t := 0; }
    else {
      var s := FirstStep(schedule[1..], id);
      t := s + 1;
      assert schedule[..t][1..] == schedule[1..][..s];
    }
  }

  lemma {:induction false} NotBegun(w: World, s: seq<Action>, id: RequestId)
    requires id in w.requests && StepsOf(s, id) == 0
    ensures id in Exec(w, s).requests && Exec(w, s).requests[id] == w.requests[id]
    decreases |s|
  {
    if s != [] {
      OthersLeaveRequest(w, s[0], id);
      NotBegun(Apply(w, s[0]), s[1..], id);
    }
  }

  lemma {:induction false} CredentialThere(w: World, s: seq<Action>, id: RequestId, u: UserId)
    requires u in w.db.accounts.creds && DeleteUser(u) !in s && StepsOf(s, id) > 0
    ensures AtStep(w, s, id, 0).Some? && u in AtStep(w, s, id, 0).value.db.accounts.creds
    decreases |s|
  {
    if s[0] != Run(id) { CredentialThere(Apply(w, s[0]), s[1..], id, u); }
  }

  /**
   * Any number of resets of one valid token, from any reachable state and in any interleaving in which they take all
   * their steps and nothing else ends the token: those that succeed are exactly those that validate before the first
   * of them consumes it.
   */
  lemma SuccessesExactly(before: seq<Action>, schedule: seq<Action>, ids: set<RequestId>, h: TokenHash, u: UserId,
                         id: RequestId)
    requires AllReady(Exec(START, before), ids, h, u) && Undisturbed(Exec(START, before), schedule, ids, h, u)
    requires id in ids && forall q | q in ids :: StepsOf(schedule, q) >= 5
    ensures IsDone(Exec(Exec(START, before), schedule), id) <==> InTime(schedule, id, ids)
  {
    var w := Exec(START, before);
    ExecKeeps(START, before);
    var t := FirstStep(schedule, id);
    StaysOnStage(w, schedule, ids, h, u, t);
    OnlyFirst(schedule, id, t);
    NotBegun(w, schedule[..t], id);
    var w1, rest := Exec(w, schedule[..t]), schedule[t..];
    assert schedule == schedule[..t] + rest;
    ExecInTwo(w, schedule[..t], rest);
    StepsInTwo(schedule[..t], rest, id);
    if TokenOver(w1, h) { LateValidationFails(w1, id, rest); }
    else {
      var w2 := Apply(w1, Run(id));
      RowStays(w1, Run(id), h, u);
      CredentialThere(w2, rest[1..], id, u);
      ValidatedFate(w2, id, rest[1..]);
    }
  }

  /** There is one first step. */
  lemma OnlyFirst(schedule: seq<Action>, id: RequestId, t: nat)
    requires t < |schedule| && schedule[t] == Run(id) && StepsOf(schedule[..t], id) == 0
    ensures forall s | 0 <= s < |schedule| && schedule[s] == Run(id) && StepsOf(schedule[..s], id) == 0 :: s == t
  {
    forall s | 0 <= s < |schedule| && schedule[s] == Run(id) && StepsOf(schedule[..s], id) == 0 ensures s == t {
      if s < t { StepsGrow(schedule, id, s, t); }
      if t < s { StepsGrow(schedule, id, t, s); }
    }
  }

  lemma StepsGrow(schedule: seq<Action>, id: RequestId, s: nat, t: nat)
    requires s < t <= |schedule| && schedule[s] == Run(id)
    ensures StepsOf(schedule[..t], id) > 0
  {
    assert schedule[..t] == schedule[..s] + schedule[s..t];
    StepsInTwo(schedule[..s], schedule[s..t], id);
  }

  /** Of two: both succeed exactly when each validates before the other consumes. */
  lemma BothSucceedIff(before: seq<Action>, schedule: seq<Action>, i: RequestId, j: RequestId, h: TokenHash, u: UserId)
    requires AllReady(Exec(START, before), {i, j}, h, u) && Undisturbed(Exec(START, before), schedule, {i, j}, h, u)
    requires StepsOf(schedule, i) >= 5 && StepsOf(schedule, j) >= 5
    ensures var w := Exec(Exec(START, before), schedule);
      IsDone(w, i) && IsDone(w, j) <==> InTime(schedule, i, {j}) && InTime(schedule, j, {i})
  {
    SuccessesExactly(before, schedule, {i, j}, h, u, i);
    SuccessesExactly(before, schedule, {i, j}, h, u, j);
  }

  // ---- such a race

  ghost predicate Reachable(w: World) {
    exists schedule :: Exec(START, schedule) == w
  }

  lemma StepReachable(w: World, a: Action)
    requires Reachable(w)
    ensures Reachable(Apply(w, a))
  {
    var schedule :| Exec(START, schedule) == w;
    ExecInTwo(START, schedule, [a]);
    assert [a][1..] == [];
  }

  /** A new account with a reset token. */
  lemma TokenSent(row: Accounts.User, h: TokenHash) returns (w: World)
    ensures Reachable(w) && w.requests == map[] && w.now == 0
    ensures w.db.store.tokens == map[h := Token(0, PasswordReset, 10, None)] && 0 in w.db.accounts.creds
  {
    assert Exec(START, []) == START;
    var w1 := Apply(START, Register(0, row, "old"));
    StepReachable(START, Register(0, row, "old"));
    assert RevokeActive(w1.db.store.tokens, 0, PasswordReset, 0) == map[];
    StepReachable(w1, NewToken(0, PasswordReset, h, 10));
    w := Apply(w1, NewToken(0, PasswordReset, h, 10));
  }

  /** Two resets that have both validated it. */
  lemma BothValidated(row: Accounts.User, f: Form, g: Form) returns (w: World)
    requires f.h == g.h
    ensures Reachable(w) && w.requests == map[1 := Changing(f, 0), 2 := Changing(g, 0)] && 0 in w.db.accounts.creds
  {
    var w0 := TokenSent(row, f.h);
    var w1 := Apply(w0, Arrive(1, f));
    StepReachable(w0, Arrive(1, f));
    var w2 := Apply(w1, Arrive(2, g));
    StepReachable(w1, Arrive(2, g));
    var w3 := Apply(w2, Run(1));
    StepReachable(w2, Run(1));
    StepReachable(w3, Run(2));
    w := Apply(w3, Run(2));
  }

  /** The remaining steps of a request that has validated. */
  lemma RestOfReset(w: World, id: RequestId) returns (w': World)
    requires Reachable(w) && id in w.requests && w.requests[id].Changing?
    requires w.requests[id].f.policyOk && w.requests[id].user in w.db.accounts.creds
    ensures var r := w.requests[id];
      Reachable(w') && w'.requests == w.requests[id := Finished(r.f, Done(r.user))] &&
      w'.db.accounts.creds == w.db.accounts.creds[r.user := r.f.hash]
  {
    var r := w.requests[id];
    StepReachable(w, Run(id));
    var w1 := Apply(w, Run(id));
    assert w1.requests[id] == Consuming(r.f, r.user);
    w' := EndOfReset(w1, id);
  }

  lemma EndOfReset(w: World, id: RequestId) returns (w': World)
    requires Reachable(w) && id in w.requests && w.requests[id].Consuming?
    ensures var r := w.requests[id];
      Reachable(w') && w'.requests == w.requests[id := Finished(r.f, Done(r.user))] && w'.db.accounts == w.db.accounts
  {
    StepReachable(w, Run(id));
    w' := Apply(w, Run(id));
    if w'.requests[id].Marking? {
      StepReachable(w', Run(id));
      w' := Apply(w', Run(id));
    }
    StepReachable(w', Run(id));
    w' := Apply(w', Run(id));
  }

  /** Two resets by one token that both succeed: the later password is the one that is stored. */
  lemma OneTokenTwoResets(row: Accounts.User, f: Form, g: Form) returns (w: World)
    requires f.h == g.h && f.policyOk && g.policyOk
    ensures Reachable(w) && IsDone(w, 1) && IsDone(w, 2) && w.requests[1].f == f && w.requests[2].f == g
    ensures 0 in w.db.accounts.creds && w.db.accounts.creds[0] == g.hash
  {
    var w0 := BothValidated(row, f, g);
    var w1 := RestOfReset(w0, 1);
    w := RestOfReset(w1, 2);
  }
}
