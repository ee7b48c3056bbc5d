/**
 * The MFA requests that interleave statement by statement are those of the service: with nothing in between, each
 * leaves the tables and gives the answer of the service function, and cut short it leaves what the storage failing at
 * that point leaves (pkg/auth/mfa.go).
 */
module EnrolmentAlone {
  import opened Prelude
  import opened MfaEnrolment
  import opened EnrolmentRaces
  import H = MfaHistory

  /** n steps of one request with nothing in between. */
  function Solo(id: RequestId, n: nat): seq<Action> {
    if n == 0 then [] else [Run(id)] + Solo(id, n - 1)
  }

  lemma SoloStep(w: World, id: RequestId, n: nat)
    requires id in w.requests && n > 0
    ensures Exec(w, Solo(id, n)) == Exec(Advance(w, id), Solo(id, n - 1))
  {
    assert Solo(id, n)[1..] == Solo(id, n - 1);
  }

  lemma {:induction false} OverIdles(w: World, id: RequestId, n: nat)
    requires id in w.requests && w.requests[id].Over?
    ensures Exec(w, Solo(id, n)) == w
    decreases n
  {
    if n > 0 {
      SoloStep(w, id, n);
      OverIdles(w, id, n - 1);
    }
  }

  /** The request is over with this answer, and the tables are these. */
  ghost predicate Answered(w: World, id: RequestId, db: Db, answer: Answer) {
    id in w.requests && w.requests[id].Over? && id in w.answers && w.answers[id] == answer && w.db == db
  }

  lemma EndsIn(w: World, id: RequestId, n: nat, db: Db, answer: Answer)
    requires id in w.requests && n > 0 && Answered(Advance(w, id), id, db, answer)
    ensures Answered(Exec(w, Solo(id, n)), id, db, answer)
  {
    SoloStep(w, id, n);
    OverIdles(Advance(w, id), id, n - 1);
  }

  lemma {:induction false} ExecInTwo(w: World, s: seq<Action>, rest: seq<Action>)
    ensures Exec(w, s + rest) == Exec(Exec(w, s), rest)
    decreases |s|
  {
    if s == [] { assert s + rest == rest; }
    else {
      assert (s + rest)[1..] == s[1..] + rest;
      ExecInTwo(Apply(w, s[0]), s[1..], rest);
    }
  }

  lemma {:induction false} SoloInTwo(id: RequestId, m: nat, n: nat)
    ensures Solo(id, m + n) == Solo(id, m) + Solo(id, n)
    decreases m
  {
    if m > 0 { SoloInTwo(id, m - 1, n); }
  }

  // ---- setup

  /** The first writes of a setup. */
  lemma SetupWrites(w: World, id: RequestId, k: nat) returns (w': World)
    requires FreshDraws(w) && id in w.requests && w.requests[id].SettingUp? && w.requests[id].done == 0
    requires w.requests[id].user in w.db.users && !w.db.users[w.requests[id].user] && k <= 3
    ensures w' == Exec(w, Solo(id, k)) && FreshDraws(w')
    ensures var r := w.requests[id];
      w'.db == SetupTotp(w.db, r.user, r.secret, r.ids, k).0 &&
      id in w'.requests && w'.requests[id] == SettingUp(r.user, r.secret, r.ids, k)
  {
    w' := w;
    if k > 0 {
      SoloStep(w, id, k);
      RunFresh(w, id);
      w' := Advance(w, id);
      if k > 1 {
        SoloStep(w', id, k - 1);
        RunFresh(w', id);
        w' := Advance(w', id);
        if k > 2 {
          SoloStep(w', id, k - 2);
          RunFresh(w', id);
          assert SecretsOf(w'.db, w.requests[id].user) == {};
          assert Waiting(w', w'.requests[id]);
          w' := Advance(w', id);
        }
      }
    }
  }

  lemma SetupCodes(w: World, id: RequestId)
    requires FreshDraws(w) && id in w.requests && w.requests[id].SettingUp? && w.requests[id].done == 3
    requires w.requests[id].user in w.db.users
    ensures var r := w.requests[id];
      InsertCodes(w.db.codes, r.user, r.ids).Some? &&
      Answered(Advance(w, id), id, w.db.(codes := InsertCodes(w.db.codes, r.user, r.ids).value), Ok(()))
  {
    assert Waiting(w, w.requests[id]);
    H.InsertCodesIff(w.db.codes, w.requests[id].user, w.requests[id].ids);
  }

  /** What a setup that has been let in leaves at the end. */
  function AllWritten(db: Db, r: Request): Db
    requires r.SettingUp? && InsertCodes(SetupTotp(db, r.user, r.secret, r.ids, 3).0.codes, r.user, r.ids).Some?
  {
    var db3 := SetupTotp(db, r.user, r.secret, r.ids, 3).0;
    db3.(codes := InsertCodes(db3.codes, r.user, r.ids).value)
  }

  lemma AllWrites(w: World, id: RequestId, n: nat)
    requires FreshDraws(w) && id in w.requests && w.requests[id].SettingUp? && w.requests[id].done == 0
    requires w.requests[id].user in w.db.users && !w.db.users[w.requests[id].user] && n > 0
    ensures var r := w.requests[id];
      InsertCodes(SetupTotp(w.db, r.user, r.secret, r.ids, 3).0.codes, r.user, r.ids).Some? &&
      Answered(Exec(w, Solo(id, 3 + n)), id, AllWritten(w.db, r), Ok(()))
  {
    SoloInTwo(id, 3, n);
    var w' := SetupWrites(w, id, 3);
    SetupCodes(w', id);
    ExecInTwo(w, Solo(id, 3), Solo(id, n));
    EndsIn(w', id, n, AllWritten(w.db, w.requests[id]), Ok(()));
  }

  lemma SecretFits(w: World, id: RequestId)
    requires FreshDraws(w) && id in w.requests && w.requests[id].SettingUp? && w.requests[id].done == 0
    requires w.requests[id].user in w.db.users
    ensures var r := w.requests[id]; CanInsertSecret(DeleteCodes(DeleteSecrets(w.db, r.user), r.user), r.secret, r.user)
  {
    var u := w.requests[id].user;
    assert Waiting(w, w.requests[id]);
    assert SecretsOf(DeleteCodes(DeleteSecrets(w.db, u), u), u) == {};
  }

  /** The fourth write puts in the codes, and is the last. */
  lemma SetupEnds(db: Db, r: Request, k: nat)
    requires r.SettingUp? && r.user in db.users && !db.users[r.user] && k > 3
    requires CanInsertSecret(DeleteCodes(DeleteSecrets(db, r.user), r.user), r.secret, r.user)
    requires InsertCodes(SetupTotp(db, r.user, r.secret, r.ids, 3).0.codes, r.user, r.ids).Some?
    ensures SetupTotp(db, r.user, r.secret, r.ids, k).0 == AllWritten(db, r)
    ensures SetupTotp(db, r.user, r.secret, r.ids, 5) == (AllWritten(db, r), Ok(()))
  {
  }

  /**
   * A setup alone does what the service function does: after its check and any number of writes the tables are those
   * that this many writes leave, and at the end it has given that answer.
   */
  lemma SoloSetup(w: World, id: RequestId, k: nat)
    requires FreshDraws(w) && id in w.requests && w.requests[id].SetupChecking?
    ensures var r := w.requests[id];
      Exec(w, Solo(id, k + 1)).db == SetupTotp(w.db, r.user, r.secret, r.ids, k).0 &&
      (k >= 4 ==>
        var (db, answer) := SetupTotp(w.db, r.user, r.secret, r.ids, 5);
        Answered(Exec(w, Solo(id, k + 1)), id, db, answer))
  {
    SoloStep(w, id, k + 1);
    RunFresh(w, id);
    var w' := Advance(w, id);
    if w'.requests[id].Over? { OverIdles(w', id, k); }
    else if k <= 3 { var _ := SetupWrites(w', id, k); }
    else {
      AllWrites(w', id, k - 3);
      SecretFits(w', id);
      SetupEnds(w'.db, w'.requests[id], k);
    }
  }

  // ---- enable, disable, use of a code

  /** An enable alone; its second write only notes that the secret was used. */
  lemma SoloEnable(w: World, id: RequestId, k: nat)
    requires id in w.requests && w.requests[id].EnableReading?
    ensures var r := w.requests[id];
      Exec(w, Solo(id, k + 1)).db == VerifyTotpAndEnable(w.db, r.user, r.codeOk, k).0 &&
      (k >= 1 ==>
        var (db, answer) := VerifyTotpAndEnable(w.db, r.user, r.codeOk, 2);
        Answered(Exec(w, Solo(id, k + 1)), id, db, answer))
  {
    var r, w1 := w.requests[id], Advance(w, id);
    SoloStep(w, id, k + 1);
    if w1.requests[id].Over? { OverIdles(w1, id, k); }
    else if k >= 1 {
      var (db, answer) := VerifyTotpAndEnable(w.db, r.user, r.codeOk, 2);
      EndsIn(w1, id, k, db, answer);
    }
  }

  /** The last write of a disable. */
  lemma DisableEnds(w: World, id: RequestId, n: nat, before: Db, u: UserId)
    requires id in w.requests && w.requests[id] == Disabling(u, 2) && w.db == DisableMfa(before, u, 2).0 && n > 0
    ensures Answered(Exec(w, Solo(id, n)), id, DisableMfa(before, u, 4).0, DisableMfa(before, u, 4).1)
    ensures DisableMfa(before, u, 4).0 == DisableMfa(before, u, n + 2).0
  {
    EndsIn(w, id, n, DisableMfa(before, u, 4).0, DisableMfa(before, u, 4).1);
  }

  /** A disable alone. */
  lemma SoloDisable(w: World, id: RequestId, k: nat)
    requires id in w.requests && w.requests[id].Disabling? && w.requests[id].done == 0
    ensures var u := w.requests[id].user;
      Exec(w, Solo(id, k)).db == DisableMfa(w.db, u, k).0 &&
      (k >= 3 ==> var (db, answer) := DisableMfa(w.db, u, 4); Answered(Exec(w, Solo(id, k)), id, db, answer))
  {
    var u := w.requests[id].user;
    if k > 0 {
      SoloStep(w, id, k);
      var w1 := Advance(w, id);
      assert w1.requests[id] == Disabling(u, 1);
      if k > 1 {
        SoloStep(w1, id, k - 1);
        var w2 := Advance(w1, id);
        assert w2.requests[id] == Disabling(u, 2) && w2.db == DisableMfa(w.db, u, 2).0;
        if k > 2 { DisableEnds(w2, id, k - 2, w.db, u); }
      }
    }
  }

  /** A use of a recovery code alone. */
  lemma SoloUse(w: World, id: RequestId, k: nat)
    requires id in w.requests && w.requests[id].LookingUp? && k >= 2
    ensures var r := w.requests[id];
      var (db, answer) := UseRecoveryCode(w.db, r.user, r.lookup, 0, 1);
      Answered(Exec(w, Solo(id, k)), id, db, answer)
  {
    var r := w.requests[id];
    SoloStep(w, id, k);
    var w1 := Advance(w, id);
    if w1.requests[id].Over? { OverIdles(w1, id, k - 1); }
    else {
      var (db, answer) := UseRecoveryCode(w.db, r.user, r.lookup, 0, 1);
      EndsIn(w1, id, k - 1, db, answer);
    }
  }
}
