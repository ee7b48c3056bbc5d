/**
 * Resetting a password with an emailed token (internal/http/features/password/handler.go): validate the token,
 * change the password, consume the token and revoke the user's sessions, each a step of its own. Any number of
 * resets and other requests may run in between.
 */
module PasswordReset {
  import opened Prelude
  import opened TokenTable
  import opened VerificationService
  import Accounts = PasswordService
  import Phc
  import Sessions = SessionTable

  type SessionHash = Sessions.SessionHash

  datatype Db = Db(accounts: Accounts.Db, store: Store, sessions: Sessions.Table)

  datatype Response = Done(user: UserId) | BadRequest(error: TokenError) | ServerError

  /** The token a client sends, and of the new password its hash under a drawn salt and the verdict of the policy. */
  datatype Form = Form(h: TokenHash, hash: string, policyOk: bool)

  /** The handler as a function on table values. */
  function ResetPassword(db: Db, f: Form, now: int): (Db, Response) {
    var user := Check(db.store, f.h, PasswordReset, now);
    if user.Err? then (db, BadRequest(user.error))
    else
      var (accounts, changed) := Accounts.SetPassword(db.accounts, user.value, f.hash, f.policyOk);
      if changed.Err? then (db, ServerError)
      else
        (Db(accounts, ConsumeReset(db.store, f.h, now).0, Sessions.RevokeAll(db.sessions, user.value, now)),
         Done(user.value))
  }

  class Handler {
    const passwords: Accounts.Service
    const verification: Service
    var sessions: Sessions.Table

    constructor (passwords: Accounts.Service, verification: Service)
      ensures this.passwords == passwords && this.verification == verification && sessions == map[]
    {
      this.passwords, this.verification, sessions := passwords, verification, map[];
    }

    ghost function State(): Db
      reads this, passwords, verification, verification.db
    {
      Db(passwords.State(), verification.db.State(), sessions)
    }

    /** POST /v1/auth/password/reset */
    method PostReset(h: TokenHash, password: string, salt: seq<byte>, policyOk: bool, now: int)
      returns (answer: Response)
      modifies this, passwords, verification.db
      ensures var f := Form(h, Phc.HashPassword(passwords.kdf, password, salt), policyOk);
        (State(), answer) == ResetPassword(old(State()), f, now)
    {
      var user := verification.ValidatePasswordResetToken(h, now);
      if user.Err? {
        return BadRequest(user.error);
      }
      var changed := passwords.ChangePassword(user.value, password, salt, policyOk);
      if changed.Err? {
        return ServerError;
      }
      var _ := verification.ConsumePasswordResetToken(h, now);
      sessions := Sessions.RevokeAll(sessions, user.value, now);
      return Done(user.value);
    }
  }

  // ---- the handler among other requests

  type RequestId = nat

  datatype Request =
    | Validating(f: Form)
    | Changing(f: Form, user: UserId)
    | Consuming(f: Form, user: UserId)
    | Marking(f: Form, user: UserId)
    | Revoking(f: Form, user: UserId)
    | Finished(f: Form, answer: Response)

  datatype Action =
    | Arrive(id: RequestId, f: Form)
    | Run(id: RequestId)
    | Register(user: UserId, row: Accounts.User, hash: string)
    | ChangePassword(user: UserId, hash: string)
    | DeleteUser(user: UserId)
    | NewToken(user: UserId, kind: Kind, h: TokenHash, ttl: int)
    | RedeemEmail(h: TokenHash)
    | NewSession(user: UserId, s: SessionHash, ttl: int)
    | TouchSession(s: SessionHash)
    | Logout(s: SessionHash)
    | LogoutAll(user: UserId)
    | Collect(cutoff: int)
    | Tick(d: nat)

  /** The tables and requests, with every token hash drawn and the user every session was issued to. */
  datatype World = World(db: Db, now: int, requests: map<RequestId, Request>,
                         issued: set<TokenHash>, owner: map<SessionHash, UserId>)

  const START := World(Db(Accounts.Db(map[], map[]), Store(map[], map[]), map[]), 0, map[], {}, map[])

  function Set(w: World, id: RequestId, r: Request): World {
    w.(requests := w.requests[id := r])
  }

  function Advance(w: World, id: RequestId): World
    requires id in w.requests
  {
    match w.requests[id]
    case Validating(f) =>
      var user := Check(w.db.store, f.h, PasswordReset, w.now);
      Set(w, id, if user.Ok? then Changing(f, user.value) else Finished(f, BadRequest(user.error)))
    case Changing(f, u) =>
      var (accounts, changed) := Accounts.SetPassword(w.db.accounts, u, f.hash, f.policyOk);
      Set(w.(db := w.db.(accounts := accounts)), id, if changed.Ok? then Consuming(f, u) else Finished(f, ServerError))
    case Consuming(f, u) =>
      // the token is read once more, and marked in a statement of its own
      Set(w, id, if Check(w.db.store, f.h, PasswordReset, w.now).Ok? then Marking(f, u) else Revoking(f, u))
    case Marking(f, u) =>
      Set(w.(db := w.db.(store := Consume(w.db.store, f.h, w.now))), id, Revoking(f, u))
    case Revoking(f, u) =>
      Set(w.(db := w.db.(sessions := Sessions.RevokeAll(w.db.sessions, u, w.now))), id, Finished(f, Done(u)))
    case Finished(f, answer) => w
  }

  function WithSessions(w: World, t: Sessions.Table): World { w.(db := w.db.(sessions := t)) }

  function WithStore(w: World, s: Store): World { w.(db := w.db.(store := s)) }

  function WithAccounts(w: World, a: Accounts.Db): World { w.(db := w.db.(accounts := a)) }

  function Apply(w: World, a: Action): World {
    match a
    case Arrive(id, f) => if id in w.requests then w else Set(w, id, Validating(f))
    case Run(id) => if id in w.requests then Advance(w, id) else w
    case Register(u, row, hash) =>
      if u in w.db.accounts.users then w
      else WithStore(WithAccounts(w, Accounts.Db(w.db.accounts.users[u := row], w.db.accounts.creds[u := hash])),
                     w.db.store.(users := w.db.store.users[u := false]))
    case ChangePassword(u, hash) => WithAccounts(w, Accounts.SetPassword(w.db.accounts, u, hash, true).0)
    case DeleteUser(u) =>
      w.(db := Db(Accounts.Db(w.db.accounts.users - {u}, w.db.accounts.creds - {u}),
                  Store(w.db.store.users - {u}, CascadeUser(w.db.store.tokens, u)),
                  Sessions.CascadeUser(w.db.sessions, u)))
    case NewToken(u, kind, h, ttl) =>
      // the random source never repeats a token
      if h in w.issued then w
      else WithStore(w, CreateToken(w.db.store, u, kind, h, w.now, ttl).0).(issued := w.issued + {h})
    case RedeemEmail(h) => WithStore(w, VerifyEmail(w.db.store, h, w.now).0)
    case NewSession(u, s, ttl) =>
      if s in w.owner || u !in w.db.accounts.users then w
      else WithSessions(w, w.db.sessions[s := Sessions.Session(u, w.now, w.now + ttl, None, None, None)])
        .(owner := w.owner[s := u])
    case TouchSession(s) => WithSessions(w, Sessions.Touch(w.db.sessions, s, w.now))
    case Logout(s) => WithSessions(w, Sessions.Revoke(w.db.sessions, s, w.now))
    case LogoutAll(u) => WithSessions(w, Sessions.RevokeAll(w.db.sessions, u, w.now))
    case Collect(cutoff) => WithSessions(w, Sessions.Collect(w.db.sessions, cutoff))
    case Tick(d) => w.(now := w.now + d)
  }

  function Exec(w: World, schedule: seq<Action>): World
    decreases |schedule|
  {
    if schedule == [] then w else Exec(Apply(w, schedule[0]), schedule[1..])
  }

  // ---- what is over stays over

  predicate TokenOver(w: World, h: TokenHash) {
    h in w.issued && (h in w.db.store.tokens ==> !IsValid(w.db.store.tokens[h], w.now))
  }

  predicate SessionOver(w: World, s: SessionHash) {
    s in w.owner && Sessions.Find(w.db.sessions, s).None?
  }

  lemma {:induction false} TokenStaysOver(w: World, schedule: seq<Action>, h: TokenHash)
    requires TokenOver(w, h)
    ensures TokenOver(Exec(w, schedule), h)
    decreases |schedule|
  {
    if schedule != [] {
      TokenStepOver(w, schedule[0], h);
      TokenStaysOver(Apply(w, schedule[0]), schedule[1..], h);
    }
  }

  lemma TokenStepOver(w: World, a: Action, h: TokenHash)
    requires TokenOver(w, h)
    ensures TokenOver(Apply(w, a), h)
  {
  }

  lemma SessionStepOver(w: World, a: Action, s: SessionHash)
    requires SessionOver(w, s)
    ensures SessionOver(Apply(w, a), s)
  {
  }

  lemma {:induction false} SessionStaysOver(w: World, schedule: seq<Action>, s: SessionHash)
    requires SessionOver(w, s)
    ensures SessionOver(Exec(w, schedule), s)
    decreases |schedule|
  {
    if schedule != [] {
      SessionStepOver(w, schedule[0], s);
      SessionStaysOver(Apply(w, schedule[0]), schedule[1..], s);
    }
  }

  /** Rows belong to those they were issued to, and a request past its consuming step has a token that is over. */
  predicate Inv(w: World) {
    w.db.store.tokens.Keys <= w.issued && w.db.sessions.Keys <= w.owner.Keys &&
    (forall s | s in w.db.sessions :: w.db.sessions[s].userId == w.owner[s]) &&
    forall id | id in w.requests :: RequestOk(w, w.requests[id])
  }

  predicate RequestOk(w: World, r: Request) {
    (r.Changing? || r.Consuming? || r.Marking? ==>
      r.f.h in w.issued &&
      (r.f.h in w.db.store.tokens ==> w.db.store.tokens[r.f.h].kind == PasswordReset)) &&
    (r.Revoking? || (r.Finished? && r.answer.Done?) ==> TokenOver(w, r.f.h))
  }

  lemma KindStays(w: World, a: Action, h: TokenHash)
    requires h in w.issued && h in Apply(w, a).db.store.tokens
    ensures h in w.db.store.tokens && Apply(w, a).db.store.tokens[h].kind == w.db.store.tokens[h].kind
  {
  }

  lemma OwnStep(w: World, id: RequestId)
    requires Inv(w) && id in w.requests
    ensures RequestOk(Advance(w, id), Advance(w, id).requests[id])
  {
    assert RequestOk(w, w.requests[id]);
    var h := w.requests[id].f.h;
    if TokenOver(w, h) { TokenStepOver(w, Run(id), h); }
    if h in w.issued && h in Advance(w, id).db.store.tokens { KindStays(w, Run(id), h); }
  }

  lemma RequestStays(w: World, a: Action, id: RequestId)
    requires Inv(w) && id in Apply(w, a).requests
    ensures RequestOk(Apply(w, a), Apply(w, a).requests[id])
  {
    var w' := Apply(w, a);
    if a == Run(id) {
      if id in w.requests { OwnStep(w, id); }
    } else if id in w.requests {
      var h := w.requests[id].f.h;
      assert RequestOk(w, w.requests[id]);
      if TokenOver(w, h) { TokenStepOver(w, a, h); }
      if h in w.issued && h in w'.db.store.tokens { KindStays(w, a, h); }
    }
  }

  lemma ApplyKeeps(w: World, a: Action)
    requires Inv(w)
    ensures Inv(Apply(w, a))
  {
    var w' := Apply(w, a);
    forall id | id in w'.requests ensures RequestOk(w', w'.requests[id]) { RequestStays(w, a, id); }
    RowsStay(w, a);
  }

  lemma RowsStay(w: World, a: Action)
    requires Inv(w)
    ensures var w' := Apply(w, a);
      w'.db.store.tokens.Keys <= w'.issued && w'.db.sessions.Keys <= w'.owner.Keys &&
      forall s | s in w'.db.sessions :: w'.db.sessions[s].userId == w'.owner[s]
  {
  }

  lemma {:induction false} ExecKeeps(w: World, schedule: seq<Action>)
    requires Inv(w)
    ensures Inv(Exec(w, schedule))
    decreases |schedule|
  {
    if schedule != [] {
      ApplyKeeps(w, schedule[0]);
      ExecKeeps(Apply(w, schedule[0]), schedule[1..]);
    }
  }

  // ---- the results

  /**
   * In every interleaving: from the step in which a reset succeeds on, its token is refused for ever, and so is
   * every refresh token issued to the user before that step.
   */
  lemma ResetCloses(before: seq<Action>, id: RequestId, after: seq<Action>, s: SessionHash)
    requires var w := Exec(START, before);
      id in w.requests && w.requests[id].Revoking? && s in w.owner && w.owner[s] == w.requests[id].user
    ensures var w := Exec(START, before);
      var later := Exec(Apply(w, Run(id)), after);
      Check(later.db.store, w.requests[id].f.h, PasswordReset, later.now).Err? &&
      Sessions.Find(later.db.sessions, s).None?
  {
    ExecKeeps(START, before);
    var w := Exec(START, before);
    assert RequestOk(w, w.requests[id]);
    var w' := Apply(w, Run(id));
    ApplyKeeps(w, Run(id));
    TokenStepOver(w, Run(id), w.requests[id].f.h);
    TokenStaysOver(w', after, w.requests[id].f.h);
    SessionStaysOver(w', after, s);
  }

  /** The step that changes the password stores a hash that accepts exactly what derives the key of the new password. */
  lemma ChangeAccepts(kdf: Phc.Kdf, w: World, id: RequestId, password: string, salt: seq<byte>, given: string)
    requires Phc.KeepsKeyLength(kdf)
    requires id in w.requests && w.requests[id].Changing? && Apply(w, Run(id)).requests[id].Consuming?
    requires w.requests[id].f.hash == Phc.HashPassword(kdf, password, salt)
    ensures var creds := Apply(w, Run(id)).db.accounts.creds;
      w.requests[id].user in creds &&
      (Phc.VerifyPassword(kdf, given, creds[w.requests[id].user]) <==>
        Phc.Key(kdf, given, salt) == Phc.Key(kdf, password, salt))
  {
    Phc.VerifyIffSameKey(kdf, password, given, salt);
  }

  /**
   * A whole reset succeeds exactly on a valid token, an acceptable password and an existing credential. A token that
   * is not a reset token, is consumed, or is too old is refused as just that; the rest is a server error.
   */
  lemma SucceedsIff(db: Db, f: Form, now: int)
    ensures var (db', r) := ResetPassword(db, f, now);
      var tokens := db.store.tokens;
      var known := f.h in tokens && tokens[f.h].kind == PasswordReset;
      var spent := known && tokens[f.h].consumedAt.Some?;
      var valid := known && !spent && now < tokens[f.h].expiresAt;
      (r.Done? <==> valid && f.policyOk && tokens[f.h].userId in db.accounts.creds) &&
      (r == BadRequest(Invalid) <==> !known) && (r == BadRequest(Consumed) <==> spent) &&
      (r == BadRequest(Expired) <==> known && !spent && !valid) &&
      (r == ServerError <==> valid && !(f.policyOk && tokens[f.h].userId in db.accounts.creds)) &&
      (r.Done? ==> r.user == tokens[f.h].userId) && (!r.Done? ==> db' == db)
  {
  }

  /** Then the stored password is the new one, the token is used up and no session of the user is left. */
  lemma SuccessMeans(kdf: Phc.Kdf, db: Db, f: Form, now: int, password: string, salt: seq<byte>, given: string)
    requires Phc.KeepsKeyLength(kdf) && f.hash == Phc.HashPassword(kdf, password, salt)
    requires ResetPassword(db, f, now).1.Done?
    ensures var (db', r) := ResetPassword(db, f, now);
      r.user in db'.accounts.creds && Check(db'.store, f.h, PasswordReset, now) == Err(Consumed) &&
      (forall s :: s in db'.sessions && db'.sessions[s].userId == r.user ==> db'.sessions[s].revokedAt.Some?) &&
      (Phc.VerifyPassword(kdf, given, db'.accounts.creds[r.user]) <==>
        Phc.Key(kdf, given, salt) == Phc.Key(kdf, password, salt))
  {
    Phc.VerifyIffSameKey(kdf, password, given, salt);
  }

  /** A reset touches one credential, one token and the sessions of one user. */
  lemma ChangesNothingElse(db: Db, f: Form, now: int)
    requires ResetPassword(db, f, now).1.Done?
    ensures var (db', r) := ResetPassword(db, f, now);
      db'.accounts.users == db.accounts.users && db'.store.users == db.store.users &&
      db'.accounts.creds.Keys == db.accounts.creds.Keys && db'.store.tokens.Keys == db.store.tokens.Keys &&
      db'.sessions.Keys == db.sessions.Keys &&
      (forall v | v in db.accounts.creds && v != r.user :: db'.accounts.creds[v] == db.accounts.creds[v]) &&
      (forall h | h in db.store.tokens && h != f.h :: db'.store.tokens[h] == db.store.tokens[h]) &&
      (forall s | s in db.sessions && db.sessions[s].userId != r.user :: db'.sessions[s] == db.sessions[s])
  {
  }

  /** n steps of one request with nothing in between. */
  function Solo(id: RequestId, n: nat): seq<Action> {
    if n == 0 then [] else [Run(id)] + Solo(id, n - 1)
  }

  lemma SoloStep(w: World, id: RequestId, n: nat)
    requires id in w.requests && n > 0
    ensures Exec(w, Solo(id, n)) == Exec(Advance(w, id), Solo(id, n - 1))
  {
    assert Solo(id, n)[1..] == Solo(id, n - 1);
  }

  lemma {:induction false} FinishedIdles(w: World, id: RequestId, n: nat)
    requires id in w.requests && w.requests[id].Finished?
    ensures Exec(w, Solo(id, n)) == w
    decreases n
  {
    if n > 0 {
      SoloStep(w, id, n);
      FinishedIdles(w, id, n - 1);
    }
  }

  /** The steps of one request with nothing in between are the whole handler; n is at least the number it takes. */
  lemma SoloReset(w: World, id: RequestId, n: nat)
    requires id in w.requests && w.requests[id].Validating? && n >= 5
    ensures var w' := Exec(w, Solo(id, n));
      id in w'.requests && w'.requests[id].Finished? &&
      (w'.db, w'.requests[id].answer) == ResetPassword(w.db, w.requests[id].f, w.now)
  {
    SoloStep(w, id, n);
    var w1 := Advance(w, id);
    if w1.requests[id].Finished? {
      FinishedIdles(w1, id, n - 1);
    } else {
      SoloStep(w1, id, n - 1);
      var w2 := Advance(w1, id);
      if w2.requests[id].Finished? { FinishedIdles(w2, id, n - 2); }
      else { SoloConsume(w2, id, n - 2); }
    }
  }

  /** Its steps once the password is changed. */
  lemma SoloConsume(w: World, id: RequestId, n: nat)
    requires id in w.requests && w.requests[id].Consuming? && n >= 3
    ensures var r, w' := w.requests[id], Exec(w, Solo(id, n));
      id in w'.requests && w'.requests[id] == Finished(r.f, Done(r.user)) &&
      w'.db == Db(w.db.accounts, ConsumeReset(w.db.store, r.f.h, w.now).0,
                  Sessions.RevokeAll(w.db.sessions, r.user, w.now))
  {
    SoloStep(w, id, n);
    var w1 := Advance(w, id);
    if w1.requests[id].Marking? {
      SoloStep(w1, id, n - 1);
      SoloRevoke(Advance(w1, id), id, n - 2);
    } else {
      SoloRevoke(w1, id, n - 1);
    }
  }

  lemma SoloRevoke(w: World, id: RequestId, n: nat)
    requires id in w.requests && w.requests[id].Revoking? && n >= 1
    ensures Exec(w, Solo(id, n)) == Advance(w, id)
  {
    SoloStep(w, id, n);
    FinishedIdles(Advance(w, id), id, n - 1);
  }

  // ---- a used token

  /**
   * A request that has not validated the token when another has consumed it is refused, whatever happens next.
   */
  lemma {:induction false} LateValidationFails(w: World, j: RequestId, schedule: seq<Action>)
    requires j in w.requests && w.requests[j].Validating? && TokenOver(w, w.requests[j].f.h)
    ensures var w' := Exec(w, schedule);
      j in w'.requests &&
      (w'.requests[j] == w.requests[j] || (w'.requests[j].Finished? && w'.requests[j].answer.BadRequest?))
    decreases |schedule|
  {
    if schedule != [] {
      var w1 := Apply(w, schedule[0]);
      TokenStepOver(w, schedule[0], w.requests[j].f.h);
      if w1.requests[j] == w.requests[j] { LateValidationFails(w1, j, schedule[1..]); }
      else { FinishedStays(w1, j, schedule[1..]); }
    }
  }

  lemma {:induction false} FinishedStays(w: World, j: RequestId, schedule: seq<Action>)
    requires j in w.requests && w.requests[j].Finished?
    ensures var w' := Exec(w, schedule); j in w'.requests && w'.requests[j] == w.requests[j]
    decreases |schedule|
  {
    if schedule != [] { FinishedStays(Apply(w, schedule[0]), j, schedule[1..]); }
  }
}
