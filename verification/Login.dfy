/** Who is logged in: the login counter kept in Redis, the uid bound to each session, and the
    map from uids to sessions. */
module Login {
  type SessionId = nat

  /** A session's `_user_uid` and `_b_close`. */
  datatype Binding = Binding(uid: int, closed: bool)

  datatype Accounts = Accounts(count: int, sessions: seq<Binding>, users: map<int, SessionId>)

  function Init(n: nat): (r: Accounts) {
    Accounts(0, seq(n, _ => Binding(0, false)), map[])
  }

  datatype Step =
    | LogIn(s: SessionId, uid: int)   // the end of the login handler, token and user accepted
    | Close(s: SessionId)

  predicate Enabled(a: Accounts, step: Step) {
    step.s < |a.sessions|
  }

  /** A login counts, binds and registers whatever the session was bound to, closed or not.  Closing
      uncounts and unregisters the bound uid, once. */
  function Do(a: Accounts, step: Step): (r: Accounts)
    requires Enabled(a, step)
  {
    match step
    case LogIn(s, uid) =>
      Accounts(a.count + 1, a.sessions[s := a.sessions[s].(uid := uid)], a.users[uid := s])
    case Close(s) =>
      var b := a.sessions[s];
      if b.closed then a
      else if b.uid > 0 then
        Accounts(if a.count > 0 then a.count - 1 else a.count,
                 a.sessions[s := Binding(0, true)], a.users - {b.uid})
      else a.(sessions := a.sessions[s := Binding(b.uid, true)])
  }

  ghost predicate Runs(a: Accounts, run: seq<Step>)
    decreases |run|
  {
    run == [] || (Enabled(a, run[0]) && Runs(Do(a, run[0]), run[1..]))
  }

  ghost function After(a: Accounts, run: seq<Step>): (r: Accounts)
    requires Runs(a, run)
    decreases |run|
  {
    if run == [] then a else After(Do(a, run[0]), run[1..])
  }

  function Bound(bs: seq<Binding>): (r: nat) {
    if bs == [] then 0 else (if bs[0].uid > 0 then 1 else 0) + Bound(bs[1..])
  }

  lemma {:induction false} BoundUpdate(bs: seq<Binding>, s: nat, b: Binding)
    requires s < |bs|
    ensures Bound(bs[s := b]) == Bound(bs) - (if bs[s].uid > 0 then 1 else 0) + (if b.uid > 0 then 1 else 0)
    ensures bs[s].uid > 0 ==> Bound(bs) > 0
  {
    if s == 0 {
      assert bs[s := b][1..] == bs[1..];
    } else {
      assert bs[s := b][1..] == bs[1..][s - 1 := b];
      BoundUpdate(bs[1..], s - 1, b);
    }
  }

  lemma {:induction false} NoneBound(n: nat)
    ensures Bound(seq(n, _ => Binding(0, false))) == 0
  {
    if n > 0 {
      assert seq(n, _ => Binding(0, false))[1..] == seq(n - 1, _ => Binding(0, false));
      NoneBound(n - 1);
    }
  }

  /** What a login adds to the counter beyond the sessions it binds: one if its uid is not
      positive, and one if the session was bound already. */
  function Waste(a: Accounts, step: Step): (r: nat)
    requires Enabled(a, step)
  {
    match step
    case LogIn(s, uid) => (if uid > 0 then 0 else 1) + (if a.sessions[s].uid > 0 then 1 else 0)
    case Close(_) => 0
  }

  ghost function TotalWaste(a: Accounts, run: seq<Step>): (r: nat)
    requires Runs(a, run)
    decreases |run|
  {
    if run == [] then 0 else Waste(a, run[0]) + TotalWaste(Do(a, run[0]), run[1..])
  }

  lemma StepCounts(a: Accounts, step: Step)
    requires Enabled(a, step) && a.count >= Bound(a.sessions)
    ensures var a' := Do(a, step);
            a'.count - Bound(a'.sessions) == a.count - Bound(a.sessions) + Waste(a, step)
    ensures step.Close? && !a.sessions[step.s].closed && a.sessions[step.s].uid > 0 ==> a.count > 0
  {
    BoundUpdate(a.sessions, step.s, Do(a, step).sessions[step.s]);
  }

  lemma {:induction false} RunCounts(a: Accounts, run: seq<Step>)
    requires Runs(a, run) && a.count >= Bound(a.sessions)
    ensures var a' := After(a, run);
            a'.count - Bound(a'.sessions) == a.count - Bound(a.sessions) + TotalWaste(a, run)
    decreases |run|
  {
    if run != [] {
      StepCounts(a, run[0]);
      RunCounts(Do(a, run[0]), run[1..]);
    }
  }

  /** In every run, with repeated logins and logins after close, the counter is the number of
      bound sessions plus what such logins wasted; so it is never below that number, and equal to
      it exactly when no login was wasted. */
  lemma LoginCount(n: nat, run: seq<Step>)
    requires Runs(Init(n), run)
    ensures var a := After(Init(n), run);
            && a.count == Bound(a.sessions) + TotalWaste(Init(n), run)
            && (a.count == Bound(a.sessions) <==> TotalWaste(Init(n), run) == 0)
  {
    NoneBound(n);
    RunCounts(Init(n), run);
  }

  /** The clamp at zero never takes effect: when a session with a bound uid is closed, the counter
      is positive and goes down by one. */
  lemma ClampNeverTakesEffect(n: nat, run: seq<Step>, s: SessionId)
    requires Runs(Init(n), run) && Enabled(After(Init(n), run), Close(s))
    requires var b := After(Init(n), run).sessions[s]; !b.closed && b.uid > 0
    ensures var a := After(Init(n), run); a.count > 0 && Do(a, Close(s)).count == a.count - 1
  {
    LoginCount(n, run);
    StepCounts(After(Init(n), run), Close(s));
  }

  /** No step touches another session, and a closed session stays closed. */
  lemma StepKeepsOthers(a: Accounts, step: Step)
    requires Enabled(a, step)
    ensures var a' := Do(a, step);
            && |a'.sessions| == |a.sessions|
            && (forall t :: 0 <= t < |a.sessions| && t != step.s ==> a'.sessions[t] == a.sessions[t])
            && (a.sessions[step.s].closed ==> a'.sessions[step.s].closed)
            && (step.LogIn? ==> a'.sessions[step.s] == Binding(step.uid, a.sessions[step.s].closed))
            && (step.Close? ==> a'.sessions[step.s].closed)
  {
  }

  /** Closing takes effect once: in any run after it the session stays closed, and closing it again
      changes nothing at all; and it leaves the session bound to no user. */
  lemma {:induction false} ClosedForGood(a: Accounts, run: seq<Step>, s: SessionId)
    requires Runs(a, run) && s < |a.sessions| && a.sessions[s].closed
    ensures var a' := After(a, run);
            s < |a'.sessions| && a'.sessions[s].closed && Do(a', Close(s)) == a'
    decreases |run|
  {
    if run != [] {
      StepKeepsOthers(a, run[0]);
      ClosedForGood(Do(a, run[0]), run[1..], s);
    }
  }

  lemma ClosingUnbinds(a: Accounts, s: SessionId)
    requires Enabled(a, Close(s)) && !a.sessions[s].closed
    ensures var a' := Do(a, Close(s));
            && a'.sessions[s].closed && a'.sessions[s].uid <= 0
            && (a.sessions[s].uid <= 0 ==> a'.users == a.users && a'.count == a.count)
            && (a.sessions[s].uid > 0 ==> a'.users.Keys == a.users.Keys - {a.sessions[s].uid})
            && forall u :: u in a'.users ==> u in a.users && a'.users[u] == a.users[u]
  {
  }

  // ---- the map of sessions ----

  ghost predicate Registered(a: Accounts, s: SessionId) {
    s < |a.sessions| && a.sessions[s].uid > 0
    && a.sessions[s].uid in a.users && a.users[a.sessions[s].uid] == s
  }

  /** The map holds exactly the bound sessions. */
  ghost predicate MapExact(a: Accounts) {
    && (forall s: SessionId :: s < |a.sessions| && a.sessions[s].uid > 0 ==> Registered(a, s))
    && (forall uid :: uid in a.users ==>
          a.users[uid] < |a.sessions| && uid > 0 && a.sessions[a.users[uid]].uid == uid)
  }

  /** A login of a positive uid that nobody uses, on a session bound to nothing. */
  predicate Clean(a: Accounts, step: Step)
    requires Enabled(a, step)
  {
    step.LogIn? ==> step.uid > 0 && step.uid !in a.users && a.sessions[step.s].uid <= 0
  }

  lemma CleanStep(a: Accounts, step: Step)
    requires MapExact(a) && Enabled(a, step) && Clean(a, step)
    ensures MapExact(Do(a, step))
  {
    var a' := Do(a, step);
    forall t: SessionId | t < |a'.sessions| && a'.sessions[t].uid > 0
      ensures Registered(a', t)
    {
      assert t != step.s ==> Registered(a, t);
      assert a.sessions[step.s].uid > 0 ==> Registered(a, step.s);
    }
  }

  ghost predicate CleanRun(a: Accounts, run: seq<Step>)
    requires Runs(a, run)
    decreases |run|
  {
    run == [] || (Clean(a, run[0]) && CleanRun(Do(a, run[0]), run[1..]))
  }

  lemma {:induction false} CleanRunExact(a: Accounts, run: seq<Step>)
    requires MapExact(a) && Runs(a, run) && CleanRun(a, run)
    ensures MapExact(After(a, run))
    decreases |run|
  {
    if run != [] {
      CleanStep(a, run[0]);
      CleanRunExact(Do(a, run[0]), run[1..]);
    }
  }

  /** With clean logins only, a lookup finds a session exactly when one is bound to the uid, and
      that one; and the counter is exact as well. */
  lemma CleanLogins(n: nat, run: seq<Step>)
    requires Runs(Init(n), run) && CleanRun(Init(n), run)
    ensures MapExact(After(Init(n), run))
    ensures After(Init(n), run).count == Bound(After(Init(n), run).sessions)
  {
    CleanRunExact(Init(n), run);
    LoginCount(n, run);
    CleanNoWaste(Init(n), run);
  }

  lemma {:induction false} CleanNoWaste(a: Accounts, run: seq<Step>)
    requires Runs(a, run) && CleanRun(a, run)
    ensures TotalWaste(a, run) == 0
    decreases |run|
  {
    if run != [] {
      CleanNoWaste(Do(a, run[0]), run[1..]);
    }
  }

  /** What takes uid u away from session t in the map: another session logs in as u, or an open
      session bound to u closes. */
  predicate Disturbs(a: Accounts, step: Step, t: SessionId, u: int)
    requires Enabled(a, step)
  {
    match step
    case LogIn(s, uid) => uid == u && s != t
    case Close(s) => !a.sessions[s].closed && a.sessions[s].uid == u
  }

  ghost predicate Undisturbed(a: Accounts, run: seq<Step>, t: SessionId, u: int)
    requires Runs(a, run)
    decreases |run|
  {
    run == [] || (!Disturbs(a, run[0], t, u) && Undisturbed(Do(a, run[0]), run[1..], t, u))
  }

  /** At some point of the run t logs in as u, and from then on nothing disturbs it. */
  ghost predicate LoginStands(a: Accounts, run: seq<Step>, t: SessionId, u: int)
    requires Runs(a, run)
    decreases |run|
  {
    run != [] &&
    ((run[0] == LogIn(t, u) && Undisturbed(Do(a, run[0]), run[1..], t, u))
     || LoginStands(Do(a, run[0]), run[1..], t, u))
  }

  ghost predicate MapsTo(a: Accounts, u: int, t: SessionId) {
    u in a.users && a.users[u] == t
  }

  lemma {:induction false} MapsToExactlyWhen(a: Accounts, run: seq<Step>, t: SessionId, u: int)
    requires u > 0 && Runs(a, run)
    ensures MapsTo(After(a, run), u, t)
        <==> LoginStands(a, run, t, u) || (MapsTo(a, u, t) && Undisturbed(a, run, t, u))
    decreases |run|
  {
    if run != [] {
      MapsToExactlyWhen(Do(a, run[0]), run[1..], t, u);
    }
  }

  /** Exactly when a user is found by notifications.  After any run a session bound to a uid is the
      one registered for it if and only if, since it last logged in with that uid, no other session
      has logged in with it and no open session bound to it has closed. */
  lemma RegisteredExactlyWhen(n: nat, run: seq<Step>, t: SessionId)
    requires Runs(Init(n), run) && t < |After(Init(n), run).sessions| && After(Init(n), run).sessions[t].uid > 0
    ensures var u := After(Init(n), run).sessions[t].uid;
            Registered(After(Init(n), run), t) <==> LoginStands(Init(n), run, t, u)
  {
    MapsToExactlyWhen(Init(n), run, t, After(Init(n), run).sessions[t].uid);
  }

  /** It does fail: a user logs in twice, and when the first session closes the second, still bound
      and open, is found by nobody. */
  lemma SecondSessionLost(n: nat, u: int) returns (run: seq<Step>)
    requires n >= 2 && u > 0
    ensures Runs(Init(n), run)
    ensures var a := After(Init(n), run);
            |a.sessions| == n && a.sessions[1] == Binding(u, false) && u !in a.users && !Registered(a, 1)
  {
    run := [LogIn(0, u), LogIn(1, u), Close(0)];
    var a1 := Do(Init(n), run[0]);
    var a2 := Do(a1, run[1]);
    var a3 := Do(a2, run[2]);
    assert run[1..][1..] == [Close(0)] && run[1..][0] == run[1] && [Close(0)][1..] == [];
    assert Runs(a3, []) && Runs(a2, [Close(0)]) && Runs(a1, run[1..]);
    assert After(a3, []) == a3 && After(a2, [Close(0)]) == a3 && After(a1, run[1..]) == a3;
  }

  // ---- the objects ----

  class UserMgr {
    var uidToSession: map<int, SessionId>

    constructor ()
      ensures uidToSession == map[]
    {
      uidToSession := map[];
    }

    method GetSession(uid: int) returns (found: bool, session: SessionId)
      ensures found <==> uid in uidToSession
      ensures found ==> session == uidToSession[uid]
    {
      if uid !in uidToSession {
        return false, 0;
      }
      return true, uidToSession[uid];
    }

    method SetUserSession(uid: int, session: SessionId)
      modifies this
      ensures uidToSession == old(uidToSession)[uid := session]
    {
      uidToSession := uidToSession[uid := session];
    }

    method RemoveUserSession(uid: int)
      modifies this
      ensures uidToSession == old(uidToSession) - {uid}
    {
      uidToSession := uidToSession - {uid};
    }
  }

  class UserSession {
    var userUid: int
    var bClose: bool

    constructor ()
      ensures userUid == 0 && !bClose
    {
      userUid, bClose := 0, false;
    }
  }

  /** The counter field of this server in the Redis hash, the sessions and the map. */
  class LoginBook {
    const sessions: seq<UserSession>
    const userMgr: UserMgr
    var loginCount: int

    constructor (sessions: seq<UserSession>, userMgr: UserMgr)
      ensures this.sessions == sessions && this.userMgr == userMgr && loginCount == 0
    {
      this.sessions, this.userMgr, loginCount := sessions, userMgr, 0;
    }

    ghost predicate Valid() {
      forall i, j :: 0 <= i < j < |sessions| ==> sessions[i] != sessions[j]
    }

    ghost function A(): (r: Accounts)
      reads this, userMgr, sessions
    {
      Accounts(loginCount,
               seq(|sessions|, i requires 0 <= i < |sessions| reads sessions
                                 => Binding(sessions[i].userUid, sessions[i].bClose)),
               userMgr.uidToSession)
    }

    /** The end of the login handler: count, bind, register. */
    method LogInUser(s: SessionId, uid: int)
      requires Valid() && s < |sessions|
      modifies this, userMgr, sessions[s]
      ensures A() == Do(old(A()), LogIn(s, uid))
    {
      var count := loginCount;
      count := count + 1;
      loginCount := count;
      sessions[s].userUid := uid;
      userMgr.SetUserSession(uid, s);
    }

    /** `close` of a session. */
    method CloseSession(s: SessionId)
      requires Valid() && s < |sessions|
      modifies this, userMgr, sessions[s]
      ensures A() == Do(old(A()), Close(s))
    {
      var session := sessions[s];
      if session.bClose {
        return;
      }
      if session.userUid > 0 {
        var count := loginCount;
        if count > 0 {
          count := count - 1;
        }
        loginCount := count;
        userMgr.RemoveUserSession(session.userUid);
        session.userUid := 0;
      }
      session.bClose := true;
    }
  }
}
