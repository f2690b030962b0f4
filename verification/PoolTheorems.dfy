/** What every run of a pool gives: ownership, conservation, wakeups, and when nested
    borrowing cannot deadlock. */
module PoolTheorems {
  import opened PoolSpec
  import opened PoolMachine

  // ---- ownership and conservation ----

  /** Where a thread, the idle queue or the checker has a connection. */
  ghost predicate Idle(p: Pool, i: nat, c: Conn) {
    i < |p.shared.idle| && p.shared.idle[i] == c
  }

  ghost predicate Holds(p: Pool, t: nat, i: nat, c: Conn) {
    t < |p.threads| && i < |p.threads[t].held| && p.threads[t].held[i] == c
  }

  lemma Twice(s: seq<Conn>, i: nat, j: nat)
    requires i < j < |s| && s[i] == s[j]
    ensures Times(s, s[i]) >= 2
  {
    assert s == s[..j] + s[j..];
    TimesConcat(s[..j], s[j..], s[i]);
    assert s[..j][i] in multiset(s[..j]) && s[j..][0] in multiset(s[j..]);
  }

  lemma Once(s: seq<Conn>, i: nat)
    requires i < |s|
    ensures Times(s, s[i]) >= 1
  {
    assert s[i] in multiset(s);
  }

  lemma HoldsOnce(p: Pool, t: nat, i: nat, c: Conn)
    requires Holds(p, t, i, c)
    ensures InHands(p.threads, c) >= 1
  {
    Once(p.threads[t].held, i);
    HandsUpdate(p.threads, t, p.threads[t], c);
  }

  lemma HeldByTwo(p: Pool, t: nat, i: nat, u: nat, j: nat, c: Conn)
    requires Holds(p, t, i, c) && Holds(p, u, j, c) && t != u
    ensures InHands(p.threads, c) >= 2
  {
    var bare := Thread(Busy, []);
    Once(p.threads[t].held, i);
    Once(p.threads[u].held, j);
    HandsUpdate(p.threads, t, bare, c);
    HandsUpdate(p.threads[t := bare], u, bare, c);
  }

  /** No connection is in two places: not twice in the idle queue, not with two borrowers, not with
      a borrower or the checker while it is idle. */
  lemma OnePlace(p: Pool, c: Conn)
    requires Owned(p)
    ensures forall i, j :: Idle(p, i, c) && Idle(p, j, c) ==> i == j
    ensures forall i, t, j :: Idle(p, i, c) ==> !Holds(p, t, j, c)
    ensures forall t, i, u, j :: Holds(p, t, i, c) && Holds(p, u, j, c) ==> t == u && i == j
    ensures CheckerHas(p.checker) == Just(c) ==>
              (forall i :: !Idle(p, i, c)) && forall t, i :: !Holds(p, t, i, c)
  {
    assert Places(p, c) <= 1;
    forall i: nat, j: nat | Idle(p, i, c) && Idle(p, j, c)
      ensures i == j
    {
      if i != j {
        Twice(p.shared.idle, if i < j then i else j, if i < j then j else i);
      }
    }
    forall t: nat, i: nat, u: nat, j: nat | Holds(p, t, i, c) && Holds(p, u, j, c)
      ensures t == u && i == j
    {
      if t != u {
        HeldByTwo(p, t, i, u, j, c);
      } else if i != j {
        Twice(p.threads[t].held, if i < j then i else j, if i < j then j else i);
        HandsUpdate(p.threads, t, p.threads[t], c);
      }
    }
    forall t: nat, j: nat | Holds(p, t, j, c)
      ensures InHands(p.threads, c) >= 1
    {
      HoldsOnce(p, t, j, c);
    }
    forall i: nat | Idle(p, i, c)
      ensures Times(p.shared.idle, c) >= 1
    {
      Once(p.shared.idle, i);
    }
  }

  /** In every run a connection is never in two places, the live ones never outnumber those the
      constructor made, and until a stop they and the counted failures account for all of those,
      but for the middle of an update. */
  lemma OwnershipAndBalance(kind: Kind, depth: seq<nat>, created: nat, run: seq<Step>)
    requires Runs(Init(kind, depth, created), run)
    ensures var p := After(Init(kind, depth, created), run);
            && Owned(p)
            && Live(p) <= created
            && (!p.shared.stop ==> Live(p) + p.fails == created + Slack(p.checker))
  {
    InitOk(kind, depth, created);
    RunOk(Init(kind, depth, created), run);
  }

  // ---- wakeups ----

  /** With no push by reconnect, idle connections are never more than the waiters already woken
      for them while someone sleeps; and nobody sleeps in a closed pool. */
  lemma NoLostWakeup(kind: Kind, depth: seq<nat>, created: nat, run: seq<Step>)
    requires Runs(Init(kind, depth, created), run)
    requires forall s :: s in run ==> !s.Push?
    ensures var p := After(Init(kind, depth, created), run);
            && (Count(p.threads, Asleep) > 0 ==> |p.shared.idle| <= Count(p.threads, Woken))
            && (p.shared.stop ==> Count(p.threads, Asleep) == 0)
  {
    InitOk(kind, depth, created);
    RunOk(Init(kind, depth, created), run);
  }

  /** With such pushes, each can strand one connection at most. */
  lemma StrandedAtMostSilent(kind: Kind, depth: seq<nat>, created: nat, run: seq<Step>)
    requires Runs(Init(kind, depth, created), run)
    ensures var p := After(Init(kind, depth, created), run);
            && (Count(p.threads, Asleep) > 0 ==> |p.shared.idle| <= Count(p.threads, Woken) + Pushes(run))
            && (p.shared.stop ==> Count(p.threads, Asleep) == 0)
  {
    var p := Init(kind, depth, created);
    InitOk(kind, depth, created);
    RunOk(p, run);
    SilentCounts(p, run);
  }

  function Pushes(run: seq<Step>): (r: nat) {
    if run == [] then 0 else (if run[0].Push? then 1 else 0) + Pushes(run[1..])
  }

  lemma {:induction false} SilentCounts(p: Pool, run: seq<Step>)
    requires Runs(p, run)
    ensures After(p, run).silent == p.silent + Pushes(run)
    decreases |run|
  {
    if run != [] {
      SilentCounts(Do(p, run[0]), run[1..]);
    }
  }

  /** Nobody sleeps beside an idle connection that no woken waiter will take. */
  ghost predicate NobodyStranded(p: Pool) {
    Count(p.threads, Asleep) > 0 ==> |p.shared.idle| <= Count(p.threads, Woken)
  }

  /** Nobody is stranded at any point of a run. */
  ghost predicate NeverStranded(p: Pool, run: seq<Step>)
    requires Runs(p, run)
    decreases |run|
  {
    NobodyStranded(p) && (run == [] || NeverStranded(Do(p, run[0]), run[1..]))
  }

  /** Each push of a run comes while nobody sleeps, or while more waiters are woken than connections
      are idle. */
  ghost predicate TimelyPushes(p: Pool, run: seq<Step>)
    requires Runs(p, run)
    decreases |run|
  {
    run == [] ||
    ((run[0].Push? ==> Count(p.threads, Asleep) == 0 || |p.shared.idle| < Count(p.threads, Woken))
     && TimelyPushes(Do(p, run[0]), run[1..]))
  }

  lemma StrandedOnlyByPush(p: Pool, s: Step)
    requires NobodyStranded(p) && StopWakes(p) && Enabled(p, s) && !s.Push?
    ensures NobodyStranded(Do(p, s))
  {
    WakefulStep(p.(silent := 0), s);
  }

  lemma {:induction false} StrandedFrom(p: Pool, run: seq<Step>)
    requires NobodyStranded(p) && StopWakes(p) && Wakeful(p) && Runs(p, run)
    ensures NeverStranded(p, run) <==> TimelyPushes(p, run)
    decreases |run|
  {
    if run != [] {
      WakefulStep(p, run[0]);
      if !run[0].Push? {
        StrandedOnlyByPush(p, run[0]);
      }
      if NobodyStranded(Do(p, run[0])) {
        StrandedFrom(Do(p, run[0]), run[1..]);
      }
    }
  }

  /** Exactly when reconnect strands nobody in the whole of a run: each connection it pushes comes
      while nobody sleeps, or while more waiters are already woken than connections are idle. */
  lemma PushStrandsExactlyWhen(kind: Kind, depth: seq<nat>, created: nat, run: seq<Step>)
    requires Runs(Init(kind, depth, created), run)
    ensures NeverStranded(Init(kind, depth, created), run) <==> TimelyPushes(Init(kind, depth, created), run)
  {
    InitOk(kind, depth, created);
    StrandedFrom(Init(kind, depth, created), run);
  }

  lemma RunsStep(p: Pool, s: Step, run: seq<Step>)
    requires Enabled(p, s) && Runs(Do(p, s), run)
    ensures Runs(p, [s] + run) && After(p, [s] + run) == After(Do(p, s), run)
  {
    assert ([s] + run)[1..] == run;
  }

  /** The only connection has failed its check, and the one thread waits. */
  function Lonely(kind: Kind): (p: Pool) {
    Pool(kind, [1], 1, Shared([], false), [Thread(Asleep, [])], Resting, 1, 1, 0)
  }

  lemma LonelyReached(kind: Kind) returns (run: seq<Step>)
    requires !kind.Chat?
    ensures Runs(Init(kind, [1], 1), run) && After(Init(kind, [1], 1), run) == Lonely(kind)
  {
    var p := Init(kind, [1], 1);
    assert p.shared.idle == [0] && p.threads == [Thread(Busy, [])];
    var q := Do(Do(p, CheckTake), Get(0));
    RunsStep(Do(q, CheckFail), Settle, []);
    RunsStep(q, CheckFail, [Settle] + []);
    RunsStep(Do(p, CheckTake), Get(0), [CheckFail] + ([Settle] + []));
    RunsStep(p, CheckTake, [Get(0)] + ([CheckFail] + ([Settle] + [])));
    run := [CheckTake] + ([Get(0)] + ([CheckFail] + ([Settle] + [])));
  }

  lemma LonelyStranded(kind: Kind) returns (run: seq<Step>)
    requires !kind.Chat?
    ensures Runs(Lonely(kind), run)
    ensures var p := After(Lonely(kind), run);
            p.checker.Resting? && p.fails == 0 && p.threads == Lonely(kind).threads && p.shared == Shared([1], false)
  {
    var p := Lonely(kind);
    var q := Do(p, Connect);
    RunsStep(Do(q, Push), Uncount, []);
    RunsStep(q, Push, [Uncount] + []);
    RunsStep(p, Connect, [Push] + ([Uncount] + []));
    run := [Connect] + ([Push] + ([Uncount] + []));
  }

  /** It does happen, in both pools with a checker.  The only connection fails its check while a
      thread waits for it; the replacement is pushed without a notification, and the thread sleeps
      beside it. */
  lemma ReconnectStrandsAWaiter(kind: Kind) returns (run: seq<Step>)
    requires !kind.Chat?
    ensures Runs(Init(kind, [1], 1), run)
    ensures var p := After(Init(kind, [1], 1), run);
            && p.threads == [Thread(Asleep, [])] && p.shared == Shared([1], false)
            && p.checker.Resting? && p.fails == 0 && !NobodyStranded(p)
  {
    var a := LonelyReached(kind);
    var b := LonelyStranded(kind);
    RunsConcat(Init(kind, [1], 1), a, b);
    run := a + b;
    var ts := [Thread(Asleep, [])];
    assert ts[1..] == [] && Count(ts, Woken) == 0 && Count(ts, Asleep) == 1;
  }

  /** The next check repairs it: giving a healthy connection back notifies a sleeper. */
  lemma NextCheckWakes(p: Pool, w: nat)
    requires Enabled(p, CheckPass(w)) && Count(p.threads, Asleep) > 0 && !p.shared.stop
    ensures Count(Do(p, CheckPass(w)).threads, Woken) == Count(p.threads, Woken) + 1
  {
    NotifyOneCounts(p.threads, w);
  }

  lemma {:induction false} ChatNeverPushes(p: Pool, run: seq<Step>)
    requires p.kind.Chat? && p.checker.Resting? && p.fails == 0 && Runs(p, run)
    ensures forall s :: s in run ==> !s.Push?
    decreases |run|
  {
    if run != [] {
      ChatNeverPushes(Do(p, run[0]), run[1..]);
      assert forall s :: s in run ==> s == run[0] || s in run[1..];
    }
  }

  /** The chat-server pool, which has no checker, loses no wakeup in any run. */
  lemma ChatPoolLosesNoWakeup(depth: seq<nat>, created: nat, run: seq<Step>)
    requires Runs(Init(Chat, depth, created), run)
    ensures NobodyStranded(After(Init(Chat, depth, created), run))
  {
    ChatNeverPushes(Init(Chat, depth, created), run);
    NoLostWakeup(Chat, depth, created, run);
  }

  /** One turn of the checker's loop in steps of the machine: a healthy front goes to the back, any
      other is gone and counted.  It is what the pools' CheckFront does alone. */
  lemma CheckTurn(p: Pool, w: nat)
    requires Enabled(p, CheckTake) && MayNotify(p.threads, w) && !p.shared.stop
    ensures var idle := p.shared.idle;
            && Runs(p, [CheckTake, CheckPass(w)]) && Runs(p, [CheckTake, CheckFail, Settle])
            && var q := After(p, [CheckTake, CheckPass(w)]);
               var r := After(p, [CheckTake, CheckFail, Settle]);
               && q.shared == Shared(idle[1..] + [idle[0]], false) && q.fails == p.fails && q.checker.Resting?
               && r.shared == Shared(idle[1..], false) && r.fails == p.fails + 1 && r.checker.Resting?
  {
    RunsTwo(p, CheckTake, CheckPass(w));
    RunsTwo(p, CheckTake, CheckFail);
    var p2 := After(p, [CheckTake, CheckFail]);
    assert Runs(Do(p2, Settle), []);
    RunsStep(p2, Settle, []);
    RunsConcat(p, [CheckTake, CheckFail], [Settle] + []);
    assert [CheckTake, CheckFail] + ([Settle] + []) == [CheckTake, CheckFail, Settle];
  }

  lemma RunsTwo(p: Pool, s0: Step, s1: Step)
    requires Enabled(p, s0) && Enabled(Do(p, s0), s1)
    ensures Runs(p, [s0, s1]) && After(p, [s0, s1]) == Do(Do(p, s0), s1)
  {
    assert Runs(Do(Do(p, s0), s1), []);
    RunsStep(Do(p, s0), s1, []);
    RunsStep(p, s0, [s1]);
    assert [s1] + [] == [s1] && [s0] + [s1] == [s0, s1];
  }

  // ---- nested borrowing ----

  /** The most connections that threads can hold together while each still asks for one more. */
  function Excess(depth: seq<nat>): (r: nat) {
    if depth == [] then 0 else (if depth[0] == 0 then 0 else depth[0] - 1) + Excess(depth[1..])
  }

  ghost predicate HoldersWait(p: Pool) {
    forall t :: 0 <= t < |p.threads| ==> p.threads[t].held == [] || !p.threads[t].pc.Busy?
  }

  lemma {:induction false} WaitersHoldLittle(ts: seq<Thread>, depth: seq<nat>)
    requires |ts| == |depth|
    requires forall t :: 0 <= t < |ts| ==> ts[t].held == [] || |ts[t].held| < depth[t]
    ensures Borrowed(ts) <= Excess(depth)
  {
    if ts != [] {
      WaitersHoldLittle(ts[1..], depth[1..]);
    }
  }

  ghost predicate SomeoneWaits(p: Pool) {
    exists t: nat :: t < |p.threads| && !p.threads[t].pc.Busy?
  }

  /** Between p and q, thread t, which waited, was lent a connection. */
  ghost predicate Served(p: Pool, q: Pool, t: nat) {
    && t < |p.threads| == |q.threads| && !p.threads[t].pc.Busy?
    && exists c :: q.threads[t] == Thread(Busy, p.threads[t].held + [c])
  }

  /** The connections a thread may still be lent: idle, lent, under test, or new.  One the checker has
      found dead is alive to the balance but not among them. */
  function Usable(p: Pool): (r: nat) {
    |p.shared.idle| + Borrowed(p.threads) + (if p.checker.Testing? || p.checker.Connected? then 1 else 0)
  }

  /** A step that asks nothing new of anybody: a return, a woken thread's retry, or one of the
      checker's.  Whether the checker may open a connection as well is told by `reconnect`. */
  predicate Onward(s: Step, reconnect: bool) {
    !s.Get? && !s.Spurious? && !s.Close? && (s.Connect? ==> reconnect)
  }

  /** A way on from p: at most `bound` such steps, to a state in which a waiter was served. */
  ghost predicate WayOn(p: Pool, more: seq<Step>, bound: nat, reconnect: bool) {
    && Runs(p, more) && |more| <= bound
    && (forall s :: s in more ==> Onward(s, reconnect))
    && exists t :: Served(p, After(p, more), t)
  }

  /** A woken thread takes an idle connection. */
  lemma RetryServes(p: Pool, t: nat, reconnect: bool) returns (more: seq<Step>)
    requires t < |p.threads| && p.threads[t].pc.Woken? && p.shared.idle != [] && !p.shared.stop
    ensures WayOn(p, more, 1, reconnect)
  {
    RunsStep(p, Retry(t), []);
    more := [Retry(t)] + [];
    assert Served(p, After(p, more), t);
  }

  /** A step that changes no waiting thread but to wake it, in front of a way on. */
  lemma StepThen(p: Pool, s: Step, more: seq<Step>, bound: nat, reconnect: bool) returns (all: seq<Step>)
    requires Enabled(p, s) && Onward(s, reconnect) && WayOn(Do(p, s), more, bound, reconnect)
    requires var q := Do(p, s);
             |q.threads| == |p.threads|
             && forall t :: 0 <= t < |p.threads| && !q.threads[t].pc.Busy? ==>
                  !p.threads[t].pc.Busy? && q.threads[t].held == p.threads[t].held
    ensures WayOn(p, all, bound + 1, reconnect)
  {
    RunsStep(p, s, more);
    all := [s] + more;
    var t :| Served(Do(p, s), After(Do(p, s), more), t);
    assert Served(p, After(p, all), t);
  }

  /** The waiter a notification goes to: one that sleeps, if there is one. */
  lemma Notified(ts: seq<Thread>) returns (w: nat)
    ensures MayNotify(ts, w)
    ensures (exists t :: 0 <= t < |ts| && !ts[t].pc.Busy?) ==>
              exists t :: 0 <= t < |ts| && NotifyOne(ts, w)[t].pc.Woken?
  {
    if !NoneAsleep(ts) {
      w :| w < |ts| && ts[w].pc.Asleep?;
      assert NotifyOne(ts, w)[w].pc.Woken?;
    } else {
      w := |ts|;
      assert NotifyOne(ts, w) == ts;
    }
  }

  /** A thread that holds one gives it back. */
  lemma ReturnServes(p: Pool, b: nat, reconnect: bool) returns (more: seq<Step>)
    requires SomeoneWaits(p) && !p.shared.stop
    requires b < |p.threads| && p.threads[b].pc.Busy? && p.threads[b].held != []
    ensures WayOn(p, more, 2, reconnect)
  {
    var held := p.threads[b].held;
    var ts := p.threads[b := Thread(Busy, held[..0] + held[1..])];
    var w := Notified(ts);
    var u: nat :| u < |p.threads| && !p.threads[u].pc.Busy?;
    assert !ts[u].pc.Busy?;
    var t: nat :| t < |ts| && NotifyOne(ts, w)[t].pc.Woken?;
    assert forall i :: 0 <= i < |ts| && ts[i].pc.Asleep? ==> p.threads[i].pc.Asleep?;
    assert MayNotify(p.threads, w) by {
      assert forall i :: 0 <= i < |ts| && p.threads[i].pc.Asleep? ==> ts[i].pc.Asleep?;
    }
    var s := Return(b, 0, w);
    more := RetryServes(Do(p, s), t, reconnect);
    more := StepThen(p, s, more, 1, reconnect);
  }

  /** How far the checker is from giving a connection back. */
  function ToPass(p: Pool): (n: nat) {
    match p.checker
    case Testing(_) => 1
    case Pushed => if p.shared.idle != [] then 3 else 6
    case Connected(_) => 4
    case Resting => if p.shared.idle != [] then 2 else 5
    case _ => if p.shared.idle != [] then 3 else 6
  }

  /** The checker has a connection, can take one, or, if it may reconnect, has one to make. */
  ghost predicate CheckerHelps(p: Pool, reconnect: bool) {
    !p.kind.Chat? &&
    match p.checker
    case Testing(_) => true
    case Connected(_) => p.fails > 0
    case Pushed => p.fails > 0 && (p.shared.idle != [] || (reconnect && p.fails > 1))
    case Freed => p.shared.idle != [] || reconnect
    case _ => p.shared.idle != [] || (reconnect && p.fails > 0)
  }

  lemma {:induction false} CheckerServes(p: Pool, reconnect: bool) returns (more: seq<Step>)
    requires SomeoneWaits(p) && !p.shared.stop && CheckerHelps(p, reconnect)
    ensures WayOn(p, more, ToPass(p) + 1, reconnect)
    decreases ToPass(p)
  {
    if p.checker.Testing? {
      var w := Notified(p.threads);
      var t: nat :| t < |p.threads| && NotifyOne(p.threads, w)[t].pc.Woken?;
      more := RetryServes(Do(p, CheckPass(w)), t, reconnect);
      more := StepThen(p, CheckPass(w), more, 1, reconnect);
    } else {
      var s := match p.checker
               case Resting => if p.shared.idle != [] then CheckTake else Connect
               case Pushed => Uncount
               case Connected(_) => Push
               case _ => Settle;
      var q := Do(p, s);
      assert q.threads == p.threads;
      more := CheckerServes(q, reconnect);
      more := StepThen(p, s, more, ToPass(p), reconnect);
    }
  }

  /** If every thread that holds a connection waits for another, and more are usable than such threads
      can hold, then one is idle, under test or new. */
  lemma SomeConnectionFree(p: Pool)
    requires PoolOk(p) && HoldersWait(p) && Usable(p) > Excess(p.depth)
    ensures p.shared.idle != [] || p.checker.Testing? || p.checker.Connected?
  {
    WaitersHoldLittle(p.threads, p.depth);
  }

  /** And if more were created than such threads can hold, one is idle, with the checker, or counted as
      a failure that it can make good. */
  lemma SomeConnectionDue(p: Pool)
    requires PoolOk(p) && HoldersWait(p) && !p.shared.stop && p.created > Excess(p.depth) && !p.kind.Chat?
    ensures CheckerHelps(p, true)
  {
    WaitersHoldLittle(p.threads, p.depth);
  }

  /** A pool without a checker never has anything to check. */
  ghost predicate ChatQuiet(p: Pool) {
    p.kind.Chat? ==> p.checker.Resting? && p.fails == 0 && p.silent == 0
  }

  lemma {:induction false} ChatStaysQuiet(p: Pool, run: seq<Step>)
    requires ChatQuiet(p) && Runs(p, run)
    ensures ChatQuiet(After(p, run))
    decreases |run|
  {
    if run != [] {
      ChatStaysQuiet(Do(p, run[0]), run[1..]);
    }
  }

  lemma WayOnExists(p: Pool) returns (more: seq<Step>)
    requires PoolOk(p) && ChatQuiet(p) && !p.shared.stop && SomeoneWaits(p) && Usable(p) > Excess(p.depth)
    ensures WayOn(p, more, 5, false)
  {
    if t: nat :| t < |p.threads| && p.threads[t].pc.Woken? && p.shared.idle != [] {
      more := RetryServes(p, t, false);
    } else if !HoldersWait(p) {
      var b: nat :| b < |p.threads| && p.threads[b].pc.Busy? && p.threads[b].held != [];
      more := ReturnServes(p, b, false);
    } else {
      SomeConnectionFree(p);
      CountZero(p.threads, Asleep);
      CountZero(p.threads, Woken);
      more := CheckerServes(p, false);
    }
  }

  lemma ReconnectOnExists(p: Pool) returns (more: seq<Step>)
    requires PoolOk(p) && ChatQuiet(p) && !p.shared.stop && SomeoneWaits(p) && p.created > Excess(p.depth)
    ensures WayOn(p, more, 7, true)
  {
    if t: nat :| t < |p.threads| && p.threads[t].pc.Woken? && p.shared.idle != [] {
      more := RetryServes(p, t, true);
    } else if !HoldersWait(p) {
      var b: nat :| b < |p.threads| && p.threads[b].pc.Busy? && p.threads[b].held != [];
      more := ReturnServes(p, b, true);
    } else if p.kind.Chat? {
      more := WayOnExists(p);
    } else {
      SomeConnectionDue(p);
      more := CheckerServes(p, true);
    }
  }

  /** Deadlock freedom, as progress.  If thread t never holds more than depth[t] connections and more
      than the sum of depth[t] - 1 are usable, then from every reachable state of an open pool in
      which a thread waits, at most five steps that ask for nothing new and open no connection - a
      return, the checker's own steps, a woken thread's retry - lead to a waiter being lent one. */
  lemma NoDeadlock(kind: Kind, depth: seq<nat>, created: nat, run: seq<Step>) returns (more: seq<Step>)
    requires Runs(Init(kind, depth, created), run)
    requires var p := After(Init(kind, depth, created), run);
             Usable(p) > Excess(depth) && !p.shared.stop && SomeoneWaits(p)
    ensures WayOn(After(Init(kind, depth, created), run), more, 5, false)
  {
    InitOk(kind, depth, created);
    RunOk(Init(kind, depth, created), run);
    ChatStaysQuiet(Init(kind, depth, created), run);
    more := WayOnExists(After(Init(kind, depth, created), run));
  }

  /** When reconnecting works, it is enough that more connections were created: however many have died
      since, at most seven such steps lend one to a waiter, with the checker opening what it needs. */
  lemma NoDeadlockWithReconnect(kind: Kind, depth: seq<nat>, created: nat, run: seq<Step>)
    returns (more: seq<Step>)
    requires Runs(Init(kind, depth, created), run) && created > Excess(depth)
    requires var p := After(Init(kind, depth, created), run); !p.shared.stop && SomeoneWaits(p)
    ensures WayOn(After(Init(kind, depth, created), run), more, 7, true)
  {
    InitOk(kind, depth, created);
    RunOk(Init(kind, depth, created), run);
    ChatStaysQuiet(Init(kind, depth, created), run);
    more := ReconnectOnExists(After(Init(kind, depth, created), run));
  }

  /** One thread that may hold two connections holds one and waits; the other was found dead. */
  function HalfDead(kind: Kind, checker: Checker, fails: nat): (p: Pool) {
    Pool(kind, [2], 2, Shared([], false), [Thread(Asleep, [0])], checker, fails, 2, 0)
  }

  lemma {:induction false} HalfDeadStays(p: Pool, more: seq<Step>)
    requires exists kind: Kind, checker, fails :: !kind.Chat? && p == HalfDead(kind, checker, fails)
               && (checker == Counted(1) || checker == Freed || checker == Resting)
    requires Runs(p, more) && forall s :: s in more ==> Onward(s, false)
    ensures After(p, more).threads == p.threads
    decreases |more|
  {
    if more != [] {
      assert Onward(more[0], false);
      assert more[0].Settle?;
      assert Do(p, more[0]) == HalfDead(p.kind, Resting, Do(p, more[0]).fails);
      HalfDeadStays(Do(p, more[0]), more[1..]);
    }
  }

  /** Why a connection found dead must not count: a state that is reached, with as many connections
      alive to the balance as the constructor made, from which without a reconnection no waiter is
      ever served. */
  lemma FoundDeadServesNobody() returns (run: seq<Step>)
    ensures Runs(Init(MySql, [2], 2), run)
    ensures var p := After(Init(MySql, [2], 2), run);
            && Live(p) == 2 > Excess([2]) == Usable(p) && SomeoneWaits(p)
            && forall more, bound :: !WayOn(p, more, bound, false)
  {
    run := HalfDeadReached();
    HalfDeadCounts();
    var p := HalfDead(MySql, Counted(1), 1);
    forall more, bound
      ensures !WayOn(p, more, bound, false)
    {
      if WayOn(p, more, bound, false) {
        HalfDeadStays(p, more);
      }
    }
  }

  lemma HalfDeadReached() returns (run: seq<Step>)
    ensures Runs(Init(MySql, [2], 2), run) && After(Init(MySql, [2], 2), run) == HalfDead(MySql, Counted(1), 1)
  {
    var p0 := Init(MySql, [2], 2);
    var p1 := Pool(MySql, [2], 2, Shared([1], false), [Thread(Busy, [0])], Resting, 0, 2, 0);
    var p2 := p1.(shared := Shared([], false), checker := Testing(1));
    var p3 := p2.(checker := Counted(1), fails := 1);
    assert p0.shared.idle == [0, 1] && p0.threads == [Thread(Busy, [])];
    assert p0.shared.idle[1..] == [1] && p0.threads[0].held + [0] == [0];
    assert Do(p0, Get(0)).threads == p1.threads;
    assert Do(p1, CheckTake) == p2;
    assert Do(p2, CheckFail) == p3;
    RunsStep(p3, Get(0), []);
    RunsStep(p2, CheckFail, [Get(0)] + []);
    RunsStep(p1, CheckTake, [CheckFail] + ([Get(0)] + []));
    RunsStep(p0, Get(0), [CheckTake] + ([CheckFail] + ([Get(0)] + [])));
    run := [Get(0)] + ([CheckTake] + ([CheckFail] + ([Get(0)] + [])));
  }

  lemma HalfDeadCounts()
    ensures var p := HalfDead(MySql, Counted(1), 1);
            Live(p) == 2 && Excess([2]) == 1 == Usable(p) && SomeoneWaits(p)
  {
    var p := HalfDead(MySql, Counted(1), 1);
    assert p.threads[1..] == [] && !p.threads[0].pc.Busy?;
    assert [2][1..] == [];
  }

  /** In a closed pool nobody sleeps, and whoever waits is let go without a connection. */
  lemma ClosedPoolLetsGo(kind: Kind, depth: seq<nat>, created: nat, run: seq<Step>, t: nat)
    requires Runs(Init(kind, depth, created), run)
    requires var p := After(Init(kind, depth, created), run);
             p.shared.stop && t < |p.threads| && !p.threads[t].pc.Busy?
    ensures var p := After(Init(kind, depth, created), run);
            Enabled(p, Retry(t)) && Do(p, Retry(t)).threads[t] == Thread(Busy, p.threads[t].held)
  {
    InitOk(kind, depth, created);
    RunOk(Init(kind, depth, created), run);
    CountZero(After(Init(kind, depth, created), run).threads, Asleep);
  }

  lemma {:induction false} ExcessOfOnes(n: nat)
    ensures Excess(seq(n, _ => 1)) == 0
  {
    if n > 0 {
      assert seq(n, _ => 1)[1..] == seq(n - 1, _ => 1);
      ExcessOfOnes(n - 1);
    }
  }

  /** The server's own case: the logic worker may hold two connections at once, and any number of RPC
      handlers one each.  Two usable connections suffice. */
  lemma TwoConnectionsSuffice(handlers: nat, created: nat, run: seq<Step>) returns (more: seq<Step>)
    requires var depth := [2] + seq(handlers, _ => 1); Runs(Init(MySql, depth, created), run)
    requires var p := After(Init(MySql, [2] + seq(handlers, _ => 1), created), run);
             Usable(p) >= 2 && !p.shared.stop && SomeoneWaits(p)
    ensures WayOn(After(Init(MySql, [2] + seq(handlers, _ => 1), created), run), more, 5, false)
  {
    var depth := [2] + seq(handlers, _ => 1);
    ExcessOfOnes(handlers);
    assert depth[1..] == seq(handlers, _ => 1);
    more := NoDeadlock(MySql, depth, created, run);
  }

  // ---- the bound is tight ----

  lemma {:induction false} RunsConcat(p: Pool, a: seq<Step>, b: seq<Step>)
    requires Runs(p, a) && Runs(After(p, a), b)
    ensures Runs(p, a + b) && After(p, a + b) == After(After(p, a), b)
    decreases |a|
  {
    if a == [] {
      assert a + b == b;
    } else {
      RunsConcat(Do(p, a[0]), a[1..], b);
      assert (a + b)[1..] == a[1..] + b;
    }
  }

  /** One thread takes `k` connections in a row. */
  lemma {:induction false} TakeMany(p: Pool, t: nat, k: nat) returns (run: seq<Step>)
    requires t < |p.threads| == |p.depth| && p.threads[t].pc.Busy? && !p.shared.stop
    requires k <= |p.shared.idle| && |p.threads[t].held| + k <= p.depth[t]
    ensures Runs(p, run) && forall s :: s in run ==> s.Get?
    ensures After(p, run) == p.(shared := Shared(p.shared.idle[k..], false),
                                threads := p.threads[t := Thread(Busy, p.threads[t].held + p.shared.idle[..k])])
    decreases k
  {
    if k == 0 {
      run := [];
      assert p.threads[t].held + [] == p.threads[t].held;
      assert p.threads[t := p.threads[t]] == p.threads;
    } else {
      var q := Do(p, Get(t));
      var rest := TakeMany(q, t, k - 1);
      RunsStep(p, Get(t), rest);
      run := [Get(t)] + rest;
      assert q.threads[t].held + q.shared.idle[..k - 1] == p.threads[t].held + p.shared.idle[..k];
    }
  }

  /** Threads t, t + 1, ... take all they can hold but one. */
  lemma {:induction false} TakeAll(p: Pool, t: nat) returns (run: seq<Step>)
    requires t <= |p.threads| == |p.depth| && !p.shared.stop
    requires forall u :: 0 <= u < |p.depth| ==> p.depth[u] > 0
    requires forall u :: t <= u < |p.threads| ==> p.threads[u] == Thread(Busy, [])
    requires |p.shared.idle| == Excess(p.depth[t..])
    ensures Runs(p, run) && forall s :: s in run ==> s.Get?
    ensures var q := After(p, run);
            && q == p.(shared := q.shared, threads := q.threads) && q.shared == Shared([], false)
            && |q.threads| == |p.threads|
            && (forall u :: 0 <= u < t ==> q.threads[u] == p.threads[u])
            && forall u :: t <= u < |q.threads| ==> q.threads[u].pc.Busy? && |q.threads[u].held| == p.depth[u] - 1
    decreases |p.threads| - t
  {
    if t == |p.threads| {
      run := [];
    } else {
      var k := p.depth[t] - 1;
      assert p.depth[t..][0] == p.depth[t] && p.depth[t..][1..] == p.depth[t + 1..];
      var a := TakeMany(p, t, k);
      var q := After(p, a);
      var b := TakeAll(q, t + 1);
      RunsConcat(p, a, b);
      run := a + b;
    }
  }

  /** And then each asks for one more and sleeps. */
  lemma {:induction false} AllAsk(p: Pool, t: nat) returns (run: seq<Step>)
    requires t <= |p.threads| == |p.depth| && p.shared == Shared([], false)
    requires forall u :: t <= u < |p.threads| ==> p.threads[u].pc.Busy? && |p.threads[u].held| < p.depth[u]
    ensures Runs(p, run) && forall s :: s in run ==> s.Get?
    ensures var q := After(p, run);
            && q == p.(threads := q.threads) && |q.threads| == |p.threads|
            && (forall u :: 0 <= u < t ==> q.threads[u] == p.threads[u])
            && forall u :: t <= u < |q.threads| ==> q.threads[u] == Thread(Asleep, p.threads[u].held)
    decreases |p.threads| - t
  {
    if t == |p.threads| {
      run := [];
    } else {
      var q := Do(p, Get(t));
      var rest := AllAsk(q, t + 1);
      RunsStep(p, Get(t), rest);
      run := [Get(t)] + rest;
    }
  }

  /** The bound cannot be lowered: with exactly the sum of depth[t] - 1 connections there is a run
      of plain requests after which every thread sleeps and no step is possible but a wakeup for
      no reason or the closing of the pool. */
  lemma BoundIsTight(kind: Kind, depth: seq<nat>) returns (run: seq<Step>)
    requires forall t :: 0 <= t < |depth| ==> depth[t] > 0
    ensures Runs(Init(kind, depth, Excess(depth)), run) && forall s :: s in run ==> s.Get?
    ensures var p := After(Init(kind, depth, Excess(depth)), run);
            && (forall t :: 0 <= t < |p.threads| ==> p.threads[t].pc.Asleep?)
            && Live(p) == Excess(depth)
            && forall s :: Enabled(p, s) ==> s.Spurious? || s.Close?
  {
    var p := Init(kind, depth, Excess(depth));
    assert depth[0..] == depth;
    var a := TakeAll(p, 0);
    var q := After(p, a);
    var b := AllAsk(q, 0);
    RunsConcat(p, a, b);
    run := a + b;
    NoneLost(kind, depth, Excess(depth), run);
    Stuck(After(p, run));
  }

  lemma NoneLost(kind: Kind, depth: seq<nat>, created: nat, run: seq<Step>)
    requires Runs(Init(kind, depth, created), run)
    ensures var p := After(Init(kind, depth, created), run);
            p.checker.Resting? && p.fails == 0 && !p.shared.stop ==> Live(p) == created
  {
    InitOk(kind, depth, created);
    RunOk(Init(kind, depth, created), run);
  }

  lemma Stuck(p: Pool)
    requires forall t :: 0 <= t < |p.threads| ==> p.threads[t].pc.Asleep?
    requires p.shared.idle == [] && p.fails == 0 && p.checker.Resting?
    ensures forall s :: Enabled(p, s) ==> s.Spurious? || s.Close?
  {
  }
}
