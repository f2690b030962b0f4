/** A connection pool under any interleaving of its borrowers and its checker thread.  One
    machine covers the three pools: the chat-server pool has no checker, and the MySQL and
    Redis checkers differ in the order of their updates and in what they do after a stop. */
module PoolMachine {
  import opened PoolSpec

  type Conn = nat

  datatype Kind = Chat | MySql | Redis

  /** `Asleep`: waiting on the condition variable.  `Woken`: notified, or woken for no reason, and
      yet to take the mutex again. */
  datatype Pc = Busy | Asleep | Woken
  datatype Thread = Thread(pc: Pc, held: seq<Conn>)

  /** `Counted`: a dead connection is counted but not yet destroyed (MySQL).  `Freed`: it is
      destroyed but not yet counted (Redis).  `Connected`: a new connection exists and is not yet
      pushed.  `Pushed`: it is pushed and the counter not yet lowered. */
  datatype Checker = Resting | Testing(c: Conn) | Counted(c: Conn) | Freed | Connected(c: Conn) | Pushed

  datatype Pool = Pool(
    kind: Kind,
    depth: seq<nat>,         // how many connections each thread may hold at once
    created: nat,            // connections made by the constructor
    shared: Shared<Conn>,
    threads: seq<Thread>,
    checker: Checker,
    fails: nat,              // _fail_count
    next: Conn,              // all connections so far are below it
    silent: nat)             // pushes made without a notification, so far

  function Init(kind: Kind, depth: seq<nat>, created: nat): (r: Pool) {
    Pool(kind, depth, created, Shared(seq(created, i => i), false),
         seq(|depth|, _ => Thread(Busy, [])), Resting, 0, created, 0)
  }

  datatype Step =
    | Get(t: nat)                       // getConnection, up to its first sleep or its result
    | Retry(t: nat)                     // a woken waiter evaluates the condition again
    | Spurious(t: nat)                  // a waiter wakes for no reason
    | Return(t: nat, i: nat, w: nat)    // returnConnection of held[i]; w is the waiter notified
    | Close                             // the stop flag and the notification of all waiters
    | CheckTake                         // the checker takes the front
    | CheckPass(w: nat)                 // it is healthy and goes back
    | CheckFail                         // it is not
    | Settle                            // the second half of a failure
    | Connect                           // reconnect makes a connection
    | Push                              // and pushes it, notifying nobody
    | Uncount                           // and the counter is lowered

  predicate NoneAsleep(ts: seq<Thread>) {
    forall t :: 0 <= t < |ts| ==> !ts[t].pc.Asleep?
  }

  /** notify_one wakes some waiter if there is one. */
  predicate MayNotify(ts: seq<Thread>, w: nat) {
    if w < |ts| then ts[w].pc.Asleep? || NoneAsleep(ts) else NoneAsleep(ts)
  }

  function NotifyOne(ts: seq<Thread>, w: nat): (r: seq<Thread>)
    ensures |r| == |ts|
  {
    if w < |ts| && ts[w].pc.Asleep? then ts[w := ts[w].(pc := Woken)] else ts
  }

  function NotifyAll(ts: seq<Thread>): (r: seq<Thread>)
    ensures |r| == |ts|
  {
    seq(|ts|, i requires 0 <= i < |ts| => if ts[i].pc.Asleep? then ts[i].(pc := Woken) else ts[i])
  }

  predicate Enabled(p: Pool, s: Step) {
    match s
    case Get(t) => t < |p.threads| == |p.depth| && p.threads[t].pc.Busy? && |p.threads[t].held| < p.depth[t]
    case Retry(t) => t < |p.threads| && p.threads[t].pc.Woken?
    case Spurious(t) => t < |p.threads| && p.threads[t].pc.Asleep?
    case Return(t, i, w) =>
      t < |p.threads| && p.threads[t].pc.Busy? && i < |p.threads[t].held| && MayNotify(p.threads, w)
    case Close => true
    case CheckTake =>
      !p.kind.Chat? && p.checker.Resting? && p.shared.idle != [] && (p.kind.Redis? ==> !p.shared.stop)
    case CheckPass(w) => p.checker.Testing? && MayNotify(p.threads, w)
    case CheckFail => p.checker.Testing?
    case Settle => p.checker.Counted? || p.checker.Freed?
    case Connect => p.checker.Resting? && p.fails > 0
    case Push => p.checker.Connected?
    case Uncount => p.checker.Pushed? && p.fails > 0
  }

  function Ask(p: Pool, t: nat): (r: Pool)
    requires t < |p.threads|
  {
    var (g, s) := Acquire(p.shared);
    var held := p.threads[t].held;
    var th := match g
              case Wait => Thread(Asleep, held)
              case Null => Thread(Busy, held)
              case Lent(c) => Thread(Busy, held + [c]);
    p.(shared := s, threads := p.threads[t := th])
  }

  function PutBack(p: Pool, c: Conn, w: nat): (r: Pool) {
    var (notify, s) := GiveBack(p.shared, c);
    p.(shared := s, threads := if notify then NotifyOne(p.threads, w) else p.threads)
  }

  function Do(p: Pool, s: Step): (r: Pool)
    requires Enabled(p, s)
  {
    match s
    case Get(t) => Ask(p, t)
    case Retry(t) => Ask(p, t)
    case Spurious(t) => p.(threads := p.threads[t := p.threads[t].(pc := Woken)])
    case Return(t, i, w) =>
      var held := p.threads[t].held;
      PutBack(p.(threads := p.threads[t := Thread(Busy, held[..i] + held[i + 1..])]), held[i], w)
    case Close => p.(shared := p.shared.(stop := true), threads := NotifyAll(p.threads))
    case CheckTake =>
      p.(shared := p.shared.(idle := p.shared.idle[1..]), checker := Testing(p.shared.idle[0]))
    case CheckPass(w) =>
      var c := p.checker.c;
      var q := p.(checker := Resting);
      if p.kind.MySql? then
        q.(shared := p.shared.(idle := p.shared.idle + [c]), threads := NotifyOne(p.threads, w))
      else PutBack(q, c, w)
    case CheckFail =>
      if p.kind.MySql? then p.(checker := Counted(p.checker.c), fails := p.fails + 1)
      else p.(checker := Freed)
    case Settle =>
      if p.checker.Counted? then p.(checker := Resting) else p.(checker := Resting, fails := p.fails + 1)
    case Connect => p.(checker := Connected(p.next), next := p.next + 1)
    case Push =>
      p.(shared := p.shared.(idle := p.shared.idle + [p.checker.c]), checker := Pushed, silent := p.silent + 1)
    case Uncount => p.(checker := Resting, fails := p.fails - 1)
  }

  ghost predicate Runs(p: Pool, run: seq<Step>)
    decreases |run|
  {
    run == [] || (Enabled(p, run[0]) && Runs(Do(p, run[0]), run[1..]))
  }

  ghost function After(p: Pool, run: seq<Step>): (r: Pool)
    requires Runs(p, run)
    decreases |run|
  {
    if run == [] then p else After(Do(p, run[0]), run[1..])
  }

  // ---- who has what ----

  function Times(s: seq<Conn>, c: Conn): (r: nat) {
    multiset(s)[c]
  }

  /** In how many hands of borrowers a connection is, and how many they hold together. */
  function InHands(ts: seq<Thread>, c: Conn): (r: nat) {
    if ts == [] then 0 else Times(ts[0].held, c) + InHands(ts[1..], c)
  }

  function Borrowed(ts: seq<Thread>): (r: nat) {
    if ts == [] then 0 else |ts[0].held| + Borrowed(ts[1..])
  }

  /** At most one connection. */
  datatype Maybe = None | Just(c: Conn)

  function CheckerHas(k: Checker): (r: Maybe) {
    match k
    case Testing(c) => Just(c)
    case Counted(c) => Just(c)
    case Connected(c) => Just(c)
    case _ => None
  }

  function One(m: Maybe, c: Conn): (r: nat) {
    if m == Just(c) then 1 else 0
  }

  function Size(m: Maybe): (r: nat) {
    if m.None? then 0 else 1
  }

  /** In how many places of the pool a connection is. */
  function Places(p: Pool, c: Conn): (r: nat) {
    Times(p.shared.idle, c) + InHands(p.threads, c) + One(CheckerHas(p.checker), c)
  }

  /** How many connections are alive. */
  function Live(p: Pool): (r: nat) {
    |p.shared.idle| + Borrowed(p.threads) + Size(CheckerHas(p.checker))
  }

  /** How far the checker is off in the middle of an update. */
  function Slack(k: Checker): (r: int) {
    match k
    case Counted(_) => 1
    case Connected(_) => 1
    case Pushed => 1
    case Freed => -1
    case _ => 0
  }

  function Count(ts: seq<Thread>, pc: Pc): (r: nat) {
    if ts == [] then 0 else (if ts[0].pc == pc then 1 else 0) + Count(ts[1..], pc)
  }

  lemma {:induction false} HandsUpdate(ts: seq<Thread>, t: nat, th: Thread, c: Conn)
    requires t < |ts|
    ensures InHands(ts[t := th], c) == InHands(ts, c) - Times(ts[t].held, c) + Times(th.held, c)
    ensures Borrowed(ts[t := th]) == Borrowed(ts) - |ts[t].held| + |th.held|
    ensures Times(ts[t].held, c) <= InHands(ts, c)
  {
    if t == 0 {
      assert ts[t := th][1..] == ts[1..];
    } else {
      assert ts[t := th][1..] == ts[1..][t - 1 := th];
      HandsUpdate(ts[1..], t - 1, th, c);
    }
  }

  lemma {:induction false} CountUpdate(ts: seq<Thread>, t: nat, th: Thread, pc: Pc)
    requires t < |ts|
    ensures Count(ts[t := th], pc)
         == Count(ts, pc) - (if ts[t].pc == pc then 1 else 0) + (if th.pc == pc then 1 else 0)
    ensures ts[t].pc == pc ==> Count(ts, pc) >= 1
  {
    if t == 0 {
      assert ts[t := th][1..] == ts[1..];
    } else {
      assert ts[t := th][1..] == ts[1..][t - 1 := th];
      CountUpdate(ts[1..], t - 1, th, pc);
    }
  }

  lemma {:induction false} CountZero(ts: seq<Thread>, pc: Pc)
    ensures Count(ts, pc) == 0 <==> forall t :: 0 <= t < |ts| ==> ts[t].pc != pc
  {
    if ts != [] {
      CountZero(ts[1..], pc);
      if Count(ts, pc) == 0 {
        assert forall t :: 0 < t < |ts| ==> ts[t] == ts[1..][t - 1];
      } else if ts[0].pc != pc {
        var t :| 0 <= t < |ts[1..]| && ts[1..][t].pc == pc;
        assert ts[t + 1].pc == pc;
      }
    }
  }

  lemma {:induction false} SameHeld(ts: seq<Thread>, us: seq<Thread>, c: Conn)
    requires |ts| == |us| && forall t :: 0 <= t < |ts| ==> ts[t].held == us[t].held
    ensures InHands(ts, c) == InHands(us, c) && Borrowed(ts) == Borrowed(us)
  {
    if ts != [] {
      SameHeld(ts[1..], us[1..], c);
    }
  }

  // ---- ownership and conservation ----

  /** Each connection is in at most one place, and none exists before it is made. */
  ghost predicate Owned(p: Pool) {
    forall c: Conn :: Places(p, c) <= 1 && (c >= p.next ==> Places(p, c) == 0)
  }

  /** Live connections and counted failures add up to the number created; after a stop returned
      connections are dropped, and they may add up to less. */
  ghost predicate Balanced(p: Pool) {
    && Live(p) + p.fails <= p.created + Slack(p.checker)
    && (!p.shared.stop ==> Live(p) + p.fails == p.created + Slack(p.checker))
    && (p.checker.Counted? || p.checker.Connected? || p.checker.Pushed? ==> p.fails > 0)
  }

  /** What a step loses: a connection dropped by a stopped pool or destroyed by the checker. */
  function Lost(p: Pool, s: Step): (r: Maybe)
    requires Enabled(p, s)
  {
    match s
    case Return(t, i, _) => if p.shared.stop then Just(p.threads[t].held[i]) else None
    case CheckPass(_) => if p.shared.stop && !p.kind.MySql? then Just(p.checker.c) else None
    case CheckFail => if p.kind.MySql? then None else Just(p.checker.c)
    case Settle => if p.checker.Counted? then Just(p.checker.c) else None
    case _ => None
  }

  function Made(p: Pool, s: Step): (r: Maybe) {
    if s.Connect? then Just(p.next) else None
  }

  lemma TimesConcat(a: seq<Conn>, b: seq<Conn>, c: Conn)
    ensures Times(a + b, c) == Times(a, c) + Times(b, c)
  {
  }

  lemma TimesPush(s: seq<Conn>, d: Conn, c: Conn)
    ensures Times(s + [d], c) == Times(s, c) + One(Just(d), c)
  {
  }

  lemma TimesFront(s: seq<Conn>, c: Conn)
    requires s != []
    ensures Times(s, c) == One(Just(s[0]), c) + Times(s[1..], c)
  {
    assert s == [s[0]] + s[1..];
    TimesConcat([s[0]], s[1..], c);
  }

  lemma AskMoves(p: Pool, t: nat, c: Conn)
    requires t < |p.threads|
    ensures Places(Ask(p, t), c) == Places(p, c) && Live(Ask(p, t)) == Live(p)
  {
    HandsUpdate(p.threads, t, Ask(p, t).threads[t], c);
    if !p.shared.stop && p.shared.idle != [] {
      TimesFront(p.shared.idle, c);
      TimesPush(p.threads[t].held, p.shared.idle[0], c);
    }
  }

  lemma NotifyMoves(ts: seq<Thread>, w: nat, c: Conn)
    ensures InHands(NotifyOne(ts, w), c) == InHands(ts, c) && Borrowed(NotifyOne(ts, w)) == Borrowed(ts)
    ensures InHands(NotifyAll(ts), c) == InHands(ts, c) && Borrowed(NotifyAll(ts)) == Borrowed(ts)
  {
    SameHeld(NotifyOne(ts, w), ts, c);
    SameHeld(NotifyAll(ts), ts, c);
  }

  lemma TimesRemoved(s: seq<Conn>, i: nat, c: Conn)
    requires i < |s|
    ensures Times(s[..i] + s[i + 1..], c) == Times(s, c) - One(Just(s[i]), c)
  {
    assert s == (s[..i] + [s[i]]) + s[i + 1..];
    TimesConcat(s[..i] + [s[i]], s[i + 1..], c);
    TimesPush(s[..i], s[i], c);
    TimesConcat(s[..i], s[i + 1..], c);
  }

  lemma ReturnMoves(p: Pool, t: nat, i: nat, w: nat, c: Conn)
    requires Enabled(p, Return(t, i, w))
    ensures Moved(p, Return(t, i, w), c)
  {
    var held := p.threads[t].held;
    var th := Thread(Busy, held[..i] + held[i + 1..]);
    TimesRemoved(held, i, c);
    TimesPush(p.shared.idle, held[i], c);
    HandsUpdate(p.threads, t, th, c);
    NotifyMoves(p.threads[t := th], w, c);
  }

  ghost predicate Moved(p: Pool, s: Step, c: Conn)
    requires Enabled(p, s)
  {
    var p' := Do(p, s);
    && Places(p', c) == Places(p, c) - One(Lost(p, s), c) + One(Made(p, s), c)
    && Live(p') == Live(p) - Size(Lost(p, s)) + Size(Made(p, s))
  }

  lemma BorrowerMoves(p: Pool, s: Step, c: Conn)
    requires Enabled(p, s) && (s.Get? || s.Retry? || s.Spurious? || s.Return? || s.Close?)
    ensures Moved(p, s, c)
  {
    match s
    case Get(t) => AskMoves(p, t, c);
    case Retry(t) => AskMoves(p, t, c);
    case Spurious(t) => HandsUpdate(p.threads, t, p.threads[t].(pc := Woken), c);
    case Return(t, i, w) => ReturnMoves(p, t, i, w, c);
    case Close => NotifyMoves(p.threads, 0, c);
  }

  lemma CheckPassMoves(p: Pool, w: nat, c: Conn)
    requires Enabled(p, CheckPass(w))
    ensures Moved(p, CheckPass(w), c)
  {
    NotifyMoves(p.threads, w, c);
    TimesPush(p.shared.idle, p.checker.c, c);
    var p' := Do(p, CheckPass(w));
    assert p'.threads == p.threads || p'.threads == NotifyOne(p.threads, w);
    assert p'.shared.idle == if Lost(p, CheckPass(w)).None? then p.shared.idle + [p.checker.c] else p.shared.idle;
  }

  lemma CheckTakeMoves(p: Pool, c: Conn)
    requires Enabled(p, CheckTake)
    ensures Moved(p, CheckTake, c)
  {
    TimesFront(p.shared.idle, c);
  }

  lemma PushMoves(p: Pool, c: Conn)
    requires Enabled(p, Push)
    ensures Moved(p, Push, c)
  {
    TimesPush(p.shared.idle, p.checker.c, c);
  }

  /** Connections move between the idle queue, the borrowers and the checker; a step loses or
      makes a connection only where the code destroys, drops or opens one. */
  lemma StepMoves(p: Pool, s: Step, c: Conn)
    requires Enabled(p, s)
    ensures Moved(p, s, c)
  {
    match s
    case Get(_) | Retry(_) | Spurious(_) | Return(_, _, _) | Close => BorrowerMoves(p, s, c);
    case CheckPass(w) => CheckPassMoves(p, w, c);
    case CheckTake => CheckTakeMoves(p, c);
    case Push => PushMoves(p, c);
    case CheckFail =>
    case Settle =>
    case Connect =>
    case Uncount =>
  }

  lemma OwnedStep(p: Pool, s: Step)
    requires Owned(p) && Enabled(p, s)
    ensures Owned(Do(p, s))
  {
    forall c: Conn
      ensures Places(Do(p, s), c) <= 1 && (c >= Do(p, s).next ==> Places(Do(p, s), c) == 0)
    {
      StepMoves(p, s, c);
    }
  }

  /** What each step does to the two sides of the balance. */
  lemma Ledger(p: Pool, s: Step)
    requires Enabled(p, s)
    ensures var p' := Do(p, s);
            var gain := Size(Made(p, s)) - Size(Lost(p, s)) + p'.fails - p.fails - (Slack(p'.checker) - Slack(p.checker));
            gain <= 0 && (gain < 0 ==> p.shared.stop) && (p.shared.stop ==> p'.shared.stop)
  {
  }

  lemma BalancedStep(p: Pool, s: Step)
    requires Balanced(p) && Enabled(p, s)
    ensures Balanced(Do(p, s))
  {
    StepMoves(p, s, 0);
    Ledger(p, s);
  }

  // ---- waiting and waking ----

  /** If someone sleeps, there are no more idle connections than waiters already woken for them
      and connections pushed without a notification. */
  ghost predicate Wakeful(p: Pool) {
    Count(p.threads, Asleep) > 0 ==> |p.shared.idle| <= Count(p.threads, Woken) + p.silent
  }

  /** Nobody sleeps in a stopped pool. */
  ghost predicate StopWakes(p: Pool) {
    p.shared.stop ==> Count(p.threads, Asleep) == 0
  }

  /** A thread holds no more than its bound, and less while it waits. */
  ghost predicate WithinDepth(p: Pool) {
    |p.threads| == |p.depth| &&
    forall t :: 0 <= t < |p.depth| ==>
      |p.threads[t].held| <= p.depth[t] && (!p.threads[t].pc.Busy? ==> |p.threads[t].held| < p.depth[t])
  }

  lemma NotifyOneCounts(ts: seq<Thread>, w: nat)
    requires MayNotify(ts, w)
    ensures var us := NotifyOne(ts, w);
            if Count(ts, Asleep) == 0 then us == ts
            else Count(us, Asleep) == Count(ts, Asleep) - 1 && Count(us, Woken) == Count(ts, Woken) + 1
  {
    CountZero(ts, Asleep);
    if w < |ts| && ts[w].pc.Asleep? {
      CountUpdate(ts, w, ts[w].(pc := Woken), Asleep);
      CountUpdate(ts, w, ts[w].(pc := Woken), Woken);
    }
  }

  lemma NotifyAllCounts(ts: seq<Thread>)
    ensures Count(NotifyAll(ts), Asleep) == 0
  {
    CountZero(NotifyAll(ts), Asleep);
  }

  lemma AskWakes(p: Pool, t: nat)
    requires Wakeful(p) && StopWakes(p) && t < |p.threads| && !p.threads[t].pc.Asleep?
    ensures Wakeful(Ask(p, t)) && StopWakes(Ask(p, t))
  {
    CountUpdate(p.threads, t, Ask(p, t).threads[t], Asleep);
    CountUpdate(p.threads, t, Ask(p, t).threads[t], Woken);
  }

  lemma ReturnWakes(p: Pool, t: nat, i: nat, w: nat)
    requires Wakeful(p) && StopWakes(p) && Enabled(p, Return(t, i, w))
    ensures Wakeful(Do(p, Return(t, i, w))) && StopWakes(Do(p, Return(t, i, w)))
  {
    var held := p.threads[t].held;
    var th := Thread(Busy, held[..i] + held[i + 1..]);
    var ts := p.threads[t := th];
    CountUpdate(p.threads, t, th, Asleep);
    CountUpdate(p.threads, t, th, Woken);
    CountZero(p.threads, Asleep);
    CountZero(ts, Asleep);
    NotifyOneCounts(ts, w);
  }

  /** No step loses a wakeup, but for the counted silent pushes. */
  lemma WakefulStep(p: Pool, s: Step)
    requires Wakeful(p) && StopWakes(p) && Enabled(p, s)
    ensures Wakeful(Do(p, s)) && StopWakes(Do(p, s))
  {
    match s
    case Get(t) => AskWakes(p, t);
    case Retry(t) => AskWakes(p, t);
    case Spurious(t) =>
      CountUpdate(p.threads, t, p.threads[t].(pc := Woken), Asleep);
      CountUpdate(p.threads, t, p.threads[t].(pc := Woken), Woken);
    case Return(t, i, w) => ReturnWakes(p, t, i, w);
    case Close => NotifyAllCounts(p.threads);
    case CheckPass(w) => NotifyOneCounts(p.threads, w);
    case _ =>
  }

  lemma WithinDepthStep(p: Pool, s: Step)
    requires WithinDepth(p) && Enabled(p, s)
    requires s.Retry? || s.Get? ==> |p.threads[s.t].held| < p.depth[s.t]
    ensures WithinDepth(Do(p, s))
  {
  }

  ghost predicate PoolOk(p: Pool) {
    Owned(p) && Balanced(p) && Wakeful(p) && StopWakes(p) && WithinDepth(p)
  }

  lemma {:induction false} NothingBorrowed(n: nat, c: Conn)
    ensures var ts := seq(n, _ => Thread(Busy, [])); InHands(ts, c) == 0 && Borrowed(ts) == 0
  {
    if n > 0 {
      assert seq(n, _ => Thread(Busy, []))[1..] == seq(n - 1, _ => Thread(Busy, []));
      NothingBorrowed(n - 1, c);
    }
  }

  lemma {:induction false} Naturals(n: nat, c: Conn)
    ensures Times(seq(n, i => i), c) == if c < n then 1 else 0
  {
    if n > 0 {
      Naturals(n - 1, c);
      assert seq(n, i => i) == seq(n - 1, i => i) + [n - 1];
      TimesPush(seq(n - 1, i => i), n - 1, c);
    }
  }

  lemma InitOk(kind: Kind, depth: seq<nat>, created: nat)
    ensures PoolOk(Init(kind, depth, created))
  {
    var p := Init(kind, depth, created);
    forall c: Conn
      ensures Places(p, c) <= 1 && (c >= p.next ==> Places(p, c) == 0)
    {
      NothingBorrowed(|depth|, c);
      Naturals(created, c);
    }
    NothingBorrowed(|depth|, 0);
    CountZero(p.threads, Asleep);
  }

  lemma StepOk(p: Pool, s: Step)
    requires PoolOk(p) && Enabled(p, s)
    ensures PoolOk(Do(p, s))
  {
    OwnedStep(p, s);
    BalancedStep(p, s);
    WakefulStep(p, s);
    WithinDepthStep(p, s);
  }

  lemma {:induction false} RunOk(p: Pool, run: seq<Step>)
    requires PoolOk(p) && Runs(p, run)
    ensures PoolOk(After(p, run))
    ensures After(p, run).kind == p.kind && After(p, run).created == p.created && After(p, run).depth == p.depth
    ensures (forall s :: s in run ==> !s.Push?) ==> After(p, run).silent == p.silent
    ensures (forall s :: s in run ==> !s.Close?) ==> After(p, run).shared.stop == p.shared.stop
    decreases |run|
  {
    if run != [] {
      StepOk(p, run[0]);
      RunOk(Do(p, run[0]), run[1..]);
      assert forall s :: s in run[1..] ==> s in run;
      assert run[0] in run;
    }
  }
}
