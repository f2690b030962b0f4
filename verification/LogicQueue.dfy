/** The message queue between the sessions and the one logic worker: producers post under
    the mutex and notify only when the queue was empty; the worker waits on the condition
    variable and runs each handler while it holds the mutex. */
module LogicQueue {
  import opened Wire

  const MSG_CHAT_LOGIN := 2001
  const MSG_SEARCH_USER_REQ := 2003
  const MSG_ADD_FRIEND_REQ := 2005
  const MSG_AUTH_FRIEND_REQ := 2008
  const MSG_TEXT_CHAT_MSG_REQ := 2011

  /** The ids that have a handler. */
  predicate Registered(id: int) {
    id in {MSG_CHAT_LOGIN, MSG_SEARCH_USER_REQ, MSG_ADD_FRIEND_REQ, MSG_AUTH_FRIEND_REQ, MSG_TEXT_CHAT_MSG_REQ}
  }

  /** login, search, friend request, approval and text message; every other id is dropped */
  lemma RegisteredIs(id: int)
    ensures Registered(id) <==> id in {2001, 2003, 2005, 2008, 2011}
  {
  }

  datatype Msg = Msg(session: nat, frame: Frame)

  function Handled(ms: seq<Msg>): (r: seq<Msg>) {
    if ms == [] then []
    else Handled(ms[..|ms| - 1]) + (if Registered(ms[|ms| - 1].frame.id) then [ms[|ms| - 1]] else [])
  }

  function FromSession(s: nat, ms: seq<Msg>): (r: seq<Frame>) {
    if ms == [] then []
    else FromSession(s, ms[..|ms| - 1]) + (if ms[|ms| - 1].session == s then [ms[|ms| - 1].frame] else [])
  }

  /** Where the worker is.  `Guard`: it holds the mutex and is about to test the wait condition.
      `Parking`: it found the queue empty and no stop, and is about to wait.  `Past`: it left
      the waiting loop and is about to test the stop flag.  `Calling`: a handler runs on the
      front message. */
  datatype Worker = Unlocked | Guard | Parking | Asleep | Woken | Past | Calling(draining: bool) | Draining | Exited

  datatype Logic = Logic(
    queue: seq<Msg>,
    stop: bool,
    worker: Worker,
    mustNotify: seq<bool>,   // per producer: between its unlock and its notify
    posted: seq<Msg>,        // histories: everything posted,
    done: seq<Msg>,          // everything popped,
    calls: seq<Msg>)         // and every handler call, in order

  /** The worker holds the mutex. */
  predicate Locked(l: Logic) {
    match l.worker
    case Guard | Parking | Past | Calling(_) | Draining => true
    case _ => false
  }

  function Init(producers: nat): (r: Logic) {
    Logic([], false, Unlocked, seq(producers, _ => false), [], [], [])
  }

  datatype Step =
    | Post(p: nat, m: Msg)   // the critical section of postMsgToQue
    | Notify(p: nat)         // its notify_one, after the unlock
    | Lock                   // the worker takes the mutex
    | Test                   // it evaluates the wait condition
    | Park                   // it waits, which frees the mutex
    | Spurious               // it wakes for no reason
    | Choose                 // it tests the stop flag and, without stop, takes the front
    | Return                 // the handler returns and the front is popped
    | Drain                  // one turn of the loop that empties the queue on stop
    | SetStop                // the destructor sets the flag, without the mutex
    | NotifyAll              // and then notifies

  predicate Enabled(l: Logic, s: Step) {
    match s
    case Post(p, _) => p < |l.mustNotify| && !l.mustNotify[p] && !Locked(l)
    case Notify(p) => p < |l.mustNotify| && l.mustNotify[p]
    case Lock => l.worker.Unlocked? || l.worker.Woken?
    case Test => l.worker.Guard?
    case Park => l.worker.Parking?
    case Spurious => l.worker.Asleep?
    case Choose => l.worker.Past? && (l.stop || l.queue != [])
    case Return => l.worker.Calling? && l.queue != []
    case Drain => l.worker.Draining?
    case SetStop => true
    case NotifyAll => l.stop
  }

  /** The front is handed to its handler if it has one, and dropped otherwise. */
  function Take(l: Logic, draining: bool): (r: Logic)
    requires l.queue != []
  {
    var m := l.queue[0];
    if Registered(m.frame.id) then l.(worker := Calling(draining), calls := l.calls + [m])
    else l.(worker := if draining then Draining else Unlocked, queue := l.queue[1..], done := l.done + [m])
  }

  function Do(l: Logic, s: Step): (r: Logic)
    requires Enabled(l, s)
  {
    match s
    case Post(p, m) =>
      l.(queue := l.queue + [m], posted := l.posted + [m],
         mustNotify := l.mustNotify[p := |l.queue| + 1 == 1])
    case Notify(p) =>
      l.(mustNotify := l.mustNotify[p := false], worker := if l.worker.Asleep? then Woken else l.worker)
    case Lock => l.(worker := Guard)
    case Test => l.(worker := if l.queue == [] && !l.stop then Parking else Past)
    case Park => l.(worker := Asleep)
    case Spurious => l.(worker := Woken)
    case Choose => if l.stop then l.(worker := Draining) else Take(l, false)
    case Return =>
      l.(worker := if l.worker.draining then Draining else Unlocked,
         queue := l.queue[1..], done := l.done + [l.queue[0]])
    case Drain => if l.queue == [] then l.(worker := Exited) else Take(l, true)
    case SetStop => l.(stop := true)
    case NotifyAll => l.(worker := if l.worker.Asleep? then Woken else l.worker)
  }

  ghost predicate Runs(l: Logic, run: seq<Step>)
    decreases |run|
  {
    run == [] || (Enabled(l, run[0]) && Runs(Do(l, run[0]), run[1..]))
  }

  ghost function After(l: Logic, run: seq<Step>): (r: Logic)
    requires Runs(l, run)
    decreases |run|
  {
    if run == [] then l else After(Do(l, run[0]), run[1..])
  }

  // ---- the invariant ----

  ghost predicate SomeoneMustNotify(l: Logic) {
    exists p: nat :: p < |l.mustNotify| && l.mustNotify[p]
  }

  /** Everything posted is processed or still queued, in order; the handlers were called for
      the processed messages that have one, once each, and for the front while one runs. */
  ghost predicate Ordered(l: Logic) {
    && l.posted == l.done + l.queue
    && (l.worker.Calling? ==> l.queue != [] && Registered(l.queue[0].frame.id))
    && l.calls == Handled(l.done) + (if l.worker.Calling? then [l.queue[0]] else [])
  }

  /** A worker that sleeps while messages wait has a wakeup on its way. */
  ghost predicate NoLostWakeup(l: Logic) {
    && (l.worker.Parking? ==> l.queue == [])
    && (l.worker.Asleep? && l.queue != [] ==> SomeoneMustNotify(l))
  }

  ghost predicate LogicOk(l: Logic) {
    && Ordered(l)
    && NoLostWakeup(l)
    && (l.worker.Past? ==> l.queue != [] || l.stop)
    && (l.worker.Draining? || l.worker.Exited? || (l.worker.Calling? && l.worker.draining) ==> l.stop)
  }

  lemma InitOk(producers: nat)
    ensures LogicOk(Init(producers))
  {
  }

  lemma HandledSnoc(ms: seq<Msg>, m: Msg)
    ensures Handled(ms + [m]) == Handled(ms) + (if Registered(m.frame.id) then [m] else [])
  {
    assert (ms + [m])[..|ms|] == ms;
  }

  lemma PopOrdered(l: Logic, done: seq<Msg>, queue: seq<Msg>)
    requires Ordered(l) && l.queue != [] && done == l.done + [l.queue[0]] && queue == l.queue[1..]
    ensures l.posted == done + queue
    ensures Registered(l.queue[0].frame.id) && l.worker.Calling? ==> l.calls == Handled(done)
    ensures !Registered(l.queue[0].frame.id) ==> l.calls == Handled(done)
  {
    HandledSnoc(l.done, l.queue[0]);
    assert l.queue == [l.queue[0]] + l.queue[1..];
  }

  lemma PostOk(l: Logic, p: nat, m: Msg)
    requires LogicOk(l) && Enabled(l, Post(p, m))
    ensures LogicOk(Do(l, Post(p, m)))
  {
    var l' := Do(l, Post(p, m));
    if l.queue == [] {
      assert l'.mustNotify[p];
    } else if SomeoneMustNotify(l) {
      var q: nat :| q < |l.mustNotify| && l.mustNotify[q];
      assert l'.mustNotify[q];
    }
  }

  /** Every step keeps the order of messages and loses no wakeup. */
  lemma StepOk(l: Logic, s: Step)
    requires LogicOk(l) && Enabled(l, s)
    ensures LogicOk(Do(l, s))
  {
    match s
    case Post(p, m) => PostOk(l, p, m);
    case Choose =>
      if l.queue != [] {
        PopOrdered(l, l.done + [l.queue[0]], l.queue[1..]);
      }
    case Return => PopOrdered(l, l.done + [l.queue[0]], l.queue[1..]);
    case Drain =>
      if l.queue != [] {
        PopOrdered(l, l.done + [l.queue[0]], l.queue[1..]);
      }
    case SetStop => assert SomeoneMustNotify(l) ==> SomeoneMustNotify(Do(l, s));
    case _ =>
  }

  lemma {:induction false} RunOk(l: Logic, run: seq<Step>)
    requires LogicOk(l) && Runs(l, run)
    ensures LogicOk(After(l, run))
    decreases |run|
  {
    if run != [] {
      StepOk(l, run[0]);
      RunOk(Do(l, run[0]), run[1..]);
    }
  }

  // ---- what it gives ----

  /** The steps of the worker that do not depend on luck, with the notification that wakes it. */
  predicate Moves(l: Logic, s: Step) {
    if l.worker.Asleep? then s.Notify?
    else s.Lock? || s.Test? || s.Choose? || s.Return? || s.Drain?
  }

  /** No reachable state with a waiting message is stuck: unless the worker has exited it can
      move, or it sleeps and a producer that is still to notify can wake it. */
  lemma NeverStuck(producers: nat, run: seq<Step>)
    requires Runs(Init(producers), run)
    requires var l := After(Init(producers), run); l.queue != [] && !l.worker.Exited?
    ensures var l := After(Init(producers), run);
            exists s: Step :: Enabled(l, s) && Moves(l, s) && Distance(Do(l, s)) < Distance(l)
  {
    InitOk(producers);
    RunOk(Init(producers), run);
    var l := After(Init(producers), run);
    var s: Step;
    match l.worker {
      case Asleep =>
        var p: nat :| p < |l.mustNotify| && l.mustNotify[p];
        s := Notify(p);
      case Unlocked => s := Lock;
      case Woken => s := Lock;
      case Guard => s := Test;
      case Past => s := Choose;
      case Calling(_) => s := Return;
      case Draining => s := Drain;
    }
    MovesComeNearer(l, s);
  }

  /** How far the worker is from an empty queue. */
  function Distance(l: Logic): (r: nat) {
    8 * |l.queue| +
    match l.worker
    case Asleep => 5
    case Woken => 4
    case Unlocked => 4
    case Guard => 3
    case Past => 2
    case Draining => 1
    case Parking => 6
    case _ => 0
  }

  /** Each move while messages wait brings the worker nearer, whichever it is: so the messages
      queued now are processed after boundedly many moves. */
  lemma MovesComeNearer(l: Logic, s: Step)
    requires LogicOk(l) && l.queue != [] && Enabled(l, s) && Moves(l, s)
    ensures Distance(Do(l, s)) < Distance(l)
  {
  }

  lemma {:induction false} HandledPrefix(a: seq<Msg>, b: seq<Msg>)
    ensures Handled(a) <= Handled(a + b)
    decreases |b|
  {
    if b == [] {
      assert a + b == a;
    } else {
      var b' := b[..|b| - 1];
      HandledPrefix(a, b');
      assert a + b == (a + b') + [b[|b| - 1]];
      HandledSnoc(a + b', b[|b| - 1]);
    }
  }

  lemma CallsArePrefix(l: Logic)
    requires LogicOk(l)
    ensures l.calls <= Handled(l.posted)
    ensures l.queue == [] ==> l.calls == Handled(l.posted)
  {
    if l.worker.Calling? {
      HandledSnoc(l.done, l.queue[0]);
      assert l.posted == (l.done + [l.queue[0]]) + l.queue[1..];
      HandledPrefix(l.done + [l.queue[0]], l.queue[1..]);
    } else {
      HandledPrefix(l.done, l.queue);
    }
    if l.queue == [] {
      assert l.done + [] == l.done;
    }
  }

  /** What is handled, one message at a time, by the number of its id. */
  lemma HandledIs(ms: seq<Msg>, m: Msg)
    ensures Handled([]) == []
    ensures Handled(ms + [m]) == Handled(ms) + (if m.frame.id in {2001, 2003, 2005, 2008, 2011} then [m] else [])
  {
    HandledSnoc(ms, m);
    RegisteredIs(m.frame.id);
  }

  /** A posted message owes a notification exactly when it found the queue empty. */
  lemma PostNotifies(l: Logic, p: nat, m: Msg)
    requires Enabled(l, Post(p, m))
    ensures var l' := Do(l, Post(p, m));
            l'.queue == l.queue + [m] && (l'.mustNotify[p] <==> l.queue == [])
  {
  }

  /** Exactly-once, ordered dispatch: the handler calls of any run are a prefix of the posted
      messages that have a handler; they are all of them once the queue is empty. */
  lemma DispatchInOrder(producers: nat, run: seq<Step>)
    requires Runs(Init(producers), run)
    ensures var l := After(Init(producers), run);
            && l.posted == l.done + l.queue
            && l.calls <= Handled(l.posted)
            && (l.queue == [] ==> l.calls == Handled(l.posted))
  {
    InitOk(producers);
    RunOk(Init(producers), run);
    CallsArePrefix(After(Init(producers), run));
  }

  /** A worker that observed the stop flag leaves only with an empty queue. */
  lemma ExitsWithEmptyQueue(l: Logic, s: Step)
    requires LogicOk(l) && Enabled(l, s) && !l.worker.Exited? && Do(l, s).worker.Exited?
    ensures l.stop && Do(l, s).queue == [] && Do(l, s).calls == Handled(Do(l, s).posted)
  {
    assert l.done + [] == l.done;
  }

  /** While it drains the queue nobody can post, and two turns shorten the queue by one. */
  lemma DrainShortens(l: Logic)
    requires LogicOk(l) && l.worker.Draining? && l.queue != []
    ensures forall p, m :: !Enabled(l, Post(p, m))
    ensures var l' := Do(l, Drain);
            if l'.worker.Calling? then Enabled(l', Return) && Do(l', Return).worker.Draining?
                                       && Do(l', Return).queue == l.queue[1..]
            else l'.worker.Draining? && l'.queue == l.queue[1..]
  {
  }

  // ---- the stop flag ----

  predicate OwnStep(s: Step) {
    s.Lock? || s.Test? || s.Park? || s.Choose? || s.Return? || s.Drain?
  }

  ghost predicate EndsAsleep(l: Logic, run: seq<Step>) {
    Runs(l, run) && After(l, run).worker.Asleep?
  }

  /** Once the flag is set, a worker that is neither about to wait nor asleep never waits again,
      whatever anybody does. */
  lemma {:induction false} NeverWaitsAgain(l: Logic, run: seq<Step>)
    requires l.stop && !l.worker.Parking? && !l.worker.Asleep? && Runs(l, run)
    ensures var l' := After(l, run); l'.stop && !l'.worker.Parking? && !l'.worker.Asleep?
    decreases |run|
  {
    if run != [] {
      NeverWaitsAgain(Do(l, run[0]), run[1..]);
    }
  }

  /** The flag is set without the mutex, and its one notification may come between the worker's
      test and its wait.  Exactly then is the stop missed: after the notification the worker can
      still fall asleep, by its own steps or in any course of events, if and only if it was about
      to wait when the notification came. */
  lemma StopMissedExactlyWhen(l: Logic)
    requires l.stop
    ensures l.worker.Parking? <==>
              exists run :: EndsAsleep(Do(l, NotifyAll), run) && forall s :: s in run ==> OwnStep(s)
    ensures l.worker.Parking? <==> exists run :: EndsAsleep(Do(l, NotifyAll), run)
  {
    var l' := Do(l, NotifyAll);
    if l.worker.Parking? {
      var run := [Park];
      assert After(Do(l', Park), []) == Do(l', Park) && run[1..] == [];
      assert EndsAsleep(l', run) && forall s :: s in run ==> OwnStep(s);
    } else {
      forall run | Runs(l', run)
        ensures !EndsAsleep(l', run)
      {
        NeverWaitsAgain(l', run);
      }
    }
  }

  /** How far a worker that will see the flag is from its exit. */
  function ToExit(l: Logic): (r: nat) {
    8 * |l.queue| +
    match l.worker
    case Unlocked => 5
    case Woken => 5
    case Guard => 4
    case Past => 3
    case Draining => 2
    case Calling(_) => 1
    case _ => 0
  }

  /** The worker's next step towards its exit. */
  function ExitStep(l: Logic): (s: Step)
    ensures OwnStep(s)
  {
    match l.worker
    case Guard => Test
    case Past => Choose
    case Draining => Drain
    case Calling(_) => Return
    case _ => Lock
  }

  lemma ExitStepOk(l: Logic)
    requires LogicOk(l) && l.stop && !l.worker.Parking? && !l.worker.Asleep? && !l.worker.Exited?
    ensures Enabled(l, ExitStep(l))
    ensures var l' := Do(l, ExitStep(l));
            && l'.stop && !l'.worker.Parking? && !l'.worker.Asleep? && (l'.worker.Exited? ==> l'.queue == [])
            && l'.posted == l.posted && ToExit(l') < ToExit(l)
  {
  }

  /** Otherwise the stop is seen: the worker's own steps lead it out, within `ToExit` of them, with
      nothing queued and every handler called. */
  lemma {:induction false} StopSeen(l: Logic) returns (run: seq<Step>)
    requires LogicOk(l) && l.stop && !l.worker.Parking? && !l.worker.Asleep?
    requires !l.worker.Exited? || l.queue == []
    ensures Runs(l, run) && |run| <= ToExit(l) && forall s :: s in run ==> OwnStep(s)
    ensures var l' := After(l, run);
            l'.worker.Exited? && l'.queue == [] && l'.posted == l.posted && l'.calls == Handled(l.posted)
    decreases ToExit(l)
  {
    if l.worker.Exited? {
      CallsArePrefix(l);
      run := [];
    } else {
      ExitStepOk(l);
      StepOk(l, ExitStep(l));
      var rest := StopSeen(Do(l, ExitStep(l)));
      run := [ExitStep(l)] + rest;
      assert run[1..] == rest;
    }
  }

  /** And it does happen: from the start, a run in which the worker sleeps for good after the
      destructor has notified everyone. */
  lemma StopCanBeMissed(producers: nat)
    ensures var run := [Lock, Test, SetStop, NotifyAll, Park];
            Runs(Init(producers), run)
            && var l := After(Init(producers), run);
               l.stop && l.worker.Asleep? && l.queue == [] && !SomeoneMustNotify(l)
  {
    var l0 := Init(producers);
    var l1 := Do(l0, Lock);
    var l2 := Do(l1, Test);
    var l3 := Do(l2, SetStop);
    var l4 := Do(l3, NotifyAll);
    var l5 := Do(l4, Park);
    assert After(l4, [Park]) == l5 by { assert [Park][1..] == []; }
    assert After(l3, [NotifyAll, Park]) == l5 by { assert [NotifyAll, Park][1..] == [Park]; }
    assert After(l2, [SetStop, NotifyAll, Park]) == l5
      by { assert [SetStop, NotifyAll, Park][1..] == [NotifyAll, Park]; }
    assert After(l1, [Test, SetStop, NotifyAll, Park]) == l5
      by { assert [Test, SetStop, NotifyAll, Park][1..] == [SetStop, NotifyAll, Park]; }
    assert [Lock, Test, SetStop, NotifyAll, Park][1..] == [Test, SetStop, NotifyAll, Park];
  }
}
