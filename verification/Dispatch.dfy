/** The whole inbound path: any number of peers, each with its pipe, and the logic worker that
    calls handlers for all of them. */
module Dispatch {
  import opened Wire
  import P = EndToEnd
  import L = LogicQueue

  datatype Server = Server(pipes: seq<P.Pipe>, logic: L.Logic)

  function Init(n: nat): (r: Server) {
    Server(seq(n, _ => P.FRESH), L.Init(n))
  }

  datatype Step = AtPipe(i: nat, s: P.Step) | AtLogic(l: L.Step)

  /** The frame a step of a pipe posts, if it does. */
  function Completed(p: P.Pipe, p': P.Pipe): (r: seq<Frame>) {
    if |p'.r.posted| == |p.r.posted| + 1 then p'.r.posted[|p.r.posted|..] else []
  }

  /** A session reads on only after it has notified for its last message; posting needs the
      mutex.  All posts come from sessions. */
  ghost predicate Enabled(v: Server, s: Step) {
    match s
    case AtPipe(i, st) =>
      && i < |v.pipes| == |v.logic.mustNotify| && P.Enabled(v.pipes[i], st)
      && (st.ReadSome? ==> !v.logic.mustNotify[i])
      && var fs := Completed(v.pipes[i], P.Do(v.pipes[i], st));
         (fs != [] ==> L.Enabled(v.logic, L.Post(i, L.Msg(i, fs[0]))))
    case AtLogic(l) => !l.Post? && L.Enabled(v.logic, l)
  }

  ghost function Do(v: Server, s: Step): (r: Server)
    requires Enabled(v, s)
  {
    match s
    case AtPipe(i, st) =>
      var p' := P.Do(v.pipes[i], st);
      var fs := Completed(v.pipes[i], p');
      Server(v.pipes[i := p'], if fs == [] then v.logic else L.Do(v.logic, L.Post(i, L.Msg(i, fs[0]))))
    case AtLogic(l) => v.(logic := L.Do(v.logic, l))
  }

  ghost predicate Runs(v: Server, run: seq<Step>)
    decreases |run|
  {
    run == [] || (Enabled(v, run[0]) && Runs(Do(v, run[0]), run[1..]))
  }

  ghost function After(v: Server, run: seq<Step>): (r: Server)
    requires Runs(v, run)
    ensures |After(v, run).pipes| == |v.pipes|
    decreases |run|
  {
    if run == [] then v else After(Do(v, run[0]), run[1..])
  }

  ghost predicate SessionOk(v: Server, i: nat)
    requires i < |v.pipes|
  {
    P.PipeOk(v.pipes[i]) && L.FromSession(i, v.logic.posted) == v.pipes[i].r.posted
  }

  ghost predicate ServerOk(v: Server) {
    && |v.pipes| == |v.logic.mustNotify|
    && L.LogicOk(v.logic)
    && forall i: nat :: i < |v.pipes| ==> SessionOk(v, i)
  }

  lemma FromSessionSnoc(i: nat, ms: seq<L.Msg>, m: L.Msg)
    ensures L.FromSession(i, ms + [m])
         == L.FromSession(i, ms) + (if m.session == i then [m.frame] else [])
  {
    assert (ms + [m])[..|ms|] == ms;
  }

  lemma InitOk(n: nat)
    ensures ServerOk(Init(n))
  {
    P.FreshOk();
    L.InitOk(n);
  }

  /** A step of a pipe adds at most one frame to what its session has posted. */
  lemma PostsAtMostOne(p: P.Pipe, s: P.Step)
    requires P.Enabled(p, s)
    ensures P.Do(p, s).r.posted == p.r.posted + Completed(p, P.Do(p, s))
  {
  }

  lemma PipeStepOk(v: Server, i: nat, st: P.Step)
    requires ServerOk(v) && Enabled(v, AtPipe(i, st))
    ensures ServerOk(Do(v, AtPipe(i, st)))
  {
    var v' := Do(v, AtPipe(i, st));
    var fs := Completed(v.pipes[i], v'.pipes[i]);
    PostsAtMostOne(v.pipes[i], st);
    assert SessionOk(v, i);
    P.StepOk(v.pipes[i], st);
    if fs != [] {
      L.StepOk(v.logic, L.Post(i, L.Msg(i, fs[0])));
    }
    forall j: nat | j < |v'.pipes|
      ensures SessionOk(v', j)
    {
      assert SessionOk(v, j);
      PostedOf(i, fs, j, v.logic.posted, v'.logic.posted);
      NothingAdded(v.pipes[j].r.posted);
    }
  }

  /** A post shows in the frames of its own session and in no other's. */
  lemma PostedOf(i: nat, fs: seq<Frame>, j: nat, before: seq<L.Msg>, after: seq<L.Msg>)
    requires fs == [] ==> after == before
    requires fs != [] ==> |fs| == 1 && after == before + [L.Msg(i, fs[0])]
    ensures L.FromSession(j, after) == L.FromSession(j, before) + (if i == j then fs else [])
  {
    if fs != [] {
      FromSessionSnoc(j, before, L.Msg(i, fs[0]));
      assert fs == [fs[0]];
    } else {
      NothingAdded(L.FromSession(j, before));
    }
  }

  lemma StepOk(v: Server, s: Step)
    requires ServerOk(v) && Enabled(v, s)
    ensures ServerOk(Do(v, s))
  {
    match s
    case AtPipe(i, st) => PipeStepOk(v, i, st);
    case AtLogic(l) =>
      L.StepOk(v.logic, l);
      forall j: nat | j < |v.pipes|
        ensures SessionOk(Do(v, s), j)
      {
        assert SessionOk(v, j);
      }
  }

  lemma {:induction false} RunOk(v: Server, run: seq<Step>)
    requires ServerOk(v) && Runs(v, run)
    ensures ServerOk(After(v, run))
    decreases |run|
  {
    if run != [] {
      StepOk(v, run[0]);
      RunOk(Do(v, run[0]), run[1..]);
    }
  }

  /** The frames that have a handler. */
  function Handleable(fs: seq<Frame>): (r: seq<Frame>) {
    if fs == [] then []
    else (if L.Registered(fs[0].id) then [fs[0]] else []) + Handleable(fs[1..])
  }

  lemma {:induction false} HandleableConcat(a: seq<Frame>, b: seq<Frame>)
    ensures Handleable(a + b) == Handleable(a) + Handleable(b)
  {
    if a == [] {
      assert a + b == b;
    } else {
      HandleableConcat(a[1..], b);
      assert (a + b)[0] == a[0] && (a + b)[1..] == a[1..] + b;
      Regroup(if L.Registered(a[0].id) then [a[0]] else [], Handleable(a[1..]), Handleable(b));
    }
  }

  lemma {:induction false} FilterCommutes(i: nat, ms: seq<L.Msg>)
    ensures L.FromSession(i, L.Handled(ms)) == Handleable(L.FromSession(i, ms))
    decreases |ms|
  {
    if ms != [] {
      var a, m := ms[..|ms| - 1], ms[|ms| - 1];
      assert ms == a + [m];
      FilterCommutes(i, a);
      L.HandledSnoc(a, m);
      FromSessionSnoc(i, a, m);
      FromSessionSnoc(i, L.Handled(a), m);
      HandleableConcat(L.FromSession(i, a), [m.frame]);
      assert Handleable([m.frame]) == if L.Registered(m.frame.id) then [m.frame] else [];
      NothingAdded(L.Handled(a));
      NothingAdded(L.FromSession(i, a));
      NothingAdded(L.FromSession(i, L.Handled(a)));
    }
  }

  lemma {:induction false} FromSessionPrefix(i: nat, a: seq<L.Msg>, b: seq<L.Msg>)
    requires a <= b
    ensures L.FromSession(i, a) <= L.FromSession(i, b)
    decreases |b|
  {
    if a != b {
      var b' := b[..|b| - 1];
      FromSessionPrefix(i, a, b');
      assert b == b' + [b[|b| - 1]];
      FromSessionSnoc(i, b', b[|b| - 1]);
    }
  }

  lemma HandleablePrefix(a: seq<Frame>, b: seq<Frame>)
    requires a <= b
    ensures Handleable(a) <= Handleable(b)
  {
    assert b == a + b[|a|..];
    HandleableConcat(a, b[|a|..]);
  }

  /** If every message has a handler all are due, and if none has, none is. */
  lemma {:induction false} HandleableIs(fs: seq<Frame>)
    ensures (forall f :: f in fs ==> f.id in {2001, 2003, 2005, 2008, 2011}) ==> Handleable(fs) == fs
    ensures (forall f :: f in fs ==> f.id !in {2001, 2003, 2005, 2008, 2011}) ==> Handleable(fs) == []
  {
    if fs != [] {
      HandleableIs(fs[1..]);
      L.RegisteredIs(fs[0].id);
      assert fs[0] in fs && fs == [fs[0]] + fs[1..] && forall f :: f in fs[1..] ==> f in fs;
    }
  }

  /** A client of the protocol loses nothing: if all accepted messages of a peer are requests with a
      handler, then once they are delivered and dequeued the handlers were called with exactly these,
      in order. */
  lemma RequestsAreAllHandled(n: nat, run: seq<Step>, i: nat)
    requires i < n && Runs(Init(n), run)
    requires var p := After(Init(n), run).pipes[i];
             P.Delivered(p) && forall f :: f in p.w.accepted ==> f.id in {2001, 2003, 2005, 2008, 2011}
    requires After(Init(n), run).logic.queue == []
    ensures var v := After(Init(n), run); L.FromSession(i, v.logic.calls) == v.pipes[i].w.accepted
  {
    var v := After(Init(n), run);
    CallsFollowTheSender(n, run, i);
    ReadableIff(v.pipes[i].w.accepted);
    HandleableIs(v.pipes[i].w.accepted);
  }

  /** From the peers' `send` to the handlers.  In every interleaving of all peers, sessions and the
      worker, the handler calls made for a session are, in order and without repetition, a prefix
      of that peer's accepted messages that have a handler and come before any refused id; they are
      all of them once its bytes are delivered and the queue is empty. */
  lemma CallsFollowTheSender(n: nat, run: seq<Step>, i: nat)
    requires i < n && Runs(Init(n), run)
    ensures var v := After(Init(n), run);
            var due := Handleable(Readable(v.pipes[i].w.accepted));
            && L.FromSession(i, v.logic.calls) <= due
            && (v.logic.queue == [] && P.Delivered(v.pipes[i]) ==> L.FromSession(i, v.logic.calls) == due)
  {
    InitOk(n);
    RunOk(Init(n), run);
    var v := After(Init(n), run);
    var l, p := v.logic, v.pipes[i];
    assert SessionOk(v, i);
    P.PostedIsPrefix(p);
    HandleablePrefix(p.r.posted, Readable(p.w.accepted));
    FilterCommutes(i, l.posted);
    L.CallsArePrefix(l);
    FromSessionPrefix(i, l.calls, L.Handled(l.posted));
  }
}
