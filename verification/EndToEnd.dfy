/** A peer's sending half, the byte stream between, and a session's reading half. */
module EndToEnd {
  import opened Wire
  import opened ReadSide
  import W = WriteSide

  /** `consumed` of the bytes on the writer's wire have been read. */
  datatype Pipe = Pipe(w: W.Writer, r: Reader, consumed: nat)

  const FRESH := Pipe(W.IDLE, START, 0)

  datatype Step =
    | Send(msg: seq<Byte>, id: Short)
    | WriteSome(i: nat, n: nat)   // the socket takes n more bytes of an outstanding write
    | WriteDone(i: nat)           // handleWrite without an error
    | WriteFails(i: nat)          // handleWrite with one
    | ReadSome(n: nat)            // the socket delivers n bytes
    | ReadFails

  ghost predicate Enabled(p: Pipe, s: Step) {
    match s
    case Send(_, _) => true
    case WriteSome(i, n) => W.CanTransmit(p.w, i, n)
    case WriteDone(i) => W.CanFinish(p.w, i)
    case WriteFails(i) => i < |p.w.writes|
    case ReadSome(n) => ReaderOk(p.r) && Reading(p.r) && n <= Room(p.r) && p.consumed + n <= |p.w.wire|
    case ReadFails => Reading(p.r)
  }

  function Do(p: Pipe, s: Step): (r: Pipe)
    requires Enabled(p, s)
  {
    match s
    case Send(msg, id) => p.(w := W.Send(p.w, msg, id))
    case WriteSome(i, n) => p.(w := W.Transmit(p.w, i, n))
    case WriteDone(i) => p.(w := W.Finish(p.w, i))
    case WriteFails(i) => p.(w := W.Break(p.w, i))
    case ReadSome(n) =>
      p.(r := Receive(p.r, p.w.wire[p.consumed..p.consumed + n]), consumed := p.consumed + n)
    case ReadFails => p.(r := ReadError(p.r))
  }

  ghost predicate Runs(p: Pipe, run: seq<Step>)
    decreases |run|
  {
    run == [] || (Enabled(p, run[0]) && Runs(Do(p, run[0]), run[1..]))
  }

  ghost function After(p: Pipe, run: seq<Step>): (r: Pipe)
    requires Runs(p, run)
    decreases |run|
  {
    if run == [] then p else After(Do(p, run[0]), run[1..])
  }

  ghost predicate PipeOk(p: Pipe) {
    && W.WriterOk(p.w)
    && p.consumed <= |p.w.wire|
    && Stands(p.r, p.w.wire[..p.consumed])
  }

  lemma FreshOk()
    ensures PipeOk(FRESH)
  {
    StartStands();
    W.IdleOk();
  }

  lemma ReadSomeOk(p: Pipe, n: nat)
    requires PipeOk(p) && Enabled(p, ReadSome(n))
    ensures PipeOk(Do(p, ReadSome(n)))
  {
    var read, chunk := p.w.wire[..p.consumed], p.w.wire[p.consumed..p.consumed + n];
    NextSlice(p.w.wire, p.consumed, n);
    ReceiveStands(p.r, read, chunk);
    assert Stands(Receive(p.r, chunk), p.w.wire[..p.consumed + n]);
    assert Do(p, ReadSome(n)) == p.(r := Receive(p.r, chunk), consumed := p.consumed + n);
  }

  lemma NextSlice(s: seq<Byte>, k: nat, n: nat)
    requires k + n <= |s|
    ensures s[..k] + s[k..k + n] == s[..k + n]
  {
  }

  lemma WriteSomeOk(p: Pipe, i: nat, n: nat)
    requires PipeOk(p) && Enabled(p, WriteSome(i, n))
    ensures PipeOk(Do(p, WriteSome(i, n)))
  {
    W.TransmitOk(p.w, i, n);
    assert Do(p, WriteSome(i, n)).w.wire[..p.consumed] == p.w.wire[..p.consumed];
  }

  /** Every step of either side keeps the sender's queue, wire and history together, and the
      reader in step with the parser. */
  lemma StepOk(p: Pipe, s: Step)
    requires PipeOk(p) && Enabled(p, s)
    ensures PipeOk(Do(p, s))
  {
    match s
    case Send(msg, id) => W.SendOk(p.w, msg, id);
    case WriteSome(i, n) => WriteSomeOk(p, i, n);
    case WriteDone(i) => W.FinishOk(p.w, i);
    case WriteFails(i) => W.BreakOk(p.w, i);
    case ReadSome(n) => ReadSomeOk(p, n);
    case ReadFails => ReadErrorStands(p.r, p.w.wire[..p.consumed]);
  }

  lemma {:induction false} RunOk(p: Pipe, run: seq<Step>)
    requires PipeOk(p) && Runs(p, run)
    ensures PipeOk(After(p, run))
    decreases |run|
  {
    if run != [] {
      StepOk(p, run[0]);
      RunOk(Do(p, run[0]), run[1..]);
    }
  }

  /** Nothing more can arrive: the sender has emptied its queue, and the reader has read
      everything or stopped at a refused header. */
  predicate Delivered(p: Pipe) {
    && p.w.queue == []
    && (p.r.phase.Refusing? || (p.r.phase.Head? && p.consumed == |p.w.wire|))
  }

  lemma ReadableOfWire(fs: seq<Frame>, s: seq<Byte>)
    requires s <= EncodeAll(fs)
    ensures Parse(s).frames <= Readable(fs)
    ensures Parse(EncodeAll(fs)).frames == Readable(fs)
  {
    var all := EncodeAll(fs);
    ParseEncodeAll(fs, []);
    assert all + [] == all;
    assert fs + [] == fs;
    ParseMonotone(s, all);
  }

  lemma DeliveredParse(p: Pipe)
    requires PipeOk(p) && Delivered(p)
    ensures Parse(p.w.wire[..p.consumed]).frames == Parse(EncodeAll(p.w.accepted)).frames
  {
    var read, all := p.w.wire[..p.consumed], EncodeAll(p.w.accepted);
    W.WireIsPrefix(p.w);
    if p.r.phase.Refusing? {
      ParseAppend(read, all[p.consumed..]);
      assert read + all[p.consumed..] == all;
    } else {
      assert read == all;
    }
  }

  lemma PostedIsPrefix(p: Pipe)
    requires PipeOk(p)
    ensures p.r.posted <= Readable(p.w.accepted)
    ensures Delivered(p) ==> p.r.posted == Readable(p.w.accepted)
  {
    var read := p.w.wire[..p.consumed];
    W.WireIsPrefix(p.w);
    assert read <= p.w.wire;
    ReadableOfWire(p.w.accepted, read);
    PostedIsParsed(p.r, read);
    if Delivered(p) {
      DeliveredParse(p);
    }
  }

  /** End to end.  In every interleaving of sends, partial writes, partial reads and failures, what
      the session has posted is a prefix of the accepted messages before the first one whose id the
      reader refuses; once everything is delivered it is exactly those messages, and it is all the
      accepted messages if and only if no id exceeds 2048. */
  lemma EndToEndPrefix(run: seq<Step>)
    requires Runs(FRESH, run)
    ensures var p := After(FRESH, run);
            && p.r.posted <= Readable(p.w.accepted)
            && (Delivered(p) ==> p.r.posted == Readable(p.w.accepted))
            && (Delivered(p) ==>
                  (p.r.posted == p.w.accepted <==> forall f :: f in p.w.accepted ==> f.id <= 2048))
  {
    FreshOk();
    RunOk(FRESH, run);
    var p := After(FRESH, run);
    PostedIsPrefix(p);
    ReadableIff(p.w.accepted);
  }

  /** The sender in every reachable state: a bounded queue; never two writes handed to the socket at
      once, and only a write of the front; one exactly while something is queued, until a write
      fails; and on the wire the frames sent and the started part of the front. */
  lemma WritePipeline(run: seq<Step>)
    requires Runs(FRESH, run)
    ensures var w := After(FRESH, run).w;
            && |w.queue| <= 1000 && |w.queue| <= |w.accepted|
            && |w.writes| <= 1
            && (w.writes != [] ==> w.queue != [] && w.writes[0].frame == w.queue[0])
            && (w.failure.NoFailure? ==> (w.writes == [] <==> w.queue == []))
            && w.wire <= EncodeAll(w.accepted)
            && (w.queue == [] ==> w.wire == EncodeAll(w.accepted))
            && w.accepted == W.Sent(w) + w.queue
            && w.wire == EncodeAll(W.Sent(w)) + W.Front(w)
  {
    FreshOk();
    RunOk(FRESH, run);
    W.WireIsPrefix(After(FRESH, run).w);
  }

  /** After a write error no byte leaves and no write starts, whatever is sent. */
  lemma {:induction false} BrokenForever(p: Pipe, run: seq<Step>)
    requires PipeOk(p) && p.w.failure.Failed? && Runs(p, run)
    ensures After(p, run).w.failure == p.w.failure && After(p, run).w.wire == p.w.wire && After(p, run).w.writes == []
    decreases |run|
  {
    if run != [] {
      StepOk(p, run[0]);
      BrokenForever(Do(p, run[0]), run[1..]);
    }
  }

  /** A frame under way is not a sequence of whole frames with non-empty bodies. */
  lemma NoPartialFrame(fs: seq<Frame>, r: Reader)
    requires ReaderOk(r) && r.phase.InBody? && forall f :: f in fs ==> f.body != []
    ensures EncodeAll(fs) != Pending(r)
  {
    PendingHead(r);
    if fs != [] {
      EncodeHead(fs[0], EncodeAll(fs[1..]));
    }
  }

  lemma ReadEverything(p: Pipe)
    requires PipeOk(p) && p.w.queue == [] && p.consumed == |p.w.wire| && Reading(p.r)
    ensures p.r.phase.Head?
  {
    W.WireIsPrefix(p.w);
    var all, n := EncodeAll(p.w.accepted), |p.r.posted|;
    assert p.w.wire[..p.consumed] == all;
    PostedIsPrefix(p);
    assert Readable(p.w.accepted) <= p.w.accepted;
    assert p.w.accepted == p.r.posted + p.w.accepted[n..];
    EncodeAllConcat(p.r.posted, p.w.accepted[n..]);
    var rest := EncodeAll(p.w.accepted[n..]);
    assert EncodeAll(p.r.posted) + rest == EncodeAll(p.r.posted) + Pending(p.r);
    assert rest == Pending(p.r) by {
      assert (EncodeAll(p.r.posted) + rest)[|EncodeAll(p.r.posted)|..] == rest;
      assert (EncodeAll(p.r.posted) + Pending(p.r))[|EncodeAll(p.r.posted)|..] == Pending(p.r);
    }
    if p.r.phase.InBody? {
      NoPartialFrame(p.w.accepted[n..], p.r);
    }
  }

  /** The pipe never stalls: unless everything is delivered or a side has failed, the sender can
      put a byte on the wire or finish a write, or the reader can take what is there. */
  lemma PipeMoves(p: Pipe)
    requires PipeOk(p) && !Delivered(p) && p.w.failure.NoFailure? && !p.r.phase.Closed?
    ensures Enabled(p, WriteSome(0, 1)) || Enabled(p, WriteDone(0)) || (Enabled(p, ReadSome(1)) && p.consumed < |p.w.wire|)
            || (AwaitsEmptyBody(p.r) && Enabled(p, ReadSome(0)))
  {
    if p.w.queue == [] && p.consumed == |p.w.wire| {
      ReadEverything(p);
    }
  }

  // ---- delivery ----

  /** How far the pipe is from having delivered everything. */
  ghost function ToDeliver(p: Pipe): (r: int) {
    3 * (|EncodeAll(p.w.accepted)| - |p.w.wire|) + |p.w.queue| + 2 * (|p.w.wire| - p.consumed)
    + (if AwaitsEmptyBody(p.r) then 1 else 0)
  }

  predicate Quiet(s: Step) {
    s.WriteSome? || s.WriteDone? || s.ReadSome?
  }

  /** The next step: the sender's while something is queued, and then the reader's. */
  ghost function NextStep(p: Pipe): (s: Step)
    requires PipeOk(p) && !Delivered(p) && p.w.failure.NoFailure? && !p.r.phase.Closed?
    ensures Quiet(s)
  {
    if p.w.queue != [] then
      var left := |Encode(p.w.writes[0].frame)| - p.w.writes[0].done;
      if left > 0 then WriteSome(0, left) else WriteDone(0)
    else
      var there := |p.w.wire| - p.consumed;
      ReadSome(if there < Room(p.r) then there else Room(p.r))
  }

  lemma NextStepDelivers(p: Pipe)
    requires PipeOk(p) && !Delivered(p) && p.w.failure.NoFailure? && !p.r.phase.Closed?
    ensures Enabled(p, NextStep(p))
    ensures var q := Do(p, NextStep(p));
            && PipeOk(q) && q.w.failure.NoFailure? && !q.r.phase.Closed? && q.w.accepted == p.w.accepted
            && ToDeliver(q) < ToDeliver(p)
  {
    if p.w.queue != [] {
      NextWriteDelivers(p);
    } else {
      NextReadDelivers(p);
    }
    StepOk(p, NextStep(p));
  }

  lemma NextWriteDelivers(p: Pipe)
    requires PipeOk(p) && p.w.queue != [] && p.w.failure.NoFailure? && !p.r.phase.Closed?
    ensures Enabled(p, NextStep(p))
    ensures var q := Do(p, NextStep(p));
            q.w.failure.NoFailure? && q.r == p.r && q.w.accepted == p.w.accepted && ToDeliver(q) < ToDeliver(p)
  {
  }

  lemma NextReadDelivers(p: Pipe)
    requires PipeOk(p) && p.w.queue == [] && !Delivered(p) && p.w.failure.NoFailure? && !p.r.phase.Closed?
    ensures Enabled(p, NextStep(p))
    ensures var q := Do(p, NextStep(p));
            q.w == p.w && !q.r.phase.Closed? && ToDeliver(q) < ToDeliver(p)
  {
    if p.consumed == |p.w.wire| {
      ReadEverything(p);
    }
  }

  lemma ToDeliverBounded(p: Pipe)
    requires PipeOk(p)
    ensures ToDeliver(p) >= 0
  {
    W.WireIsPrefix(p.w);
  }

  /** Everything arrives.  From any state of a pipe that has not failed, a run of boundedly many steps,
      none of them a send or a failure, delivers: the reader has posted exactly the accepted messages
      before the first refused id. */
  lemma {:induction false} PipeDelivers(p: Pipe) returns (run: seq<Step>)
    requires PipeOk(p) && p.w.failure.NoFailure? && !p.r.phase.Closed?
    ensures Runs(p, run) && |run| <= ToDeliver(p) && forall s :: s in run ==> Quiet(s)
    ensures var q := After(p, run);
            Delivered(q) && q.w.accepted == p.w.accepted && q.r.posted == Readable(p.w.accepted)
    decreases ToDeliver(p)
  {
    ToDeliverBounded(p);
    if Delivered(p) {
      PostedIsPrefix(p);
      run := [];
    } else {
      NextStepDelivers(p);
      var rest := PipeDelivers(Do(p, NextStep(p)));
      run := [NextStep(p)] + rest;
      assert run[1..] == rest;
    }
  }

  /** It does happen that not all of it arrives: a message with the first refused id is accepted, and
      when everything is delivered it is missing. */
  lemma LargeIdIsLost(body: Body) returns (run: seq<Step>)
    requires body != []
    ensures Runs(FRESH, run)
    ensures var p := After(FRESH, run);
            Delivered(p) && p.w.accepted == [Frame(2049, body)] && p.r.posted == []
  {
    var send := Send(body, 2049);
    var p := Do(FRESH, send);
    FreshOk();
    StepOk(FRESH, send);
    var rest := PipeDelivers(p);
    run := [send] + rest;
    assert run[1..] == rest;
    assert p.w.accepted == [Frame(2049, body)];
    assert Readable([Frame(2049, body)]) == [];
  }
}
