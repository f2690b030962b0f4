/** The sending half of a session, on values: a bounded queue of frames, and the writes handed to
    the socket and not yet completed. */
module WriteSide {
  import opened Wire

  const MAX_SENDQUE := 1000

  /** A call of async_write that has not completed: the frame it was given, and how many of its
      bytes the socket has taken. */
  datatype Write = Write(frame: Frame, done: nat)

  datatype Failure = NoFailure | Failed(done: nat)   // bytes of the write that failed

  /** `wire` and `accepted` are histories: the bytes that left, the frames queued so far. */
  datatype Writer = Writer(queue: seq<Frame>, writes: seq<Write>, failure: Failure, wire: seq<Byte>,
                           accepted: seq<Frame>)

  const IDLE := Writer([], [], NoFailure, [], [])

  predicate Acceptable(w: Writer, msg: seq<Byte>) {
    |msg| <= SHORT_MAX && |w.queue| < MAX_SENDQUE && 0 < |msg| <= MAX_LENGTH
  }

  /** `send`: a message is dropped without notice when it is empty or too long or the queue
      is full; a write of the front starts when, with this one, the queue holds a single node. */
  function Send(w: Writer, msg: seq<Byte>, id: Short): (r: Writer) {
    if !Acceptable(w, msg) then w
    else
      var f := Frame(id, msg);
      var queue := w.queue + [f];
      w.(queue := queue, accepted := w.accepted + [f],
         writes := if |queue| > 1 then w.writes else w.writes + [Write(queue[0], 0)])
  }

  /** Which messages are accepted, for every sender: those of 1 to 2048 bytes, while fewer than 1000 are
      queued.  Such a message goes to the back, and is handed to the socket at once if nothing was
      queued; any other changes nothing. */
  lemma SendAccepts(w: Writer, msg: seq<Byte>, id: Short)
    ensures if |w.queue| < 1000 && 1 <= |msg| <= 2048 then
              var r := Send(w, msg, id);
              && r.queue == w.queue + [Frame(id, msg)] && r.accepted == w.accepted + [Frame(id, msg)]
              && r.writes == w.writes + (if w.queue == [] then [Write(Frame(id, msg), 0)] else [])
              && r.wire == w.wire && r.failure == w.failure
            else Send(w, msg, id) == w
  {
    if w.queue != [] {
      assert w.writes + [] == w.writes;
    }
  }

  /** The socket takes `n` more bytes of any write it was given. */
  predicate CanTransmit(w: Writer, i: nat, n: nat) {
    i < |w.writes| && w.writes[i].done + n <= |Encode(w.writes[i].frame)|
  }

  function Transmit(w: Writer, i: nat, n: nat): (r: Writer)
    requires CanTransmit(w, i, n)
  {
    var x := w.writes[i];
    w.(writes := w.writes[i := Write(x.frame, x.done + n)], wire := w.wire + Encode(x.frame)[x.done..x.done + n])
  }

  /** A write has completed: `handleWrite` without an error.  It pops the front, whatever was
      written, and starts a write of the next. */
  predicate CanFinish(w: Writer, i: nat) {
    i < |w.writes| && w.writes[i].done == |Encode(w.writes[i].frame)| && w.queue != []
  }

  function Finish(w: Writer, i: nat): (r: Writer)
    requires CanFinish(w, i)
  {
    var queue, others := w.queue[1..], w.writes[..i] + w.writes[i + 1..];
    w.(queue := queue, writes := if queue == [] then others else others + [Write(queue[0], 0)])
  }

  /** A write ends with an error: `handleWrite` does nothing. */
  function Break(w: Writer, i: nat): (r: Writer)
    requires i < |w.writes|
  {
    w.(writes := w.writes[..i] + w.writes[i + 1..], failure := Failed(w.writes[i].done))
  }

  // ---- what every step keeps ----

  /** At most one write is under way, and it is of the front; there is one exactly while something is
      queued, until a write fails, and none from then on. */
  ghost predicate OneWrite(w: Writer) {
    && |w.writes| <= 1
    && (w.writes != [] ==> w.queue != [] && w.writes[0].frame == w.queue[0])
    && (w.failure.NoFailure? ==> (w.writes == [] <==> w.queue == []))
    && (w.failure.Failed? ==> w.writes == [] && w.queue != [])
  }

  /** The bytes of the front frame already on the wire. */
  function Started(w: Writer): (r: nat) {
    if w.failure.Failed? then w.failure.done else if w.writes == [] then 0 else w.writes[0].done
  }

  function Sent(w: Writer): (r: seq<Frame>)
    requires |w.queue| <= |w.accepted|
  {
    w.accepted[..|w.accepted| - |w.queue|]
  }

  /** The part of the front frame that is on the wire. */
  function Front(w: Writer): (r: seq<Byte>) {
    if w.queue == [] then []
    else
      var e := Encode(w.queue[0]);
      if Started(w) <= |e| then e[..Started(w)] else e
  }

  ghost predicate WriterOk(w: Writer) {
    && |w.queue| <= MAX_SENDQUE
    && OneWrite(w)
    && |w.queue| <= |w.accepted| && w.queue == w.accepted[|w.accepted| - |w.queue|..]
    && (w.queue != [] ==> Started(w) <= |Encode(w.queue[0])|)
    && w.wire == EncodeAll(Sent(w)) + Front(w)
    && (forall f :: f in w.accepted ==> f.body != [])
  }

  lemma IdleOk()
    ensures WriterOk(IDLE)
  {
  }

  lemma SendOk(w: Writer, msg: seq<Byte>, id: Short)
    requires WriterOk(w)
    ensures WriterOk(Send(w, msg, id))
  {
    if Acceptable(w, msg) {
      QueuedOk(w, Send(w, msg, id), Frame(id, msg));
    }
  }

  /** A frame at the back of the queue and of the history changes neither what is sent nor the
      started part of the front. */
  lemma QueuedOk(w: Writer, w': Writer, f: Frame)
    requires WriterOk(w) && |w.queue| < MAX_SENDQUE && f.body != []
    requires w'.queue == w.queue + [f] && w'.accepted == w.accepted + [f]
    requires w'.wire == w.wire && w'.failure == w.failure
    requires w'.writes == if w.queue == [] then [Write(f, 0)] else w.writes
    ensures WriterOk(w')
  {
    var n := |w.accepted| - |w.queue|;
    assert w'.queue == w'.accepted[n..];
    assert Sent(w') == w'.accepted[..n] == Sent(w);
    assert Front(w') == Front(w) by {
      if w.queue != [] {
        assert w'.queue[0] == w.queue[0];
      }
    }
  }

  lemma TransmitOk(w: Writer, i: nat, n: nat)
    requires WriterOk(w) && CanTransmit(w, i, n)
    ensures WriterOk(Transmit(w, i, n))
  {
    var w', e, d := Transmit(w, i, n), Encode(w.queue[0]), w.writes[i].done;
    SliceMore(EncodeAll(Sent(w)), e, d, n);
    assert Sent(w') == Sent(w) && Front(w') == e[..d + n];
  }

  lemma SliceMore<T>(p: seq<T>, e: seq<T>, d: nat, n: nat)
    requires d + n <= |e|
    ensures p + e[..d] + e[d..d + n] == p + e[..d + n]
  {
  }

  lemma FinishOk(w: Writer, i: nat)
    requires WriterOk(w) && CanFinish(w, i)
    ensures WriterOk(Finish(w, i))
  {
    var w', f, sent := Finish(w, i), w.queue[0], Sent(w);
    assert w.writes[..i] + w.writes[i + 1..] == [];
    assert Sent(w') == sent + [f];
    EncodeAllSnoc(sent, f);
    assert Front(w) == Encode(f) && Front(w') == [];
    NothingAdded(EncodeAll(Sent(w')));
  }

  lemma BreakOk(w: Writer, i: nat)
    requires WriterOk(w) && i < |w.writes|
    ensures WriterOk(Break(w, i))
  {
    assert w.writes[..i] + w.writes[i + 1..] == [];
  }

  /** In every good state the wire carries a prefix of the accepted messages, encoded in
      order, and all of it once nothing is queued. */
  lemma WireIsPrefix(w: Writer)
    requires WriterOk(w)
    ensures w.wire <= EncodeAll(w.accepted)
    ensures w.queue == [] ==> w.wire == EncodeAll(w.accepted)
  {
    assert w.accepted == Sent(w) + w.queue;
    EncodeAllConcat(Sent(w), w.queue);
    if w.queue == [] {
      assert Sent(w) == w.accepted;
    } else {
      var e := Encode(w.queue[0]);
      assert EncodeAll(w.queue) == e + EncodeAll(w.queue[1..]);
      assert EncodeAll(w.accepted)[..|w.wire|] == w.wire;
    }
  }
}
