/** A session as the program holds it: one receive buffer, a header node, a freshly allocated
    node per body, and a queue of nodes to send. */
module Session {
  import opened Wire
  import opened ReadSide
  import opened WriteSide
  import opened MsgNodes
  import opened LogicQueue
  import opened LogicSystem

  ghost function Nodes(q: seq<LogicNode>): (r: set<object>) {
    (set n | n in q :: n.recvNode as object) + (set n | n in q :: n.recvNode.data as object)
  }

  /** A call of async_write: the node whose buffer it was given, and the bytes taken of it. */
  datatype NodeWrite = NodeWrite(node: SendNode, done: nat)

  class CSession {
    const sessionId: nat
    const logic: LogicSystem
    const data: array<Byte>
    const recvHeadNode: MsgNode
    var recvMsgNode: RecvNode?
    var phase: Phase
    var readLen: nat
    var sendQue: seq<SendNode>
    var writes: seq<NodeWrite>   // calls of async_write that have not completed
    ghost var failure: Failure
    ghost var posted: seq<Frame>
    ghost var wire: seq<Byte>
    ghost var accepted: seq<Frame>

    /** The buffers of the reading half. */
    ghost function Buffers(): (r: set<object>)
      reads this`recvMsgNode
    {
      {data, recvHeadNode, recvHeadNode.data}
      + (if recvMsgNode == null then {} else {recvMsgNode, recvMsgNode.data})
    }

    /** The node being filled is not yet queued, and nothing queued shares a buffer with the
        session. */
    ghost predicate ReadValid()
      reads this`phase, this`readLen, this`posted, this`recvMsgNode, logic, Buffers(), Nodes(logic.msgQue)
    {
      && BuffersValid()
      && ReaderOk(R())
      && (phase.InBody? ==>
            recvMsgNode != null && recvMsgNode.Valid() && recvMsgNode.curLen == 0
            && recvMsgNode.data != data && recvMsgNode.data != recvHeadNode.data
            && recvMsgNode.msgId == phase.id && recvMsgNode.totalLen == phase.len
            && recvMsgNode !in Nodes(logic.msgQue) && recvMsgNode.data !in Nodes(logic.msgQue))
    }

    /** What the reading half depends on, but for its own fields. */
    ghost function ReadSet(): (r: set<object>)
      reads this`recvMsgNode, logic
    {
      {logic} + Buffers() + Nodes(logic.msgQue)
    }

    /** The reading half as a value. */
    ghost function R(): (r: Reader)
      reads this`phase, this`readLen, this`posted, data
      requires data.Length == MAX_LENGTH && readLen <= MAX_LENGTH
    {
      Reader(phase, data[..readLen], posted)
    }

    /** The sending half as a value. */
    ghost function W(): (r: Writer)
      reads this`sendQue, this`writes, this`failure, this`wire, this`accepted
    {
      Writer(Queued(sendQue), Handed(writes), failure, wire, accepted)
    }

    /** The queued buffers hold their frames, and, as `OneWrite` says of the frames, the one write is of
        the front node itself.  What else the sending half keeps is kept by its value: it starts as
        IDLE, and each method takes it where the functions of WriteSide do. */
    ghost predicate WriteValid()
      reads this`sendQue, this`writes, set n | n in sendQue :: n.data
    {
      && NodesValid(sendQue)
      && |writes| <= 1 && (writes != [] ==> sendQue != [] && writes[0].node == sendQue[0])
    }

    /** Reading never writes to a buffer that waits to be sent. */
    ghost predicate SendApart()
      reads this`sendQue, this`recvMsgNode
    {
      forall n :: n in sendQue ==> n.data !in Buffers()
    }

    /** Both halves, which share nothing. */
    ghost predicate Valid()
      reads this, logic, Buffers(), Nodes(logic.msgQue), set n | n in sendQue :: n.data
    {
      ReadValid() && WriteValid() && SendApart()
    }

    /** A step of the sending half: nothing the reading half depends on has changed, and new nodes
        have new buffers. */
    twostate lemma WriterMoved()
      requires old(Valid()) && WriteValid() && OldOrNew()
      requires unchanged(this`phase, this`readLen, this`posted, this`recvMsgNode) && unchanged(old(ReadSet()))
      ensures Valid() && R() == old(R())
    {
      assert Buffers() == old(Buffers());
    }

    /** Every queued node was queued before, or is new with its buffer. */
    twostate predicate OldOrNew()
      reads this`sendQue
    {
      forall n :: n in sendQue ==> n in old(sendQue) || (fresh(n) && fresh(n.data))
    }

    /** A step of the reading half: nothing the sending half depends on has changed, and new buffers
        are new. */
    twostate lemma ReaderMoved()
      requires old(Valid()) && ReadValid()
      requires unchanged(this`sendQue, this`writes, this`failure, this`wire, this`accepted)
      requires forall n :: n in sendQue ==> unchanged(n.data)
      requires fresh(Buffers() - old(Buffers()))
      ensures Valid() && W() == old(W())
    {
    }

    constructor (sessionId: nat, logic: LogicSystem)
      requires logic.Valid()
      ensures this.sessionId == sessionId && this.logic == logic
      ensures ReadValid() && R() == START
      ensures WriteValid() && W() == IDLE && Valid()
      ensures fresh(data) && fresh(recvHeadNode) && fresh(recvHeadNode.data) && recvMsgNode == null
    {
      var buffer := new Byte[MAX_LENGTH](_ => 0);
      var head := new MsgNode(HEAD_TOTAL_LEN);
      assert logic.Valid() && {buffer, head.data} !! Nodes(logic.msgQue);
      this.sessionId, this.logic := sessionId, logic;
      data, recvHeadNode, recvMsgNode := buffer, head, null;
      phase, readLen, posted := Head, 0, [];
      sendQue, writes, failure, wire, accepted := [], [], NoFailure, [], [];
      new;
      Started();
    }

    /** What a new session is. */
    lemma Started()
      requires BuffersValid() && phase.Head? && readLen == 0 && posted == []
      requires sendQue == [] && writes == [] && failure.NoFailure? && wire == [] && accepted == []
      ensures ReadValid() && R() == START && WriteValid() && W() == IDLE
    {
      assert Queued(sendQue) == [] && Handed(writes) == [];
      assert R() == START && W() == IDLE;
    }

    /** The start of a full read: the buffer is cleared. */
    method AsyncReadFull(next: Phase)
      requires data.Length == MAX_LENGTH && logic.Valid() && data !in Nodes(logic.msgQue)
      modifies this`phase, this`readLen, data
      ensures phase == next && readLen == 0
      ensures logic.Valid() && Messages(logic.msgQue) == old(Messages(logic.msgQue))
    {
      assert forall n :: n in logic.msgQue ==> n.recvNode.data in Nodes(logic.msgQue);
      forall i | 0 <= i < MAX_LENGTH {
        data[i] := 0;
      }
      phase, readLen := next, 0;
    }

    /** One completed partial read of `chunk`.  What the reader becomes is `Receive`; a completed
        body is posted in a node of its own, and no queued node changes.  The sending half stays as it
        was. */
    method ReadSome(chunk: seq<Byte>) returns (notify: bool)
      requires Valid() && Reading(R()) && |chunk| <= Room(R())
      modifies this`phase, this`readLen, this`recvMsgNode, this`posted,
               Buffers() - {recvHeadNode}, recvHeadNode`curLen, logic`msgQue
      ensures Valid() && !phase.Closed?
      ensures R() == Receive(old(R()), chunk) && W() == old(W())
      ensures |posted| == |old(posted)| ==> logic.msgQue == old(logic.msgQue) && !notify
      ensures |posted| > |old(posted)| ==>
        && old(recvMsgNode) != null
        && logic.msgQue == old(logic.msgQue) + [LogicNode(sessionId, old(recvMsgNode))]
        && (notify <==> old(logic.msgQue) == [])
        && Messages(logic.msgQue)
           == old(Messages(logic.msgQue)) + [Msg(sessionId, posted[|posted| - 1])]
      ensures Messages(old(logic.msgQue)) == old(Messages(logic.msgQue))
      ensures Nodes(logic.msgQue) <= old(Nodes(logic.msgQue)) + old(Buffers())
      ensures fresh(Buffers() - old(Buffers()))
    {
      notify := ReadPiece(chunk);
      ReaderMoved();
    }

    /** The bytes, and the handler of the piece when they complete it. */
    method ReadPiece(chunk: seq<Byte>) returns (notify: bool)
      requires ReadValid() && Reading(R()) && |chunk| <= Room(R())
      modifies this`phase, this`readLen, this`recvMsgNode, this`posted,
               Buffers() - {recvHeadNode}, recvHeadNode`curLen, logic`msgQue
      ensures ReadValid() && !phase.Closed?
      ensures R() == Receive(old(R()), chunk)
      ensures |posted| == |old(posted)| ==> logic.msgQue == old(logic.msgQue) && !notify
      ensures |posted| > |old(posted)| ==>
        && old(recvMsgNode) != null
        && logic.msgQue == old(logic.msgQue) + [LogicNode(sessionId, old(recvMsgNode))]
        && (notify <==> old(logic.msgQue) == [])
        && Messages(logic.msgQue)
           == old(Messages(logic.msgQue)) + [Msg(sessionId, posted[|posted| - 1])]
      ensures Messages(old(logic.msgQue)) == old(Messages(logic.msgQue))
      ensures Nodes(logic.msgQue) <= old(Nodes(logic.msgQue)) + old(Buffers())
      ensures fresh(Buffers() - old(Buffers()))
    {
      notify := false;
      Store(chunk);
      if phase.Head? && readLen >= HEAD_TOTAL_LEN {
        HeadRead(readLen);
      } else if phase.InBody? && readLen >= phase.len {
        notify := BodyRead(readLen);
      }
    }

    /** The socket's part: the bytes go behind those already read. */
    method Store(chunk: seq<Byte>)
      requires ReadValid() && Reading(R()) && |chunk| <= Room(R())
      modifies this`readLen, data
      ensures PieceValid() && readLen == old(readLen) + |chunk|
      ensures data[..readLen] == old(data[..readLen]) + chunk
      ensures Messages(logic.msgQue) == old(Messages(logic.msgQue))
    {
      forall i | 0 <= i < |chunk| {
        data[readLen + i] := chunk[i];
      }
      readLen := readLen + |chunk|;
      assert forall n :: n in logic.msgQue ==> n.recvNode.data in Nodes(logic.msgQue);
    }

    /** The header handler.  A transfer that is too short ends the reading; `ReadSome` never closes a
        session, so it never makes one. */
    method HeadRead(transferred: nat)
      requires PieceValid() && phase.Head? && transferred == readLen <= HEAD_TOTAL_LEN
      modifies this`phase, this`readLen, this`recvMsgNode, data, recvHeadNode`curLen, recvHeadNode.data
      ensures ReadValid() && posted == old(posted)
      ensures R() == if transferred < 4 then Reader(Closed, [], posted) else HeadDone(posted, old(data[..readLen]))
      ensures transferred == 4 ==>
        var id, len := (old(data[0]) as int) * 256 + old(data[1]), (old(data[2]) as int) * 256 + old(data[3]);
        phase == if 2048 < id < 32768 then Refusing(BadId)
                 else if 2048 < len < 32768 then Refusing(BadLength)
                 else if len >= 32768 then Refusing(NegativeLength)
                 else InBody(if id < 32768 then id else id - 65536, len)
      ensures Messages(logic.msgQue) == old(Messages(logic.msgQue))
      ensures recvMsgNode == old(recvMsgNode) || (recvMsgNode != null && fresh(recvMsgNode) && fresh(recvMsgNode.data))
    {
      if transferred < HEAD_TOTAL_LEN {
        phase, readLen := Closed, 0;
        return;
      }
      var head := CopyHead();
      HeadDoneIs(posted, head);
      var msgId := NetworkToHost(head[0], head[1]);
      if msgId > MAX_LENGTH {
        phase, readLen := Refusing(BadId), 0;
        return;
      }
      var msgLen := NetworkToHost(head[2], head[3]);
      if msgLen > MAX_LENGTH {
        phase, readLen := Refusing(BadLength), 0;
        return;
      }
      if msgLen < 0 {
        phase, readLen := Refusing(NegativeLength), 0;
        return;
      }
      recvMsgNode := new RecvNode(msgLen, msgId);
      AsyncReadFull(InBody(msgId, msgLen));
    }

    /** The copy into the header node, which no queued node notices. */
    method CopyHead() returns (head: seq<Byte>)
      requires BuffersValid() && readLen == HEAD_TOTAL_LEN
      modifies recvHeadNode`curLen, recvHeadNode.data
      ensures BuffersValid() && head == data[..HEAD_TOTAL_LEN]
      ensures Messages(logic.msgQue) == old(Messages(logic.msgQue))
    {
      assert forall n :: n in logic.msgQue ==> n.recvNode.data in Nodes(logic.msgQue);
      recvHeadNode.Clear();
      forall i | 0 <= i < readLen {
        recvHeadNode.data[i] := data[i];
      }
      head := recvHeadNode.data[..HEAD_TOTAL_LEN];
    }

    /** The body handler: fill the node, post it, and start on the next header.  As with the header, a
        transfer that is too short would end the reading, and never comes. */
    method BodyRead(transferred: nat) returns (notify: bool)
      requires PieceValid() && phase.InBody? && transferred == readLen <= phase.len
      modifies this`phase, this`readLen, this`posted, data, recvMsgNode, recvMsgNode.data, logic`msgQue
      ensures ReadValid()
      ensures Messages(old(logic.msgQue)) == old(Messages(logic.msgQue))
      ensures transferred < old(phase).len ==>
        R() == Reader(Closed, [], old(posted)) && logic.msgQue == old(logic.msgQue) && !notify
      ensures transferred == old(phase).len ==>
        && R() == Reader(Head, [], old(posted) + [Frame(old(phase).id, old(data[..readLen]))])
        && logic.msgQue == old(logic.msgQue) + [LogicNode(sessionId, old(recvMsgNode))]
        && (notify <==> old(logic.msgQue) == [])
        && Messages(logic.msgQue) == old(Messages(logic.msgQue)) + [Msg(sessionId, posted[|posted| - 1])]
    {
      if transferred < phase.len {
        phase, readLen := Closed, 0;
        return false;
      }
      FillNode();
      posted := posted + [recvMsgNode.Content()];
      notify := logic.PostMsgToQue(LogicNode(sessionId, recvMsgNode));
      AsyncReadFull(Head);
    }

    /** The copy into the node, which no queued node notices. */
    method FillNode()
      requires PieceValid() && phase.InBody? && readLen == phase.len
      modifies recvMsgNode, recvMsgNode.data
      ensures BuffersValid() && recvMsgNode.Valid()
      ensures recvMsgNode.Content() == Frame(phase.id, old(data[..readLen]))
      ensures Messages(logic.msgQue) == old(Messages(logic.msgQue))
    {
      assert forall n :: n in logic.msgQue ==>
        n.recvNode in Nodes(logic.msgQue) && n.recvNode.data in Nodes(logic.msgQue);
      recvMsgNode.Fill(data, readLen);
    }

    /** As `ReadValid`, while a piece is complete and its handler has not run. */
    ghost predicate PieceValid()
      reads this`phase, this`readLen, this`recvMsgNode, logic, Buffers(), Nodes(logic.msgQue)
    {
      && BuffersValid()
      && (phase.InBody? ==>
            recvMsgNode != null && recvMsgNode.Valid() && recvMsgNode.curLen == 0
            && recvMsgNode.data != data && recvMsgNode.data != recvHeadNode.data
            && recvMsgNode.msgId == phase.id <= MAX_LENGTH && recvMsgNode.totalLen == phase.len
            && recvMsgNode !in Nodes(logic.msgQue) && recvMsgNode.data !in Nodes(logic.msgQue))
    }

    /** The part of it that does not concern the node being filled. */
    ghost predicate BuffersValid()
      reads this`readLen, this`recvMsgNode, logic, Buffers(), Nodes(logic.msgQue)
    {
      && data.Length == MAX_LENGTH && readLen <= MAX_LENGTH
      && recvHeadNode.Valid() && recvHeadNode.totalLen == HEAD_TOTAL_LEN && recvHeadNode.data != data
      && logic.Valid()
      && {data, recvHeadNode.data} !! Nodes(logic.msgQue)
    }

    /** The read error branch: the session is closed and reads no more. */
    method ReadFailed()
      requires Valid() && Reading(R())
      modifies this`phase, this`readLen
      ensures Valid() && R() == ReadError(old(R())) && W() == old(W())
    {
      phase, readLen := Closed, 0;
      ReaderMoved();
    }

    /** `send`, both overloads: the size, capacity and length checks, and the push of a new node.  The
        reading half stays as it was. */
    method Send(msg: seq<Byte>, msgId: Short)
      requires Valid()
      modifies this`sendQue, this`writes, this`accepted
      ensures Valid() && W() == WriteSide.Send(old(W()), msg, msgId) && R() == old(R())
      ensures if |old(sendQue)| < 1000 && 1 <= |msg| <= 2048
              then |sendQue| == |old(sendQue)| + 1 && old(sendQue) <= sendQue
                   && sendQue[|old(sendQue)|].frame == Frame(msgId, msg)
              else sendQue == old(sendQue)
      ensures OldOrNew()
      ensures WriterOk(old(W())) ==> WriterOk(W())
    {
      if WriterOk(W()) {
        SendOk(W(), msg, msgId);
      }
      if |msg| > SHORT_MAX {
        return;
      }
      if |sendQue| >= MAX_SENDQUE {
        return;
      }
      if |msg| <= 0 || |msg| > MAX_LENGTH {
        return;
      }
      var node := new SendNode(msg, msgId);
      Push(node);
      WriterMoved();
    }

    /** The push, and a write of the front when the queue then holds a single node. */
    method Push(node: SendNode)
      requires WriteValid() && node.Valid() && Acceptable(W(), node.frame.body)
      modifies this`sendQue, this`writes, this`accepted
      ensures WriteValid() && W() == WriteSide.Send(old(W()), node.frame.body, node.frame.id)
      ensures sendQue == old(sendQue) + [node]
    {
      ghost var w := W();
      sendQue := sendQue + [node];
      accepted := accepted + [node.frame];
      QueuedSnoc(old(sendQue), node);
      if |sendQue| > 1 {
        assert W() == WriteSide.Send(w, node.frame.body, node.frame.id);
        return;
      }
      AsyncWrite(sendQue[0]);
      assert W() == WriteSide.Send(w, node.frame.body, node.frame.id);
    }

    /** async_write: the socket is handed the buffer of a node. */
    method AsyncWrite(node: SendNode)
      modifies this`writes
      ensures writes == old(writes) + [NodeWrite(node, 0)]
      ensures Handed(writes) == old(Handed(writes)) + [Write(node.frame, 0)]
    {
      writes := writes + [NodeWrite(node, 0)];
    }

    /** The socket takes the next `n` bytes of the buffer it was handed in write `i`.  The reading half
        stays as it was. */
    method WriteSome(i: nat, n: nat) returns (sent: seq<Byte>)
      requires Valid() && CanTransmit(W(), i, n)
      modifies this`writes, this`wire
      ensures Valid() && W() == Transmit(old(W()), i, n) && R() == old(R())
      ensures wire == old(wire) + sent
      ensures WriterOk(old(W())) ==> WriterOk(W())
    {
      if WriterOk(W()) {
        TransmitOk(W(), i, n);
      }
      sent := WriteBytes(i, n);
      WriterMoved();
    }

    method WriteBytes(i: nat, n: nat) returns (sent: seq<Byte>)
      requires WriteValid() && CanTransmit(W(), i, n)
      modifies this`writes, this`wire
      ensures WriteValid() && W() == Transmit(old(W()), i, n)
      ensures wire == old(wire) + sent
    {
      ghost var w := W();
      var node, done := writes[i].node, writes[i].done;
      assert node in sendQue && w.writes[i] == Write(node.frame, done);
      sent := node.Slice(done, n);
      HandedUpdate(writes, i, NodeWrite(node, done + n));
      writes, wire := writes[i := NodeWrite(node, done + n)], wire + sent;
      assert W() == Transmit(w, i, n);
    }

    /** `handleWrite` of write `i`: without an error the front is popped and the next write started;
        with one nothing happens, ever again.  The reading half stays as it was. */
    method HandleWrite(i: nat, error: bool)
      requires Valid() && (if error then i < |writes| else CanFinish(W(), i))
      modifies this`sendQue, this`writes, this`failure
      ensures Valid() && R() == old(R())
      ensures W() == if error then Break(old(W()), i) else Finish(old(W()), i)
      ensures WriterOk(old(W())) ==> WriterOk(W())
    {
      HandledOk(W(), i, error);
      if !error {
        NextWrite(i);
      } else {
        WriteFailed(i);
      }
      WriterMoved();
    }

    method NextWrite(i: nat)
      requires WriteValid() && CanFinish(W(), i)
      modifies this`sendQue, this`writes
      ensures WriteValid() && W() == Finish(old(W()), i) && sendQue == old(sendQue)[1..]
    {
      ghost var w := W();
      writes := writes[..i] + writes[i + 1..];
      assert Handed(writes) == w.writes[..i] + w.writes[i + 1..] == [];
      QueuedTail(sendQue);
      sendQue := sendQue[1..];
      if sendQue != [] {
        AsyncWrite(sendQue[0]);
      }
      assert W() == Finish(w, i);
    }

    method WriteFailed(i: nat)
      requires WriteValid() && i < |writes|
      modifies this`writes, this`failure
      ensures WriteValid() && W() == Break(old(W()), i)
    {
      ghost var w := W();
      failure := Failed(writes[i].done);
      writes := writes[..i] + writes[i + 1..];
      assert Handed(writes) == w.writes[..i] + w.writes[i + 1..] == [];
      assert W() == Break(w, i);
    }
  }

  lemma HandledOk(w: Writer, i: nat, error: bool)
    requires if error then i < |w.writes| else CanFinish(w, i)
    ensures WriterOk(w) ==> WriterOk(if error then Break(w, i) else Finish(w, i))
  {
    if WriterOk(w) && error {
      BreakOk(w, i);
    } else if WriterOk(w) {
      FinishOk(w, i);
    }
  }

  /** Two sessions over one logic queue that share nothing else. */
  ghost predicate Apart(a: CSession, b: CSession)
    reads a, b
  {
    && a != b && a.logic == b.logic && a.Buffers() !! b.Buffers()
    && {a, b} !! a.Buffers() + b.Buffers() && a.logic !in a.Buffers() + b.Buffers()
    && (forall n :: n in a.sendQue ==> n.data !in b.Buffers())
    && (forall n :: n in b.sendQue ==> n.data !in a.Buffers())
  }

  /** A read of one session leaves both halves of another as they were, although its node is now
      queued. */
  method ReadBeside(a: CSession, b: CSession, chunk: seq<Byte>) returns (notify: bool)
    requires Apart(a, b) && a.Valid() && b.Valid()
    requires Reading(a.R()) && |chunk| <= Room(a.R())
    modifies a, a.Buffers(), a.logic`msgQue
    ensures Apart(a, b) && a.Valid() && b.Valid()
    ensures a.R() == Receive(old(a.R()), chunk) && a.W() == old(a.W())
    ensures b.R() == old(b.R()) && b.W() == old(b.W())
  {
    notify := ReadBesideReader(a, b, chunk);
    assert b.Buffers() == old(b.Buffers());
    forall n | n in b.sendQue
      ensures n.data !in a.Buffers() && n.data !in old(a.Buffers())
    {
      assert n.data !in old(a.Buffers());
    }
    b.ReaderMoved();
  }

  /** The reading half of the other session. */
  method ReadBesideReader(a: CSession, b: CSession, chunk: seq<Byte>) returns (notify: bool)
    requires Apart(a, b) && a.Valid() && b.ReadValid()
    requires Reading(a.R()) && |chunk| <= Room(a.R())
    modifies a, a.Buffers(), a.logic`msgQue
    ensures a.Valid() && a.R() == Receive(old(a.R()), chunk) && a.W() == old(a.W())
    ensures a.sendQue == old(a.sendQue) && fresh(a.Buffers() - old(a.Buffers()))
    ensures b.ReadValid() && b.R() == old(b.R())
  {
    notify := a.ReadSome(chunk);
    assert b.Buffers() == old(b.Buffers());
    assert a.logic.Valid();
  }

  ghost predicate NodesValid(q: seq<SendNode>)
    reads set n | n in q :: n.data
  {
    forall n :: n in q ==> n.Valid()
  }

  ghost function Queued(q: seq<SendNode>): (fs: seq<Frame>)
    ensures |fs| == |q|
  {
    seq(|q|, i requires 0 <= i < |q| => q[i].frame)
  }

  lemma QueuedSnoc(q: seq<SendNode>, n: SendNode)
    ensures Queued(q + [n]) == Queued(q) + [n.frame]
  {
  }

  lemma QueuedTail(q: seq<SendNode>)
    requires q != []
    ensures Queued(q[1..]) == Queued(q)[1..]
  {
  }

  ghost function Handed(ws: seq<NodeWrite>): (fs: seq<Write>)
    ensures |fs| == |ws|
  {
    seq(|ws|, i requires 0 <= i < |ws| => Write(ws[i].node.frame, ws[i].done))
  }

  lemma HandedUpdate(ws: seq<NodeWrite>, i: nat, x: NodeWrite)
    requires i < |ws|
    ensures Handed(ws[i := x]) == Handed(ws)[i := Write(x.node.frame, x.done)]
  {
  }
}
