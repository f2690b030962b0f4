/** The logic worker's queue as the program holds it: nodes in a queue, emptied by the worker. */
module LogicSystem {
  import opened Wire
  import opened MsgNodes
  import opened LogicQueue

  datatype LogicNode = LogicNode(session: nat, recvNode: RecvNode)

  ghost predicate AllValid(q: seq<LogicNode>)
    reads set n | n in q :: n.recvNode, set n | n in q :: n.recvNode.data
  {
    forall n :: n in q ==> n.recvNode.Valid()
  }

  /** The messages that queued nodes stand for. */
  ghost function Messages(q: seq<LogicNode>): (ms: seq<Msg>)
    reads set n | n in q :: n.recvNode, set n | n in q :: n.recvNode.data
    requires AllValid(q)
    ensures |ms| == |q|
  {
    seq(|q|, i requires 0 <= i < |q| && AllValid(q)
               reads set n | n in q :: n.recvNode, set n | n in q :: n.recvNode.data
             => Msg(q[i].session, q[i].recvNode.Content()))
  }

  lemma MessagesTail(q: seq<LogicNode>)
    requires AllValid(q) && q != []
    ensures AllValid(q[1..]) && Messages(q[1..]) == Messages(q)[1..]
    ensures Messages(q)[0] == Msg(q[0].session, q[0].recvNode.Content())
    ensures Handled(Messages(q)[..1])
         == if Registered(q[0].recvNode.msgId) then [Msg(q[0].session, q[0].recvNode.Content())] else []
  {
    var ms := Messages(q);
    assert ms[..1] == [] + [ms[0]];
    HandledSnoc([], ms[0]);
  }

  lemma OneMore(ms: seq<Msg>, k: nat)
    requires k < |ms|
    ensures Handled(ms[..k + 1]) == Handled(ms[..k]) + Handled(ms[k..][..1])
    ensures ms[k..][1..] == ms[k + 1..]
  {
    assert ms[..k] + [ms[k]] == ms[..k + 1];
    HandledSnoc(ms[..k], ms[k]);
    assert ms[k..][..1] == [] + [ms[k]];
    HandledSnoc([], ms[k]);
  }

  class LogicSystem {
    var msgQue: seq<LogicNode>
    var stop: bool
    var calls: seq<Msg>   // the handler calls made so far

    ghost predicate Valid()
      reads this, set n | n in msgQue :: n.recvNode, set n | n in msgQue :: n.recvNode.data
    {
      AllValid(msgQue)
    }

    constructor ()
      ensures Valid() && msgQue == [] && !stop && calls == []
    {
      msgQue, stop, calls := [], false, [];
    }

    /** The critical section of posting; `notify` says whether the producer must notify. */
    method PostMsgToQue(msg: LogicNode) returns (notify: bool)
      requires Valid() && msg.recvNode.Valid()
      modifies this`msgQue
      ensures Valid() && msgQue == old(msgQue) + [msg]
      ensures Messages(msgQue) == old(Messages(msgQue)) + [Msg(msg.session, msg.recvNode.Content())]
      ensures notify <==> old(msgQue) == []
    {
      msgQue := msgQue + [msg];
      notify := |msgQue| == 1;
    }

    /** One message: called or dropped, then popped. */
    method DealFront()
      requires Valid() && msgQue != []
      modifies this
      ensures Valid() && msgQue == old(msgQue)[1..] && stop == old(stop)
      ensures Messages(msgQue) == old(Messages(msgQue))[1..]
      ensures calls == old(calls) + Handled(old(Messages(msgQue))[..1])
      ensures calls == if old(msgQue[0].recvNode.msgId) in {2001, 2003, 2005, 2008, 2011}
                       then old(calls) + [old(Messages(msgQue)[0])] else old(calls)
    {
      MessagesTail(msgQue);
      RegisteredIs(msgQue[0].recvNode.msgId);
      var front := msgQue[0];
      if Registered(front.recvNode.msgId) {
        var data: seq<Byte> := front.recvNode.data[..front.recvNode.curLen];
        calls := calls + [Msg(front.session, Frame(front.recvNode.msgId, data))];
      }
      msgQue := msgQue[1..];
    }

    /** The loop that empties the queue on stop. */
    method Drain()
      requires Valid()
      modifies this
      ensures Valid() && stop == old(stop)
      ensures msgQue == [] && calls == old(calls) + Handled(old(Messages(msgQue)))
    {
      ghost var ms := Messages(msgQue);
      ghost var k := 0;
      assert Handled(ms[..0]) == [];
      while msgQue != []
        invariant Valid() && stop == old(stop)
        invariant 0 <= k <= |ms| && Messages(msgQue) == ms[k..]
        invariant calls == old(calls) + Handled(ms[..k])
        decreases |msgQue|
      {
        ghost var c := calls;
        DealFront();
        OneMore(ms, k);
        assert calls == c + Handled(ms[k..][..1]);
        k := k + 1;
      }
      assert ms[..k] == ms;
    }

    /** One turn of the worker after it left the waiting loop: without a stop it deals with the
        front; with a stop it deals with everything and ends. */
    method DealTurn() returns (exit: bool)
      requires Valid() && (stop || msgQue != [])
      modifies this
      ensures Valid() && exit == stop == old(stop)
      ensures exit ==> msgQue == [] && calls == old(calls) + Handled(old(Messages(msgQue)))
      ensures !exit ==> msgQue == old(msgQue)[1..] && calls == old(calls) + Handled(old(Messages(msgQue))[..1])
    {
      if stop {
        Drain();
        return true;
      }
      DealFront();
      exit := false;
    }
  }
}
