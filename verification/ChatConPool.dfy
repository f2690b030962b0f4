/** The pool of stubs for a peer server: no checker, and a connection comes back only from its
    borrower. */
module ChatConPool {
  import opened PoolSpec

  class ChatConPool<Stub> {
    var connections: seq<Stub>
    var stop: bool

    constructor (stubs: seq<Stub>)
      ensures S() == Shared(stubs, false)
    {
      connections, stop := stubs, false;
    }

    function S(): (r: Shared<Stub>)
      reads this
    {
      Shared(connections, stop)
    }

    /** One evaluation of the wait condition, and what follows it. */
    method GetConnection() returns (g: Grant<Stub>)
      modifies this`connections
      ensures (g, S()) == Acquire(old(S()))
      ensures g == if stop then Null else if old(connections) == [] then Wait else Lent(old(connections[0]))
      ensures connections == if g.Lent? then old(connections)[1..] else old(connections)
    {
      if !(stop || connections != []) {
        return Wait;
      }
      if stop {
        return Null;
      }
      if connections == [] {
        return Null;
      }
      g := Lent(connections[0]);
      connections := connections[1..];
    }

    method ReturnConnection(context: Stub) returns (notify: bool)
      modifies this`connections
      ensures (notify, S()) == GiveBack(old(S()), context)
      ensures notify == !stop
      ensures connections == if stop then old(connections) else old(connections) + [context]
    {
      if stop {
        return false;
      }
      connections := connections + [context];
      notify := true;
    }

    method Close()
      modifies this`stop
      ensures S() == old(S()).(stop := true)
    {
      stop := true;
    }
  }
}
