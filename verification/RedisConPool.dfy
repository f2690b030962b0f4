/** The Redis pool of raw context pointers: its operations, and one pass of its health check in
    a pool nobody else uses meanwhile. */
module RedisConPool {
  import opened PoolSpec

  /** A `redisContext*`. */
  type Context = nat

  class RedisConPool {
    var connections: seq<Context>
    var stop: bool
    var failCount: nat
    ghost var lent: multiset<Context>   // taken and not returned

    constructor (contexts: seq<Context>)
      ensures S() == Shared(contexts, false) && failCount == 0 && lent == multiset{}
    {
      connections, stop, failCount, lent := contexts, false, 0, multiset{};
    }

    function S(): (r: Shared<Context>)
      reads this
    {
      Shared(connections, stop)
    }

    /** One evaluation of the wait condition, and what follows it. */
    method GetConnection() returns (g: Grant<Context>)
      modifies this`connections, this`lent
      ensures (g, S()) == Acquire(old(S()))
      ensures g == if stop then Null else if old(connections) == [] then Wait else Lent(old(connections[0]))
      ensures connections == if g.Lent? then old(connections)[1..] else old(connections)
      ensures lent == old(lent) + (if g.Lent? then multiset{g.con} else multiset{})
    {
      if !stop && connections == [] {
        return Wait;
      }
      if stop {
        return Null;
      }
      g := Lent(connections[0]);
      lent := lent + multiset{connections[0]};
      connections := connections[1..];
    }

    /** The checker's way in: it never waits. */
    method GetConNonBlock() returns (g: Grant<Context>)
      modifies this`connections, this`lent
      ensures g == (if stop || old(connections) == [] then Null else Lent(old(connections[0])))
      ensures g == (if Acquire(old(S())).0.Wait? then Null else Acquire(old(S())).0)
      ensures S() == Acquire(old(S())).1
      ensures lent == old(lent) + (if g.Lent? then multiset{g.con} else multiset{})
    {
      if stop {
        return Null;
      }
      if connections == [] {
        return Null;
      }
      g := Lent(connections[0]);
      lent := lent + multiset{connections[0]};
      connections := connections[1..];
    }

    /** Only a context that was taken may come back, and only once. */
    method ReturnConnection(context: Context) returns (notify: bool)
      requires context in lent
      modifies this`connections, this`lent
      ensures (notify, S()) == GiveBack(old(S()), context)
      ensures notify == !stop
      ensures connections == if stop then old(connections) else old(connections) + [context]
      ensures lent == old(lent) - multiset{context}
    {
      lent := lent - multiset{context};
      if stop {
        return false;
      }
      connections := connections + [context];
      notify := true;
    }

    /** One pass of the check.  `answering` are the contexts whose PING succeeds; the first `willing`
        reconnections succeed, and `newContext` gives the context each makes. */
    method CheckThreadPro(answering: set<Context>, newContext: nat -> Context, willing: nat)
      modifies this`connections, this`failCount, this`lent
      ensures lent == old(lent)
      ensures |connections| + failCount == |old(connections)| + old(failCount)
      ensures var kept := if stop then old(connections) else Kept(old(connections), Dead(old(connections), answering));
              var n := Reconnected(willing, old(failCount) + |old(connections)| - |kept|);
              connections == kept + Opened(newContext, n)
      ensures !stop ==>
        forall c :: c in old(connections) ==>
          (c in Kept(old(connections), Dead(old(connections), answering)) <==> c in answering)
      ensures willing >= |old(connections)| + old(failCount) ==> failCount == 0
    {
      CheckIdle(answering);
      Replace(newContext, willing);
    }

    /** The loop over the idle contexts: a context that fails is freed, any other goes back. */
    method CheckIdle(answering: set<Context>)
      modifies this`connections, this`failCount, this`lent
      ensures lent == old(lent)
      ensures connections == if stop then old(connections) else Kept(old(connections), Dead(old(connections), answering))
      ensures |connections| + failCount == |old(connections)| + old(failCount)
    {
      ghost var q := connections;
      ghost var dead := Dead(q, answering);
      var poolSize := |connections|;
      var i := 0;
      while i < poolSize && !stop
        invariant 0 <= i <= |q| == poolSize && (stop ==> i == 0)
        invariant connections == q[i..] + Kept(q[..i], dead)
        invariant |connections| + failCount == |q| + old(failCount)
        invariant lent == old(lent)
        decreases poolSize - i
      {
        assert connections[0] == q[i] && (q[i] in dead <==> q[i] !in answering);
        ghost var back := Kept(q[..i], dead);
        assert connections[1..] == q[i + 1..] + back;
        CheckFront(answering);
        KeptStep(q, i, dead);
        assert connections == q[i + 1..] + Kept(q[..i + 1], dead);
        i := i + 1;
      }
      if stop {
        assert q[0..] + Kept(q[..0], dead) == q;
      } else {
        assert q[..i] == q;
      }
    }

    /** One turn of that loop. */
    method CheckFront(answering: set<Context>)
      requires connections != [] && !stop
      modifies this`connections, this`failCount, this`lent
      ensures lent == old(lent)
      ensures var context := old(connections[0]);
              if context in answering then
                connections == old(connections)[1..] + [context] && failCount == old(failCount)
              else
                connections == old(connections)[1..] && failCount == old(failCount) + 1
    {
      var g := GetConNonBlock();
      if g.con !in answering {
        lent := lent - multiset{g.con};
        failCount := failCount + 1;
      } else {
        var _ := ReturnConnection(g.con);
      }
    }

    /** The loop that makes up for failures, up to the first attempt that fails. */
    method Replace(newContext: nat -> Context, willing: nat)
      modifies this`connections, this`failCount
      ensures var n := Reconnected(willing, old(failCount));
              connections == old(connections) + Opened(newContext, n) && failCount == old(failCount) - n
    {
      ghost var q, missing := connections, failCount;
      var attempt: nat := 0;
      while failCount > 0
        invariant attempt + failCount == missing
        invariant connections == q + Opened(newContext, attempt)
        invariant attempt <= willing
        decreases failCount
      {
        if attempt >= willing {
          break;
        }
        OpenedNext(newContext, attempt, q);
        connections := connections + [newContext(attempt)];
        failCount := failCount - 1;
        attempt := attempt + 1;
      }
    }
  }

  lemma OpenedNext(newContext: nat -> Context, n: nat, q: seq<Context>)
    ensures q + Opened(newContext, n + 1) == (q + Opened(newContext, n)) + [newContext(n)]
  {
  }

  ghost function Dead(q: seq<Context>, answering: set<Context>): (r: set<Context>) {
    set c | c in q && c !in answering
  }

  /** The contexts of the first `n` attempts. */
  ghost function Opened(newContext: nat -> Context, n: nat): (r: seq<Context>)
    ensures |r| == n && forall i :: 0 <= i < n ==> r[i] == newContext(i)
  {
    if n == 0 then [] else Opened(newContext, n - 1) + [newContext(n - 1)]
  }
}
