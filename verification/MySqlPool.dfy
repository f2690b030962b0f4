/** The MySQL pool's operations, and one pass of its health check in a pool nobody else uses
    meanwhile. */
module MySqlPool {
  import opened PoolSpec

  class SqlConnection {
    var lastOperTime: int

    constructor (lastOperTime: int)
      ensures this.lastOperTime == lastOperTime
    {
      this.lastOperTime := lastOperTime;
    }
  }

  /** A connection not used for this many seconds is pinged. */
  const STALE := 5

  /** The time of last use changes only to the timestamp of a ping that was due and answered. */
  twostate predicate OnlyPinged(c: SqlConnection, timestamp: int, answering: set<SqlConnection>)
    reads c
  {
    if old(c.lastOperTime) <= timestamp - STALE && c in answering then c.lastOperTime == timestamp
    else c.lastOperTime == old(c.lastOperTime)
  }

  class MySqlPool {
    var pool: seq<SqlConnection>
    var stop: bool
    var failCount: nat

    constructor (connections: seq<SqlConnection>)
      ensures pool == connections && !stop && failCount == 0
    {
      pool, stop, failCount := connections, false, 0;
    }

    function S(): (r: Shared<SqlConnection>)
      reads this
    {
      Shared(pool, stop)
    }

    /** One evaluation of the wait condition, and what follows it. */
    method GetConnection() returns (g: Grant<SqlConnection>)
      modifies this`pool
      ensures (g, S()) == Acquire(old(S()))
      ensures g == if stop then Null else if old(pool) == [] then Wait else Lent(old(pool[0]))
      ensures pool == if g.Lent? then old(pool)[1..] else old(pool)
    {
      if !stop && pool == [] {
        return Wait;
      }
      if stop {
        return Null;
      }
      g := Lent(pool[0]);
      pool := pool[1..];
    }

    method ReturnConnection(con: SqlConnection) returns (notify: bool)
      modifies this`pool
      ensures (notify, S()) == GiveBack(old(S()), con)
      ensures notify == !stop
      ensures pool == if stop then old(pool) else old(pool) + [con]
    {
      if stop {
        return false;
      }
      pool := pool + [con];
      notify := true;
    }

    /** The flag under the mutex; every waiter is notified. */
    method Close()
      modifies this`stop
      ensures S() == old(S()).(stop := true)
    {
      stop := true;
    }

    /** The connections of the queue that are stale and do not answer. */
    ghost function Dead(timestamp: int, answering: set<SqlConnection>): (r: set<SqlConnection>)
      reads this, pool
    {
      set c | c in pool && timestamp - c.lastOperTime >= STALE && c !in answering
    }

    /** One pass of the check.  `answering` are the connections that answer a ping; the first
        `willing` reconnections succeed. */
    method CheckConnection(timestamp: int, answering: set<SqlConnection>, willing: nat)
      returns (ghost made: seq<SqlConnection>)
      requires Distinct(pool)
      modifies this`pool, this`failCount, pool
      ensures var dead := old(Dead(timestamp, answering));
              && pool == Kept(old(pool), dead) + made
              && (forall c :: c in made ==> fresh(c))
              && |made| == Reconnected(willing, old(failCount) + |old(pool)| - |Kept(old(pool), dead)|)
      ensures |pool| + failCount == |old(pool)| + old(failCount)
      ensures forall c :: c in old(pool) ==> (c in pool <==> timestamp - old(c.lastOperTime) < 5 || c in answering)
      ensures forall c :: c in pool ==> timestamp - c.lastOperTime < 5
      ensures forall c :: c in old(pool) ==>
        c.lastOperTime == if timestamp - old(c.lastOperTime) >= 5 && c in answering then timestamp else old(c.lastOperTime)
      ensures willing >= |old(pool)| + old(failCount) ==> failCount == 0
    {
      CheckIdle(timestamp, answering);
      made := Replace(timestamp, willing);
    }

    /** The loop over the queue: each connection is taken from the front once, and goes to the
        back unless it is stale and does not answer. */
    method CheckIdle(timestamp: int, answering: set<SqlConnection>)
      requires Distinct(pool)
      modifies this`pool, this`failCount, pool
      ensures pool == Kept(old(pool), old(Dead(timestamp, answering)))
      ensures |pool| + failCount == |old(pool)| + old(failCount)
      ensures forall c :: c in pool ==> timestamp - c.lastOperTime < STALE
      ensures forall c :: c in old(pool) ==> OnlyPinged(c, timestamp, answering)
    {
      ghost var q, dead := pool, Dead(timestamp, answering);
      var targetCount := |pool|;
      var i := 0;
      while i < targetCount
        invariant 0 <= i <= |q| == targetCount
        invariant pool == q[i..] + Kept(q[..i], dead)
        invariant |pool| + failCount == |q| + old(failCount)
        invariant forall j :: i <= j < |q| ==> q[j].lastOperTime == old(q[j].lastOperTime)
        invariant forall j :: 0 <= j < i ==> OnlyPinged(q[j], timestamp, answering)
      {
        if pool == [] {
          break;
        }
        ghost var back := Kept(q[..i], dead);
        assert pool[0] == q[i] && pool[1..] == q[i + 1..] + back;
        assert q[i] in dead <==> timestamp - q[i].lastOperTime >= STALE && q[i] !in answering;
        CheckFront(timestamp, answering);
        KeptStep(q, i, dead);
        assert pool == q[i + 1..] + Kept(q[..i + 1], dead);
        i := i + 1;
      }
      assert q[..i] == q;
      forall c | c in pool
        ensures timestamp - c.lastOperTime < STALE
      {
        assert c in q && c !in dead && OnlyPinged(c, timestamp, answering);
      }
    }

    /** One turn of that loop. */
    method CheckFront(timestamp: int, answering: set<SqlConnection>)
      requires pool != []
      modifies this`pool, this`failCount, pool[0]
      ensures var con := old(pool[0]);
              var dead := timestamp - old(pool[0].lastOperTime) >= STALE && con !in answering;
              && OnlyPinged(con, timestamp, answering)
              && pool == old(pool)[1..] + (if dead then [] else [con])
              && failCount == old(failCount) + (if dead then 1 else 0)
    {
      var con := pool[0];
      pool := pool[1..];
      var healthy := true;
      if timestamp - con.lastOperTime >= STALE {
        if con in answering {
          con.lastOperTime := timestamp;
        } else {
          healthy := false;
          failCount := failCount + 1;
        }
      }
      if healthy {
        pool := pool + [con];
      }
    }

    /** The loop that makes up for failures, up to the first attempt that fails. */
    method Replace(timestamp: int, willing: nat) returns (ghost made: seq<SqlConnection>)
      modifies this`pool, this`failCount
      ensures pool == old(pool) + made
      ensures forall c :: c in made ==> fresh(c) && c.lastOperTime == timestamp
      ensures |made| == Reconnected(willing, old(failCount)) && failCount == old(failCount) - |made|
    {
      made := [];
      var attempt: nat := 0;
      while failCount > 0
        invariant pool == old(pool) + made && attempt == |made|
        invariant |made| + failCount == old(failCount)
        invariant forall c :: c in made ==> fresh(c) && c.lastOperTime == timestamp
        invariant attempt <= willing
        decreases failCount
      {
        var done := Reconnect(timestamp, attempt < willing);
        if !done {
          break;
        }
        made := made + [pool[|pool| - 1]];
        failCount := failCount - 1;
        attempt := attempt + 1;
      }
    }

    /** A new connection goes to the back of the queue, and nobody is notified. */
    method Reconnect(timestamp: int, connects: bool) returns (done: bool)
      modifies this`pool
      ensures done == connects
      ensures !done ==> pool == old(pool)
      ensures done ==> |pool| == |old(pool)| + 1 && pool[..|old(pool)|] == old(pool)
                       && fresh(pool[|old(pool)|]) && pool[|old(pool)|].lastOperTime == timestamp
    {
      if !connects {
        return false;
      }
      var con := new SqlConnection(timestamp);
      pool := pool + [con];
      done := true;
    }
  }
}
