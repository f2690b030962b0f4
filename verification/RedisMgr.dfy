/** The commands on Redis: each borrows a context, sends one command, and returns the context on
    every branch.  The server's answer is a parameter. */
module RedisMgr {
  import opened RedisConPool

  /** `NoReply` is the null pointer of a broken connection. */
  datatype Reply = NoReply | Nil | Failed(message: string) | Status(text: string) | Str(value: string) | Integer(n: int)

  class RedisMgr {
    const pool: RedisConPool

    constructor (pool: RedisConPool)
      ensures this.pool == pool
    {
      this.pool := pool;
    }

    /** The wait of `getConnection` is over: the pool is stopped or has an idle context. */
    ghost predicate Ready()
      reads pool
    {
      pool.stop || pool.connections != []
    }

    /** Nothing is out that was not out before, and the context used went to the back. */
    twostate predicate BorrowedOnce()
      reads pool
    {
      && pool.lent == old(pool.lent) && pool.stop == old(pool.stop) && pool.failCount == old(pool.failCount)
      && (old(pool.stop) ==> pool.connections == old(pool.connections))
      && (!old(pool.stop) && old(pool.connections) != [] ==>
            pool.connections == old(pool.connections)[1..] + [old(pool.connections)[0]])
    }

    method Get(key: string, reply: Reply, unset: string) returns (ok: bool, value: string)
      requires Ready()
      modifies pool
      ensures BorrowedOnce()
      ensures ok <==> !pool.stop && reply.Str?
      ensures value == if ok then reply.value else unset
    {
      value := unset;
      var g := pool.GetConnection();
      if g.Null? {
        return false, value;
      }
      if reply.NoReply? {
        var _ := pool.ReturnConnection(g.con);
        return false, value;
      }
      if !reply.Str? {
        var _ := pool.ReturnConnection(g.con);
        return false, value;
      }
      value := reply.value;
      var _ := pool.ReturnConnection(g.con);
      ok := true;
    }

    method Set(key: string, value: string, reply: Reply) returns (ok: bool)
      requires Ready()
      modifies pool
      ensures BorrowedOnce()
      ensures ok <==> !pool.stop && (reply == Status("OK") || reply == Status("ok"))
    {
      var g := pool.GetConnection();
      if g.Null? {
        return false;
      }
      if reply.NoReply? {
        var _ := pool.ReturnConnection(g.con);
        return false;
      }
      if !(reply.Status? && (reply.text == "OK" || reply.text == "ok")) {
        var _ := pool.ReturnConnection(g.con);
        return false;
      }
      var _ := pool.ReturnConnection(g.con);
      ok := true;
    }

    method HSet(key: string, hkey: string, value: string, reply: Reply) returns (ok: bool)
      requires Ready()
      modifies pool
      ensures BorrowedOnce()
      ensures ok <==> !pool.stop && reply.Integer?
    {
      var g := pool.GetConnection();
      if g.Null? {
        return false;
      }
      if reply.NoReply? || !reply.Integer? {
        var _ := pool.ReturnConnection(g.con);
        return false;
      }
      var _ := pool.ReturnConnection(g.con);
      ok := true;
    }

    /** HGET answers with a string, nil or an error; every failure reads as the empty string. */
    method HGet(key: string, hkey: string, reply: Reply) returns (value: string)
      requires Ready() && !reply.Integer?
      modifies pool
      ensures BorrowedOnce()
      ensures value == if !pool.stop && reply.Str? then reply.value
                       else if !pool.stop && reply.Status? then reply.text else ""
    {
      var g := pool.GetConnection();
      if g.Null? {
        return "";
      }
      if reply.NoReply? || reply.Nil? {
        var _ := pool.ReturnConnection(g.con);
        return "";
      }
      if reply.Failed? {
        var _ := pool.ReturnConnection(g.con);
        return "";
      }
      value := if reply.Str? then reply.value else reply.text;
      var _ := pool.ReturnConnection(g.con);
    }

    method HDel(key: string, field: string, reply: Reply) returns (success: bool)
      requires Ready()
      modifies pool
      ensures BorrowedOnce()
      ensures success <==> !pool.stop && reply.Integer? && reply.n > 0
    {
      var g := pool.GetConnection();
      if g.Null? {
        return false;
      }
      success := false;
      if !reply.NoReply? && reply.Integer? {
        success := reply.n > 0;
      }
      var _ := pool.ReturnConnection(g.con);
    }
  }
}
