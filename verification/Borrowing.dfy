/** How many connections the server's threads hold at once: each database function as the sequence in
    which it takes connections and gives them back. */
module Borrowing {
  import opened PoolMachine

  datatype Act = Take | Give

  /** A call of a database function.  The friend list makes a nested call for each row it reaches,
      whether its loop ends or a statement fails. */
  datatype Call =
    | GetUserInfo | GetUserInfoByName | AddFriendApply | GetApplyList | GetFriendApplyAlias | GetFriendAlias
    | AuthFriendApply | AddFriend
    | GetFriendList(rows: nat)

  /** One connection for the length of a call; it goes back on every way out. */
  const SINGLE: seq<Act> := [Take, Give]

  /** What a call does to the pool while it is open. */
  function Script(c: Call): (r: seq<Act>) {
    match c
    case GetFriendList(rows) => [Take] + Nested(rows) + [Give]
    case _ => SINGLE
  }

  /** A getUserInfo for each row. */
  function Nested(rows: nat): (r: seq<Act>) {
    if rows == 0 then [] else SINGLE + Nested(rows - 1)
  }

  /** Calls made one after the other. */
  function Work(cs: seq<Call>): (r: seq<Act>) {
    if cs == [] then [] else Script(cs[0]) + Work(cs[1..])
  }

  function Next(h: int, a: Act): (r: int) {
    if a.Take? then h + 1 else h - 1
  }

  /** What is held at the end, and at most, by a thread that begins with h. */
  function Net(h: int, s: seq<Act>): (r: int)
    decreases |s|
  {
    if s == [] then h else Net(Next(h, s[0]), s[1..])
  }

  function Peak(h: int, s: seq<Act>): (r: int)
    ensures r >= h
    decreases |s|
  {
    if s == [] then h
    else
      var rest := Peak(Next(h, s[0]), s[1..]);
      if rest > h then rest else h
  }

  function Max(a: int, b: int): (r: int) {
    if a > b then a else b
  }

  lemma {:induction false} Concat(h: int, a: seq<Act>, b: seq<Act>)
    ensures Net(h, a + b) == Net(Net(h, a), b)
    ensures Peak(h, a + b) == Max(Peak(h, a), Peak(Net(h, a), b))
    decreases |a|
  {
    if a == [] {
      assert a + b == b;
    } else {
      assert (a + b)[0] == a[0] && (a + b)[1..] == a[1..] + b;
      Concat(Next(h, a[0]), a[1..], b);
    }
  }

  lemma One(h: int)
    ensures Net(h, [Take]) == h + 1 == Peak(h, [Take])
    ensures Net(h, [Give]) == h - 1 && Peak(h, [Give]) == h
    ensures Net(h, SINGLE) == h && Peak(h, SINGLE) == h + 1
  {
    assert [Take][1..] == [] && [Give][1..] == [] && SINGLE[1..] == [Give];
    assert Net(h + 1, [Give]) == Net(h, []) && Peak(h + 1, [Give]) == h + 1;
  }

  lemma {:induction false} NestedPeak(h: int, rows: nat)
    ensures Net(h, Nested(rows)) == h && Peak(h, Nested(rows)) == if rows == 0 then h else h + 1
  {
    if rows > 0 {
      One(h);
      NestedPeak(h, rows - 1);
      Concat(h, SINGLE, Nested(rows - 1));
    }
  }

  /** The most a call holds at once. */
  function Depth(c: Call): (r: nat) {
    if c.GetFriendList? && c.rows > 0 then 2 else 1
  }

  lemma ScriptPeak(c: Call)
    ensures Net(0, Script(c)) == 0 && Peak(0, Script(c)) == Depth(c)
  {
    One(0);
    One(1);
    if c.GetFriendList? {
      NestedPeak(1, c.rows);
      Concat(0, [Take], Nested(c.rows));
      Concat(0, [Take] + Nested(c.rows), [Give]);
    }
  }

  /** The most that any of the calls holds at once. */
  function Deepest(cs: seq<Call>): (r: nat) {
    if cs == [] then 0 else Max(Depth(cs[0]), Deepest(cs[1..]))
  }

  /** A thread that makes any calls one after the other ends with nothing, and holds at most as many
      at once as the deepest of them: two exactly if it reads a friend list that is not empty. */
  lemma {:induction false} WorkPeak(cs: seq<Call>)
    ensures Net(0, Work(cs)) == 0 && Peak(0, Work(cs)) == Deepest(cs) <= 2
    ensures Deepest(cs) == 2 <==> exists c :: c in cs && c.GetFriendList? && c.rows > 0
  {
    if cs != [] {
      ScriptPeak(cs[0]);
      WorkPeak(cs[1..]);
      Concat(0, Script(cs[0]), Work(cs[1..]));
      assert forall c :: c in cs <==> c == cs[0] || c in cs[1..];
    }
  }

  /** What thread t takes or gives back between two states, and in a run of the pool. */
  function ActOf(p: Pool, q: Pool, t: nat): (r: seq<Act>)
    requires t < |p.threads| == |q.threads|
  {
    if |q.threads[t].held| > |p.threads[t].held| then [Take]
    else if |q.threads[t].held| < |p.threads[t].held| then [Give]
    else []
  }

  ghost function Acts(p: Pool, run: seq<Step>, t: nat): (r: seq<Act>)
    requires Runs(p, run) && t < |p.threads|
    decreases |run|
  {
    if run == [] then [] else ActOf(p, Do(p, run[0]), t) + Acts(Do(p, run[0]), run[1..], t)
  }

  lemma StepHeld(p: Pool, s: Step, t: nat)
    requires Enabled(p, s) && t < |p.threads|
    ensures |Do(p, s).threads[t].held| == Net(|p.threads[t].held|, ActOf(p, Do(p, s), t))
  {
    One(|p.threads[t].held|);
    assert |p.threads[t].held| - 1 <= |Do(p, s).threads[t].held| <= |p.threads[t].held| + 1;
  }

  lemma {:induction false} HeldByActs(p: Pool, run: seq<Step>, t: nat)
    requires Runs(p, run) && t < |p.threads|
    ensures |After(p, run).threads| == |p.threads|
    ensures |After(p, run).threads[t].held| == Net(|p.threads[t].held|, Acts(p, run, t))
    decreases |run|
  {
    if run != [] {
      var q := Do(p, run[0]);
      StepHeld(p, run[0], t);
      HeldByActs(q, run[1..], t);
      Concat(|p.threads[t].held|, ActOf(p, q, t), Acts(q, run[1..], t));
    }
  }

  /** So the bounds of the pool's deadlock theorems cost the threads nothing.  A thread that has done,
      in any run of the pool, a part of its work and comes to its next request is allowed to make
      it, if its bound is the depth of the deepest of its calls. */
  lemma WorkFitsDepth(kind: Kind, depth: seq<nat>, created: nat, run: seq<Step>, t: nat, cs: seq<Call>)
    requires Runs(Init(kind, depth, created), run) && t < |depth| && Deepest(cs) <= depth[t]
    requires Acts(Init(kind, depth, created), run, t) + [Take] <= Work(cs)
    requires var p := After(Init(kind, depth, created), run); t < |p.threads| && p.threads[t].pc.Busy?
    ensures Enabled(After(Init(kind, depth, created), run), Get(t))
  {
    var p := Init(kind, depth, created);
    var done := Acts(p, run, t);
    InitOk(kind, depth, created);
    RunOk(p, run);
    HeldByActs(p, run, t);
    WorkPeak(cs);
    NextWithinPeak(done, Work(cs));
  }

  lemma NextWithinPeak(done: seq<Act>, work: seq<Act>)
    requires done + [Take] <= work
    ensures Net(0, done) < Peak(0, work)
  {
    var rest := work[|done| + 1..];
    assert work == (done + [Take]) + rest;
    Concat(0, done + [Take], rest);
    Concat(0, done, [Take]);
    One(Net(0, done));
  }

  /** The calls of the handlers of other servers' requests. */
  predicate OfService(cs: seq<Call>) {
    forall c :: c in cs ==> c.GetUserInfo? || c.GetFriendAlias?
  }

  /** The server's threads: whatever calls they make, two connections at once are enough for the logic
      worker, and one for a handler of another server's request. */
  lemma ServerDepths(worker: seq<Call>, service: seq<Call>)
    requires OfService(service)
    ensures Peak(0, Work(worker)) <= 2 && Peak(0, Work(service)) <= 1
  {
    WorkPeak(worker);
    WorkPeak(service);
  }
}
