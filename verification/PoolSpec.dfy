/** What a connection pool does under its mutex, on values: the parts the MySQL, Redis and
    chat-server pools share. */
module PoolSpec {
  datatype Shared<C> = Shared(idle: seq<C>, stop: bool)

  /** `Wait`: the wait condition does not hold.  `Null`: the pool is stopped. */
  datatype Grant<C> = Wait | Null | Lent(con: C)

  /** One evaluation of the wait condition of `getConnection`, and what follows it. */
  function Acquire<C>(s: Shared<C>): (r: (Grant<C>, Shared<C>))
  {
    if s.stop then (Null, s)
    else if s.idle == [] then (Wait, s)
    else (Lent(s.idle[0]), s.(idle := s.idle[1..]))
  }

  /** `returnConnection`: a stopped pool drops the connection and notifies nobody. */
  function GiveBack<C>(s: Shared<C>, c: C): (r: (bool, Shared<C>))
  {
    if s.stop then (false, s) else (true, s.(idle := s.idle + [c]))
  }

  /** One use of an open pool: a request, or a return. */
  datatype Use<C> = Take | Put(con: C)

  function Used<C>(s: Shared<C>, us: seq<Use<C>>): (r: Shared<C>)
    decreases |us|
  {
    if us == [] then s
    else Used(match us[0] case Take => Acquire(s).1 case Put(c) => GiveBack(s, c).1, us[1..])
  }

  /** The connections lent, and those returned, in order. */
  function LentBy<C>(s: Shared<C>, us: seq<Use<C>>): (r: seq<C>)
    decreases |us|
  {
    if us == [] then []
    else
      match us[0]
      case Take => (if Acquire(s).0.Lent? then [Acquire(s).0.con] else []) + LentBy(Acquire(s).1, us[1..])
      case Put(c) => LentBy(GiveBack(s, c).1, us[1..])
  }

  function PutBy<C>(us: seq<Use<C>>): (r: seq<C>) {
    if us == [] then [] else (match us[0] case Take => [] case Put(c) => [c]) + PutBy(us[1..])
  }

  /** The queue discipline.  In any sequence of requests and returns to an open pool, the connections
      are lent in the order they were idle and then in the order they came back, and none is lost or
      made; a request gets none only if none is idle. */
  lemma {:induction false} FirstInFirstOut<C>(s: Shared<C>, us: seq<Use<C>>)
    requires !s.stop
    ensures !Used(s, us).stop && LentBy(s, us) + Used(s, us).idle == s.idle + PutBy(us)
    ensures Acquire(s).0.Lent? <==> s.idle != []
    decreases |us|
  {
    if us != [] {
      match us[0]
      case Take =>
        FirstInFirstOut(Acquire(s).1, us[1..]);
        if s.idle != [] {
          assert s.idle == [s.idle[0]] + s.idle[1..];
          assert [s.idle[0]] + (s.idle[1..] + PutBy(us[1..])) == s.idle + PutBy(us);
          assert LentBy(s, us) + Used(s, us).idle == [s.idle[0]] + (LentBy(Acquire(s).1, us[1..]) + Used(s, us).idle);
        }
      case Put(c) =>
        FirstInFirstOut(GiveBack(s, c).1, us[1..]);
        assert (s.idle + [c]) + PutBy(us[1..]) == s.idle + ([c] + PutBy(us[1..]));
    }
  }

  /** A stopped pool lends nothing, takes nothing back and notifies nobody. */
  lemma StoppedPool<C>(s: Shared<C>, c: C)
    requires s.stop
    ensures Acquire(s) == (Null, s) && GiveBack(s, c) == (false, s)
  {
  }

  /** A queue without the connections that failed their check, in its order. */
  function Kept<C(==)>(q: seq<C>, dead: set<C>): (r: seq<C>)
    ensures forall i :: 0 <= i < |r| ==> r[i] in q && r[i] !in dead
    ensures forall i :: 0 <= i < |q| && q[i] !in dead ==> q[i] in r
    ensures |r| <= |q|
  {
    if q == [] then []
    else
      var k := Kept(q[..|q| - 1], dead);
      if q[|q| - 1] in dead then k else k + [q[|q| - 1]]
  }

  lemma KeptStep<C>(q: seq<C>, i: nat, dead: set<C>)
    requires i < |q|
    ensures Kept(q[..i + 1], dead) == Kept(q[..i], dead) + (if q[i] in dead then [] else [q[i]])
  {
    assert q[..i + 1][..i] == q[..i];
  }

  /** `at` lists, in increasing order, the places in q of everything that is not dead. */
  ghost predicate LivePlaces<C>(q: seq<C>, dead: set<C>, at: seq<nat>) {
    && (forall i, j :: 0 <= i < j < |at| ==> at[i] < at[j])
    && (forall i :: 0 <= i < |at| ==> at[i] < |q| && q[at[i]] !in dead)
    && (forall k: nat :: k < |q| && q[k] !in dead ==> k in at)
  }

  /** The places of the survivors. */
  function Survivors<C(==)>(q: seq<C>, dead: set<C>): (at: seq<nat>) {
    if q == [] then []
    else
      var before := Survivors(q[..|q| - 1], dead);
      if q[|q| - 1] in dead then before else before + [|q| - 1]
  }

  /** So the survivors are exactly the connections that are not dead, as often as they were there and
      in the order they had. */
  lemma KeptInOrder<C>(q: seq<C>, dead: set<C>)
    ensures var at := Survivors(q, dead);
            && LivePlaces(q, dead, at)
            && |Kept(q, dead)| == |at|
            && forall i :: 0 <= i < |at| ==> Kept(q, dead)[i] == q[at[i]]
  {
    SurvivorsLive(q, dead);
    KeptAt(q, dead);
  }

  lemma {:induction false} KeptAt<C>(q: seq<C>, dead: set<C>)
    ensures var at := Survivors(q, dead);
            && |Kept(q, dead)| == |at|
            && forall i :: 0 <= i < |at| ==> at[i] < |q| && Kept(q, dead)[i] == q[at[i]]
    decreases |q|
  {
    if q != [] {
      KeptAt(q[..|q| - 1], dead);
    }
  }

  lemma {:induction false} SurvivorsLive<C>(q: seq<C>, dead: set<C>)
    ensures LivePlaces(q, dead, Survivors(q, dead))
    decreases |q|
  {
    if q != [] {
      SurvivorsLive(q[..|q| - 1], dead);
      LivePlacesNext(q, dead, Survivors(q[..|q| - 1], dead));
    }
  }

  lemma LivePlacesNext<C>(q: seq<C>, dead: set<C>, at: seq<nat>)
    requires q != [] && LivePlaces(q[..|q| - 1], dead, at)
    ensures LivePlaces(q, dead, if q[|q| - 1] in dead then at else at + [|q| - 1])
  {
    var n: nat := |q| - 1;
    var at' := if q[n] in dead then at else at + [n];
    forall k: nat | k < |q| && q[k] !in dead
      ensures k in at'
    {
      if k < n {
        assert q[..n][k] == q[k];
        assert k in at;
        assert at' == at || at' == at + [n];
      }
    }
  }

  ghost predicate Distinct<C>(q: seq<C>) {
    forall i, j :: 0 <= i < j < |q| ==> q[i] != q[j]
  }

  /** How many reconnections a pass makes when `missing` are due and attempts succeed until the
      first `willing` are used up. */
  function Reconnected(willing: nat, missing: nat): (r: nat)
    ensures r <= willing && r <= missing && (r == willing || r == missing)
  {
    if willing < missing then willing else missing
  }
}
