/** The friend list: the rows of the friend table joined with the user table, one nested query
    per row. */
module FriendList {
  import opened SharedState

  /** A row of the result: friend_id and alias_name. */
  type FriendRow = (int, string)

  /** The rows a query for the friends of `self` returns, in whatever order. */
  ghost predicate ResultFor(w: World, self: int, rows: seq<FriendRow>) {
    && (forall i, j :: 0 <= i < j < |rows| ==> rows[i].0 != rows[j].0)
    && (forall i :: 0 <= i < |rows| ==> (self, rows[i].0) in w.friends && w.friends[(self, rows[i].0)] == rows[i].1)
    && (forall f :: (self, f) in w.friends ==> exists i :: 0 <= i < |rows| && rows[i].0 == f)
  }

  /** The friends the first `n` rows give; the nested queries of the rows in `failing` fail. */
  function Joined(w: World, rows: seq<FriendRow>, n: nat, failing: set<nat>): (r: seq<UserInfo>)
    requires n <= |rows|
  {
    if n == 0 then []
    else
      var before := Joined(w, rows, n - 1, failing);
      match QueryUid(w, rows[n - 1].0, n - 1 !in failing)
      case None => before
      case Some(u) => before + [u.(aliasName := rows[n - 1].1)]
  }

  lemma {:induction false} JoinedHas(w: World, rows: seq<FriendRow>, n: nat, failing: set<nat>, u: UserInfo)
    requires n <= |rows|
    ensures u in Joined(w, rows, n, failing) <==>
              exists i: nat :: i < n && QueryUid(w, rows[i].0, i !in failing).Some?
                && u == QueryUid(w, rows[i].0, i !in failing).value.(aliasName := rows[i].1)
  {
    if n > 0 {
      JoinedHas(w, rows, n - 1, failing, u);
    }
  }

  /** The rows whose query finds a user. */
  function Answered(w: World, rows: seq<FriendRow>, n: nat, failing: set<nat>): (at: seq<nat>)
    requires n <= |rows|
  {
    if n == 0 then []
    else
      Answered(w, rows, n - 1, failing)
      + (if QueryUid(w, rows[n - 1].0, n - 1 !in failing).Some? then [n - 1] else [])
  }

  /** The list is in the order of the rows: one entry for each row that was answered, with the friend
      and the alias of that row. */
  lemma {:induction false} JoinedInOrder(w: World, rows: seq<FriendRow>, n: nat, failing: set<nat>)
    requires n <= |rows|
    ensures var l, at := Joined(w, rows, n, failing), Answered(w, rows, n, failing);
            && |l| == |at|
            && (forall i :: 0 <= i < |at| ==> at[i] < n && l[i].uid == rows[at[i]].0 && l[i].aliasName == rows[at[i]].1)
            && (forall i, j :: 0 <= i < j < |at| ==> at[i] < at[j])
  {
    if n > 0 {
      JoinedInOrder(w, rows, n - 1, failing);
      QueriedUid(w, rows[n - 1].0, n - 1 !in failing);
    }
  }

  ghost predicate DistinctUids(l: seq<UserInfo>) {
    forall i, j :: 0 <= i < j < |l| ==> l[i].uid != l[j].uid
  }

  lemma {:induction false} JoinedUids(w: World, rows: seq<FriendRow>, n: nat, failing: set<nat>)
    requires n <= |rows| && forall i, j :: 0 <= i < j < |rows| ==> rows[i].0 != rows[j].0
    ensures DistinctUids(Joined(w, rows, n, failing))
  {
    if n > 0 {
      JoinedUids(w, rows, n - 1, failing);
      var before := Joined(w, rows, n - 1, failing);
      forall i | 0 <= i < |before|
        ensures before[i].uid != rows[n - 1].0
      {
        JoinedFrom(w, rows, n - 1, failing, before[i]);
      }
      QueriedUid(w, rows[n - 1].0, n - 1 !in failing);
    }
  }

  lemma QueriedUid(w: World, uid: int, sql: bool)
    ensures QueryUid(w, uid, sql).Some? ==> QueryUid(w, uid, sql).value.uid == uid
  {
  }

  /** Whoever is in the list came from one of the rows. */
  lemma {:induction false} JoinedFrom(w: World, rows: seq<FriendRow>, n: nat, failing: set<nat>, u: UserInfo)
    requires n <= |rows| && u in Joined(w, rows, n, failing)
    ensures exists i :: 0 <= i < n && rows[i].0 == u.uid
  {
    QueriedUid(w, rows[n - 1].0, n - 1 !in failing);
    if u in Joined(w, rows, n - 1, failing) {
      JoinedFrom(w, rows, n - 1, failing, u);
    } else {
      assert rows[n - 1].0 == u.uid;
    }
  }

  /** When all queries succeed the list holds every friend that is a user, once, with the profile of
      the user table and the alias of the friend table, and nobody else.  No induction is meant, and
      Dafny's automatic one is off: the hypothesis it forms here, over rows of any type, is not sound. */
  lemma {:induction false} FriendListExact(w: World, self: int, rows: seq<FriendRow>)
    requires ResultFor(w, self, rows)
    ensures var l := Joined(w, rows, |rows|, {});
            && DistinctUids(l)
            && forall u :: u in l <==>
                 (self, u.uid) in w.friends && RowByUid(w.users, u.uid).Some?
                 && u == FromRow(RowByUid(w.users, u.uid).value).(aliasName := w.friends[(self, u.uid)])
  {
    JoinedUids(w, rows, |rows|, {});
    var l := Joined(w, rows, |rows|, {});
    forall u
      ensures u in l <==>
                (self, u.uid) in w.friends && RowByUid(w.users, u.uid).Some?
                && u == FromRow(RowByUid(w.users, u.uid).value).(aliasName := w.friends[(self, u.uid)])
    {
      JoinedHas(w, rows, |rows|, {}, u);
      if (self, u.uid) in w.friends {
        var i :| 0 <= i < |rows| && rows[i].0 == u.uid;
      }
    }
  }
}
