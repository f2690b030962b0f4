/** The friend and request tables over whole runs, with statements that may fail. */
module Friends {
  import opened SharedState

  type Key = (int, int)

  /** The alias an operation offers for a row, if it inserts that row. */
  function Offered(op: Op, k: Key): (r: Option<string>) {
    match op
    case FirstInsert(a, b, aliasOfB) => if (a, b) == k then Some(aliasOfB) else None
    case SecondInsert(a, b, aliasOfA) => if (b, a) == k then Some(aliasOfA) else None
    case _ => None
  }

  /** The first alias ever offered for a row. */
  function FirstOffer(ops: seq<Op>, k: Key): (r: Option<string>) {
    if ops == [] then None
    else if Offered(ops[0], k).Some? then Offered(ops[0], k)
    else FirstOffer(ops[1..], k)
  }

  function RowOf(w: World, k: Key): (r: Option<string>) {
    if k in w.friends then Some(w.friends[k]) else None
  }

  lemma StepRow(w: World, op: Op, k: Key)
    ensures RowOf(Do(w, op), k) == if k in w.friends then RowOf(w, k) else Offered(op, k)
  {
  }

  /** The friend table is its history: a row is there exactly when it was there or some insert
      reached it, and it holds the first alias offered, for ever. */
  lemma {:induction false} FriendRowIsFirstOffer(w: World, ops: seq<Op>, k: Key)
    ensures RowOf(After(w, ops), k) == if k in w.friends then RowOf(w, k) else FirstOffer(ops, k)
    decreases |ops|
  {
    if ops != [] {
      StepRow(w, ops[0], k);
      FriendRowIsFirstOffer(Do(w, ops[0]), ops[1..], k);
    }
  }

  /** No run changes or removes a row. */
  lemma FriendRowsNeverChange(w: World, ops: seq<Op>)
    ensures forall k :: k in w.friends ==> k in After(w, ops).friends && After(w, ops).friends[k] == w.friends[k]
  {
    forall k | k in w.friends
      ensures k in After(w, ops).friends && After(w, ops).friends[k] == w.friends[k]
    {
      FriendRowIsFirstOffer(w, ops, k);
    }
  }

  /** Some addFriend of the applicant a by the accepter b reached its first insert. */
  ghost predicate Begun(ops: seq<Op>, a: int, b: int) {
    exists op :: op in ops && op.FirstInsert? && op.applicant == a && op.accepter == b
  }

  /** Some addFriend of a by b reached its second insert. */
  ghost predicate Completed(ops: seq<Op>, a: int, b: int) {
    exists op :: op in ops && op.SecondInsert? && op.applicant == a && op.accepter == b
  }

  /** A second insert comes after a first of its pair.  The statements of different calls, on any
      server, may come between. */
  ghost predicate InOrder(ops: seq<Op>) {
    forall j :: 0 <= j < |ops| && ops[j].SecondInsert? ==> Begun(ops[..j], ops[j].applicant, ops[j].accepter)
  }

  lemma CompletedWasBegun(ops: seq<Op>, a: int, b: int)
    requires InOrder(ops) && Completed(ops, a, b)
    ensures Begun(ops, a, b)
  {
    var j :| 0 <= j < |ops| && ops[j].SecondInsert? && ops[j].applicant == a && ops[j].accepter == b;
    var op :| op in ops[..j] && op.FirstInsert? && op.applicant == a && op.accepter == b;
    assert op in ops;
  }

  lemma {:induction false} OfferedIff(ops: seq<Op>, a: int, b: int)
    ensures FirstOffer(ops, (a, b)).Some? <==> Begun(ops, a, b) || Completed(ops, b, a)
  {
    if ops != [] {
      OfferedIff(ops[1..], a, b);
      assert forall op :: op in ops <==> op == ops[0] || op in ops[1..];
    }
  }

  ghost predicate Mutual(w: World, a: int, b: int) {
    (a, b) in w.friends <==> (b, a) in w.friends
  }

  /** Exactly when friendship is mutual, at any point between any two statements of any servers: some
      addFriend of the pair has reached its second insert, or the first inserts have been reached in
      both directions or in neither.  From an empty table. */
  lemma MutualExactlyWhen(w: World, ops: seq<Op>, a: int, b: int)
    requires w.friends == map[] && InOrder(ops)
    ensures Mutual(After(w, ops), a, b) <==>
              Completed(ops, a, b) || Completed(ops, b, a) || (Begun(ops, a, b) <==> Begun(ops, b, a))
  {
    FriendRowIsFirstOffer(w, ops, (a, b));
    FriendRowIsFirstOffer(w, ops, (b, a));
    OfferedIff(ops, a, b);
    OfferedIff(ops, b, a);
    if Completed(ops, a, b) {
      CompletedWasBegun(ops, a, b);
    }
    if Completed(ops, b, a) {
      CompletedWasBegun(ops, b, a);
    }
  }

  /** It does fail: after the first insert alone the friendship is one-sided. */
  lemma HalfDone(w: World, a: int, b: int, aliasOfB: string)
    requires w.friends == map[] && a != b
    ensures var ops := [FirstInsert(a, b, aliasOfB)];
            InOrder(ops) && (a, b) in After(w, ops).friends && (b, a) !in After(w, ops).friends
  {
    AddFriendIsItsInserts(w, a, b, aliasOfB, "");
  }

  ghost predicate Symmetric(w: World) {
    forall a, b :: (a, b) in w.friends ==> (b, a) in w.friends
  }

  /** Every addFriend that has begun has also reached its second insert. */
  ghost predicate NoneHalfDone(ops: seq<Op>) {
    forall a, b :: Begun(ops, a, b) ==> Completed(ops, a, b)
  }

  /** Whenever no addFriend is half done the whole relation is symmetric, however the statements of
      different calls were interleaved. */
  lemma SymmetryKept(w: World, ops: seq<Op>)
    requires Symmetric(w) && InOrder(ops) && NoneHalfDone(ops)
    ensures Symmetric(After(w, ops))
  {
    forall a, b | (a, b) in After(w, ops).friends
      ensures (b, a) in After(w, ops).friends
    {
      FriendRowIsFirstOffer(w, ops, (a, b));
      FriendRowIsFirstOffer(w, ops, (b, a));
      OfferedIff(ops, a, b);
      OfferedIff(ops, b, a);
      if Completed(ops, b, a) {
        CompletedWasBegun(ops, b, a);
      }
    }
  }

  /** After any run with failures, an addFriend of a pair that reaches its second insert, in either
      direction and whatever comes between its statements, makes the pair mutual for good. */
  lemma CompletedAddRepairs(w: World, ops: seq<Op>, later: seq<Op>, a: int, b: int)
    requires InOrder(ops) && (Completed(ops, a, b) || Completed(ops, b, a))
    ensures var v := After(After(w, ops), later); (a, b) in v.friends && (b, a) in v.friends
  {
    FriendRowIsFirstOffer(w, ops, (a, b));
    FriendRowIsFirstOffer(w, ops, (b, a));
    OfferedIff(ops, a, b);
    OfferedIff(ops, b, a);
    if Completed(ops, a, b) {
      CompletedWasBegun(ops, a, b);
    } else {
      CompletedWasBegun(ops, b, a);
    }
    FriendRowsNeverChange(After(w, ops), later);
  }

  // ---- requests ----

  ghost predicate Approved(w: World, k: Key) {
    k in w.applies && w.applies[k].status == APPROVED
  }

  lemma ApprovalStep(w: World, op: Op, k: Key)
    requires Approved(w, k)
    ensures Approved(Do(w, op), k)
  {
    assert !op.Request? && !op.Approve? ==> Do(w, op).applies == w.applies;
  }

  /** A request, once approved, stays approved: asking again changes its alias only. */
  lemma {:induction false} ApprovalIsFinal(w: World, ops: seq<Op>, k: Key)
    requires Approved(w, k)
    ensures Approved(After(w, ops), k)
    decreases |ops|
  {
    if ops != [] {
      ApprovalStep(w, ops[0], k);
      ApprovalIsFinal(Do(w, ops[0]), ops[1..], k);
    }
  }

  /** Asking again keeps the status and takes the new alias; a first request is pending.  Approval
      keeps the alias, and approves nothing that was not asked. */
  lemma RequestAndApproval(w: World, from: int, to: int, aliasName: string, later: string)
    ensures var k := (from, to);
            var w1 := AddFriendApply(w, from, to, aliasName, true);
            && ApplyAlias(w1, from, to, true) == aliasName
            && (k !in w.applies ==> !Approved(w1, k))
            && (k in w.applies ==> (Approved(w1, k) <==> Approved(w, k)))
            && ApplyAlias(AuthFriendApply(w1, from, to, true), from, to, true) == aliasName
            && Approved(AddFriendApply(AuthFriendApply(w1, from, to, true), from, to, later, true), k)
    ensures (from, to) !in w.applies ==> AuthFriendApply(w, from, to, true) == w
  {
  }
}
