/** The reading half of a session, on values: a header is read, then its body, each
    from as many partial reads as the socket delivers. */
module ReadSide {
  import opened Wire

  /** What the session is reading.  `Refusing` is the return after a refused header,
      `Closed` the one after a read error. */
  datatype Phase = Head | InBody(id: Short, len: nat) | Refusing(why: Refusal) | Closed

  /** `got` holds the bytes of the current piece; `posted` the frames handed on so far. */
  datatype Reader = Reader(phase: Phase, got: seq<Byte>, posted: seq<Frame>)

  const START := Reader(Head, [], [])

  predicate Reading(r: Reader) {
    r.phase.Head? || r.phase.InBody?
  }

  /** The length of the piece being read. */
  function Want(r: Reader): (r': nat) {
    match r.phase
    case Head => HEAD_TOTAL_LEN
    case InBody(_, len) => len
    case _ => 0
  }

  /** A piece never overflows the receive buffer, and is unfinished unless it is an empty body. */
  predicate ReaderOk(r: Reader) {
    match r.phase
    case Head => |r.got| < HEAD_TOTAL_LEN
    case InBody(id, len) =>
      id <= MAX_LENGTH && len <= MAX_LENGTH && (|r.got| < len || (len == 0 && r.got == []))
    case _ => r.got == []
  }

  /** The space left in the buffer handed to the socket. */
  function Room(r: Reader): (r': nat)
    requires ReaderOk(r)
  {
    Want(r) - |r.got|
  }

  /** One completed partial read.  The socket is handed the `Room` of the piece and no more, so the
      piece never exceeds what is wanted nor the buffer; and only a piece of exactly the wanted
      length is a header or a body. */
  function Receive(r: Reader, chunk: seq<Byte>): (r': Reader)
    requires ReaderOk(r) && Reading(r) && |chunk| <= Room(r)
    ensures ReaderOk(r') && !r'.phase.Closed?
    ensures |r.got| + |chunk| <= Want(r) <= 2048
    ensures r.phase.Head? && r'.phase != Head ==> |r.got| + |chunk| == HEAD_TOTAL_LEN && r'.posted == r.posted
    ensures r'.posted != r.posted ==>
              && r.phase.InBody? && |r.got| + |chunk| == r.phase.len
              && r' == Reader(Head, [], r.posted + [Frame(r.phase.id, r.got + chunk)])
  {
    var got := r.got + chunk;
    if |got| < Want(r) then r.(got := got)
    else if r.phase.Head? then HeadDone(r.posted, got)
    else Reader(Head, [], r.posted + [Frame(r.phase.id, got)])
  }

  function HeadDone(posted: seq<Frame>, head: seq<Byte>): (r: Reader)
    requires |head| == HEAD_TOTAL_LEN
  {
    var (ok, why) := CheckHead(HeadId(head), HeadLen(head));
    if ok then Reader(InBody(HeadId(head), HeadLen(head)), [], posted)
    else Reader(Refusing(why), [], posted)
  }

  /** What a header of two 16-bit numbers leads to, in the order of the checks.  Both are signed: an id
      from 32768 is negative and accepted, a length from 32768 is negative and refused by no check. */
  lemma HeadDoneIs(posted: seq<Frame>, head: seq<Byte>)
    requires |head| == 4
    ensures var r, id, len := HeadDone(posted, head), (head[0] as int) * 256 + head[1], (head[2] as int) * 256 + head[3];
            && r.posted == posted && r.got == []
            && r.phase == if 2048 < id < 32768 then Refusing(BadId)
                          else if 2048 < len < 32768 then Refusing(BadLength)
                          else if len >= 32768 then Refusing(NegativeLength)
                          else InBody(if id < 32768 then id else id - 65536, len)
  {
  }

  /** A read that reports an error. */
  function ReadError(r: Reader): (r': Reader)
    requires Reading(r)
  {
    Reader(Closed, [], r.posted)
  }

  // ---- a session fed with chunks ----

  ghost predicate CanFeed(r: Reader, chunks: seq<seq<Byte>>)
    decreases |chunks|
  {
    ReaderOk(r) &&
    (chunks == [] || (Reading(r) && |chunks[0]| <= Room(r) && CanFeed(Receive(r, chunks[0]), chunks[1..])))
  }

  ghost function Feed(r: Reader, chunks: seq<seq<Byte>>): (r': Reader)
    requires CanFeed(r, chunks)
    ensures ReaderOk(r')
    decreases |chunks|
  {
    if chunks == [] then r else Feed(Receive(r, chunks[0]), chunks[1..])
  }

  function Flatten(chunks: seq<seq<Byte>>): (r: seq<Byte>) {
    if chunks == [] then [] else chunks[0] + Flatten(chunks[1..])
  }

  // ---- the reader against the parser ----

  /** The bytes of the frame under way. */
  function Pending(r: Reader): (r': seq<Byte>) {
    match r.phase
    case Head => r.got
    case InBody(id, len) =>
      (if len < 0x8000 then HostToNetwork(id) + HostToNetwork(len) else []) + r.got
    case _ => []
  }

  /** The session has read exactly `s`: it posted the frames the parser finds there, and
      stands where the parser stands. */
  ghost predicate Stands(r: Reader, s: seq<Byte>) {
    ReaderOk(r) &&
    match r.phase
    case Refusing(why) => Parse(s) == Parsed(r.posted, Refused(why))
    case Closed => r.posted <= Parse(s).frames
    case _ => Readable(r.posted) == r.posted && s == EncodeAll(r.posted) + Pending(r)
  }

  lemma StandsParse(r: Reader, s: seq<Byte>)
    requires Stands(r, s) && Reading(r)
    ensures Parse(s) == Prepend(r.posted, Parse(Pending(r)))
  {
    ParseEncodeAll(r.posted, Pending(r));
  }

  lemma PendingHead(r: Reader)
    requires ReaderOk(r) && r.phase.InBody?
    ensures var p := Pending(r);
            |p| == HEAD_TOTAL_LEN + |r.got| && HeadId(p) == r.phase.id && HeadLen(p) == r.phase.len
            && p[HEAD_TOTAL_LEN..] == r.got
  {
    ShortRoundTrip(r.phase.id, 0, 0);
    ShortRoundTrip(r.phase.len, 0, 0);
  }

  /** Only an empty body whose read has not completed yet separates the two. */
  predicate AwaitsEmptyBody(r: Reader) {
    r.phase.InBody? && r.phase.len == 0
  }

  lemma PendingParse(r: Reader)
    requires ReaderOk(r) && Reading(r)
    ensures Parse(Pending(r)) ==
      if AwaitsEmptyBody(r) then Parsed([Frame(r.phase.id, [])], Partial([]))
      else Parsed([], Partial(Pending(r)))
  {
    if r.phase.InBody? {
      PendingHead(r);
      var p := Pending(r);
      if AwaitsEmptyBody(r) {
        assert p[HEAD_TOTAL_LEN..HEAD_TOTAL_LEN] == [];
        assert CutFrame(p) == Whole(Frame(r.phase.id, []), HEAD_TOTAL_LEN);
        assert p[HEAD_TOTAL_LEN..] == [];
        assert Parse([]) == Parsed([], Partial([]));
      }
    }
  }

  lemma HeadStands(r: Reader, s: seq<Byte>, chunk: seq<Byte>)
    requires Stands(r, s) && r.phase.Head? && |chunk| == Room(r)
    ensures Stands(Receive(r, chunk), s + chunk)
  {
    var head := r.got + chunk;
    var r' := Receive(r, chunk);
    assert s + chunk == EncodeAll(r.posted) + head;
    ShortRoundTrip(0, head[0], head[1]);
    ShortRoundTrip(0, head[2], head[3]);
    if Reading(r') {
      assert Pending(r') == head;
    } else {
      ParseEncodeAll(r.posted, head);
      assert CutFrame(head).Bad?;
      assert r.posted + [] == r.posted;
    }
  }

  lemma BodyStands(r: Reader, s: seq<Byte>, chunk: seq<Byte>)
    requires Stands(r, s) && r.phase.InBody? && |chunk| == Room(r)
    ensures Stands(Receive(r, chunk), s + chunk)
  {
    var f := Frame(r.phase.id, r.got + chunk);
    Regroup(HostToNetwork(r.phase.id) + HostToNetwork(r.phase.len), r.got, chunk);
    assert Pending(r) + chunk == Encode(f);
    Regroup(EncodeAll(r.posted), Pending(r), chunk);
    EncodeAllSnoc(r.posted, f);
    NothingAdded(EncodeAll(r.posted + [f]));
    ReadableIff(r.posted);
    ReadableIff(r.posted + [f]);
  }

  lemma PieceStands(r: Reader, s: seq<Byte>, chunk: seq<Byte>)
    requires Stands(r, s) && Reading(r) && |chunk| < Room(r)
    ensures Stands(Receive(r, chunk), s + chunk)
  {
    if r.phase.InBody? {
      Regroup(HostToNetwork(r.phase.id) + HostToNetwork(r.phase.len), r.got, chunk);
    }
    assert Pending(Receive(r, chunk)) == Pending(r) + chunk;
    Regroup(EncodeAll(r.posted), Pending(r), chunk);
  }

  /** One partial read keeps the session in step with the parser. */
  lemma ReceiveStands(r: Reader, s: seq<Byte>, chunk: seq<Byte>)
    requires Stands(r, s) && Reading(r) && |chunk| <= Room(r)
    ensures Stands(Receive(r, chunk), s + chunk)
  {
    if |chunk| < Room(r) {
      PieceStands(r, s, chunk);
    } else if r.phase.Head? {
      HeadStands(r, s, chunk);
    } else {
      BodyStands(r, s, chunk);
    }
  }

  lemma ReadErrorStands(r: Reader, s: seq<Byte>)
    requires Stands(r, s) && Reading(r)
    ensures Stands(ReadError(r), s)
  {
    StandsParse(r, s);
  }

  lemma StartStands()
    ensures Stands(START, [])
  {
    assert EncodeAll([]) + [] == [];
  }

  lemma {:induction false} FeedStands(r: Reader, s: seq<Byte>, chunks: seq<seq<Byte>>)
    requires Stands(r, s) && CanFeed(r, chunks)
    ensures Stands(Feed(r, chunks), s + Flatten(chunks))
    decreases |chunks|
  {
    if chunks == [] {
      NothingAdded(s);
    } else {
      ReceiveStands(r, s, chunks[0]);
      FeedStands(Receive(r, chunks[0]), s + chunks[0], chunks[1..]);
      Regroup(s, chunks[0], Flatten(chunks[1..]));
    }
  }

  /** The state of a reading session, from what the parser says of the bytes it has read. */
  function Position(s: seq<Byte>): (r: Reader) {
    var p := Parse(s);
    match p.tail
    case Refused(why) => Reader(Refusing(why), [], p.frames)
    case Partial(rest) =>
      ParseAccountsForEveryByte(s);
      if |rest| < HEAD_TOTAL_LEN then Reader(Head, rest, p.frames)
      else Reader(InBody(HeadId(rest), HeadLen(rest)), rest[HEAD_TOTAL_LEN..], p.frames)
  }

  /** Chunking independence.  However the stream was cut into reads, the state of the session
      is the function `Position` of the bytes read; only while the read of an empty body is
      outstanding is that frame still to be posted. */
  lemma ChunkingIndependent(chunks: seq<seq<Byte>>)
    requires CanFeed(START, chunks)
    ensures var r, s := Feed(START, chunks), Flatten(chunks);
            if AwaitsEmptyBody(r) then Position(s) == Receive(r, [])
            else Position(s) == r
  {
    var r, s := Feed(START, chunks), Flatten(chunks);
    StartStands();
    FeedStands(START, [], chunks);
    assert [] + s == s;
    FeedNotClosed(START, chunks);
    if Reading(r) {
      StandsParse(r, s);
      PendingParse(r);
      assert r.posted + [] == r.posted;
      if r.phase.InBody? {
        PendingHead(r);
      }
    }
  }

  lemma {:induction false} FeedNotClosed(r: Reader, chunks: seq<seq<Byte>>)
    requires CanFeed(r, chunks) && !r.phase.Closed?
    ensures !Feed(r, chunks).phase.Closed?
    decreases |chunks|
  {
    if chunks != [] {
      FeedNotClosed(Receive(r, chunks[0]), chunks[1..]);
    }
  }

  /** Whatever the state, the frames posted are those of the parser on the bytes read,
      but for an empty body still being read. */
  lemma PostedIsParsed(r: Reader, s: seq<Byte>)
    requires Stands(r, s)
    ensures r.posted <= Parse(s).frames
    ensures !r.phase.Closed? && !AwaitsEmptyBody(r) ==> r.posted == Parse(s).frames
  {
    if Reading(r) {
      StandsParse(r, s);
      PendingParse(r);
      assert r.posted + [] == r.posted;
    }
  }
}
