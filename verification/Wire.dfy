/** The frame format: a two-byte message id, a two-byte body length, both in network
    byte order, then the body.  `Parse` is the reference reader of a byte stream; the
    session's incremental reader is proved against it in module ReadSide. */
module Wire {
  type Byte = b: int | 0 <= b < 0x100

  /** The C++ type `short`. */
  type Short = n: int | -0x8000 <= n < 0x8000

  const MAX_LENGTH := 2048
  const HEAD_TOTAL_LEN := 4
  const SHORT_MAX := 0x7fff

  type Body = b: seq<Byte> | |b| <= MAX_LENGTH

  datatype Frame = Frame(id: Short, body: Body)

  function HostToNetwork(n: Short): (r: seq<Byte>)
    ensures |r| == 2
  {
    var u := if n < 0 then n + 0x10000 else n;
    [u / 0x100, u % 0x100]
  }

  function NetworkToHost(hi: Byte, lo: Byte): (r: Short) {
    var u := hi * 0x100 + lo;
    if u < 0x8000 then u else u - 0x10000
  }

  lemma ShortRoundTrip(n: Short, hi: Byte, lo: Byte)
    ensures NetworkToHost(HostToNetwork(n)[0], HostToNetwork(n)[1]) == n
    ensures HostToNetwork(NetworkToHost(hi, lo)) == [hi, lo]
  {
    var u := hi * 0x100 + lo;
    assert u / 0x100 == hi && u % 0x100 == lo;
  }

  /** The bytes of one SendNode. */
  function Encode(f: Frame): (r: seq<Byte>)
    ensures |r| == HEAD_TOTAL_LEN + |f.body|
  {
    HostToNetwork(f.id) + HostToNetwork(|f.body|) + f.body
  }

  /** The layout: two bytes of id and two of length, the more significant first, then the body.  A
      negative id is written as its 16-bit complement. */
  lemma EncodeLayout(f: Frame)
    ensures var e := Encode(f);
            && |e| == 4 + |f.body| && e[4..] == f.body
            && (e[0] as int) * 256 + e[1] == (if f.id >= 0 then f.id else f.id + 65536)
            && (e[2] as int) * 256 + e[3] == |f.body|
  {
    var u := if f.id < 0 then f.id + 65536 else f.id;
    assert u == (u / 256) * 256 + u % 256 && |f.body| == (|f.body| / 256) * 256 + |f.body| % 256;
    assert Encode(f)[..4] == HostToNetwork(f.id) + HostToNetwork(|f.body|);
    assert Encode(f)[0] == Encode(f)[..4][0] && Encode(f)[2] == Encode(f)[..4][2];
  }

  function EncodeAll(fs: seq<Frame>): (r: seq<Byte>) {
    if fs == [] then [] else Encode(fs[0]) + EncodeAll(fs[1..])
  }

  function HeadId(s: seq<Byte>): (r: Short)
    requires |s| >= HEAD_TOTAL_LEN
  {
    NetworkToHost(s[0], s[1])
  }

  function HeadLen(s: seq<Byte>): (r: Short)
    requires |s| >= HEAD_TOTAL_LEN
  {
    NetworkToHost(s[2], s[3])
  }

  /** Why a header ends the reading.  A negative length is refused by no check in the code:
      the allocation of the node fails instead, and the model stops there. */
  datatype Refusal = BadId | BadLength | NegativeLength

  /** The checks the reader makes on a header, in its order. */
  function CheckHead(id: Short, len: Short): (r: (bool, Refusal))
  {
    if id > MAX_LENGTH then (false, BadId)
    else if len > MAX_LENGTH then (false, BadLength)
    else if len < 0 then (false, NegativeLength)
    else (true, BadId)
  }

  /** What the first bytes of a stream hold: less than a frame, a refused header, or a frame
      that ends at `end`. */
  datatype Cut = Incomplete | Bad(why: Refusal) | Whole(frame: Frame, end: nat)

  function CutFrame(s: seq<Byte>): (c: Cut)
    ensures c.Whole? ==> HEAD_TOTAL_LEN <= c.end <= |s|
  {
    if |s| < HEAD_TOTAL_LEN then Incomplete
    else
      var (ok, why) := CheckHead(HeadId(s), HeadLen(s));
      if !ok then Bad(why)
      else
        var end := HEAD_TOTAL_LEN + HeadLen(s);
        if |s| < end then Incomplete
        else Whole(Frame(HeadId(s), s[HEAD_TOTAL_LEN..end]), end)
  }

  datatype Tail = Partial(rest: seq<Byte>) | Refused(why: Refusal)
  datatype Parsed = Parsed(frames: seq<Frame>, tail: Tail)

  /** The frames of a byte stream, and what is left after the last complete one. */
  function Parse(s: seq<Byte>): (r: Parsed)
    decreases |s|
  {
    match CutFrame(s)
    case Incomplete => Parsed([], Partial(s))
    case Bad(why) => Parsed([], Refused(why))
    case Whole(f, end) => Cons(f, Parse(s[end..]))
  }

  function Cons(f: Frame, p: Parsed): (r: Parsed) {
    Parsed([f] + p.frames, p.tail)
  }

  function Prepend(fs: seq<Frame>, p: Parsed): (r: Parsed) {
    Parsed(fs + p.frames, p.tail)
  }

  lemma PrependCons(f: Frame, fs: seq<Frame>, p: Parsed)
    ensures Cons(f, Prepend(fs, p)) == Prepend([f] + fs, p)
    ensures Prepend([], p) == p
  {
    assert [f] + (fs + p.frames) == ([f] + fs) + p.frames;
    assert [] + p.frames == p.frames;
  }

  // ---- algebra of encodings ----

  lemma {:induction false} EncodeAllConcat(a: seq<Frame>, b: seq<Frame>)
    ensures EncodeAll(a + b) == EncodeAll(a) + EncodeAll(b)
  {
    if a == [] {
      assert a + b == b;
    } else {
      assert (a + b)[0] == a[0] && (a + b)[1..] == a[1..] + b;
      EncodeAllConcat(a[1..], b);
      assert EncodeAll(a + b) == Encode(a[0]) + (EncodeAll(a[1..]) + EncodeAll(b));
    }
  }

  lemma EncodeAllSnoc(a: seq<Frame>, f: Frame)
    ensures EncodeAll(a + [f]) == EncodeAll(a) + Encode(f)
  {
    EncodeAllConcat(a, [f]);
    assert EncodeAll([f]) == Encode(f) + EncodeAll([]);
  }

  // ---- the parser against the encoder ----

  lemma EncodeHead(f: Frame, t: seq<Byte>)
    ensures var s := Encode(f) + t;
            HeadId(s) == f.id && HeadLen(s) == |f.body|
            && s[HEAD_TOTAL_LEN..HEAD_TOTAL_LEN + |f.body|] == f.body
            && s[HEAD_TOTAL_LEN + |f.body|..] == t
  {
    var s := Encode(f) + t;
    ShortRoundTrip(f.id, 0, 0);
    ShortRoundTrip(|f.body|, 0, 0);
    assert s[0] == HostToNetwork(f.id)[0] && s[1] == HostToNetwork(f.id)[1];
    assert s[2] == HostToNetwork(|f.body|)[0] && s[3] == HostToNetwork(|f.body|)[1];
  }

  lemma CutEncoded(f: Frame, t: seq<Byte>)
    ensures CutFrame(Encode(f) + t)
         == if f.id <= MAX_LENGTH then Whole(f, |Encode(f)|) else Bad(BadId)
  {
    EncodeHead(f, t);
  }

  /** A frame whose id passes the reader's check is read back; any other stops the reader. */
  lemma ParseEncode(f: Frame, t: seq<Byte>)
    ensures Parse(Encode(f) + t)
         == if f.id <= 2048 then Cons(f, Parse(t)) else Parsed([], Refused(BadId))
  {
    CutEncoded(f, t);
    assert (Encode(f) + t)[|Encode(f)|..] == t;
  }

  /** The frames before the first one with an id the reader refuses. */
  function Readable(fs: seq<Frame>): (r: seq<Frame>)
    ensures r <= fs
  {
    if fs == [] || fs[0].id > MAX_LENGTH then []
    else [fs[0]] + Readable(fs[1..])
  }

  lemma {:induction false} ReadableIff(fs: seq<Frame>)
    ensures Readable(fs) == fs <==> forall f :: f in fs ==> f.id <= 2048
    ensures forall f :: f in Readable(fs) ==> f.id <= 2048
    ensures Readable(fs) != fs ==> fs[|Readable(fs)|].id > 2048
  {
    if fs != [] && fs[0].id <= MAX_LENGTH {
      ReadableIff(fs[1..]);
      assert fs == [fs[0]] + fs[1..];
      assert Readable(fs)[1..] == Readable(fs[1..]);
    }
  }

  lemma ReadableStep(fs: seq<Frame>)
    requires fs != []
    ensures Readable(fs) == fs <==> fs[0].id <= MAX_LENGTH && Readable(fs[1..]) == fs[1..]
  {
    assert fs == [fs[0]] + fs[1..];
    if fs[0].id <= MAX_LENGTH {
      assert Readable(fs)[1..] == Readable(fs[1..]);
    }
  }

  /** Reading a whole encoded stream gives back its readable frames. */
  lemma {:induction false} ParseEncodeAll(fs: seq<Frame>, t: seq<Byte>)
    ensures Readable(fs) == fs ==> Parse(EncodeAll(fs) + t) == Prepend(fs, Parse(t))
    ensures Readable(fs) != fs ==> Parse(EncodeAll(fs) + t) == Parsed(Readable(fs), Refused(BadId))
  {
    if fs == [] {
      assert EncodeAll(fs) + t == t;
    } else {
      var rest := EncodeAll(fs[1..]) + t;
      Regroup(Encode(fs[0]), EncodeAll(fs[1..]), t);
      ParseEncode(fs[0], rest);
      ParseEncodeAll(fs[1..], t);
      ReadableStep(fs);
      PrependCons(fs[0], fs[1..], Parse(t));
      Rejoin(fs);
    }
  }

  lemma Regroup<T>(a: seq<T>, b: seq<T>, c: seq<T>)
    ensures (a + b) + c == a + (b + c)
  {
  }

  lemma NothingAdded<T>(s: seq<T>)
    ensures s + [] == s
  {
  }

  lemma Rejoin<T>(s: seq<T>)
    requires s != []
    ensures [s[0]] + s[1..] == s
  {
  }

  lemma CutAppend(s: seq<Byte>, t: seq<Byte>)
    requires !CutFrame(s).Incomplete?
    ensures CutFrame(s + t) == CutFrame(s)
  {
    assert (s + t)[..|s|] == s;
    if CutFrame(s).Whole? {
      assert (s + t)[HEAD_TOTAL_LEN..CutFrame(s).end] == s[HEAD_TOTAL_LEN..CutFrame(s).end];
    }
  }

  /** Parsing is incremental: what was parsed stays, and only the rest is read again. */
  lemma {:induction false} ParseAppend(s: seq<Byte>, t: seq<Byte>)
    ensures Parse(s).tail.Refused? ==> Parse(s + t) == Parse(s)
    ensures Parse(s).tail.Partial? ==>
      Parse(s + t) == Prepend(Parse(s).frames, Parse(Parse(s).tail.rest + t))
    decreases |s|
  {
    match CutFrame(s)
    case Incomplete => PrependCons(Frame(0, []), [], Parse(s + t));
    case Bad(_) => CutAppend(s, t);
    case Whole(f, end) =>
      CutAppend(s, t);
      ParseAppend(s[end..], t);
      assert (s + t)[end..] == s[end..] + t;
      var q := Parse(s[end..]);
      if q.tail.Partial? {
        PrependCons(f, q.frames, Parse(q.tail.rest + t));
      }
  }

  /** Frames of a shorter prefix of a stream are a prefix of the frames of a longer one. */
  lemma ParseMonotone(s: seq<Byte>, u: seq<Byte>)
    requires s <= u
    ensures Parse(s).frames <= Parse(u).frames
  {
    ParseAppend(s, u[|s|..]);
    assert s + u[|s|..] == u;
  }

  lemma WholeIsEncoded(s: seq<Byte>)
    requires CutFrame(s).Whole?
    ensures s == Encode(CutFrame(s).frame) + s[CutFrame(s).end..]
  {
    ShortRoundTrip(0, s[0], s[1]);
    ShortRoundTrip(0, s[2], s[3]);
  }

  /** Every byte is accounted for: a stream that is not refused is the encoding of its
      frames followed by an incomplete one. */
  lemma {:induction false} ParseAccountsForEveryByte(s: seq<Byte>)
    requires Parse(s).tail.Partial?
    ensures s == EncodeAll(Parse(s).frames) + Parse(s).tail.rest
    ensures CutFrame(Parse(s).tail.rest).Incomplete?
    decreases |s|
  {
    if CutFrame(s).Whole? {
      var f, rest := CutFrame(s).frame, s[CutFrame(s).end..];
      ParseAccountsForEveryByte(rest);
      WholeIsEncoded(s);
      assert Parse(s).frames[1..] == Parse(rest).frames;
      Regroup(Encode(f), EncodeAll(Parse(rest).frames), Parse(rest).tail.rest);
    }
  }
}
