/** Percent-encoding as in sections 2.1 and 2.3 of RFC 3986: the two loops of the program, the
    functions they compute, and the round trips. */
module UrlCodec {
  type Octet = bv8

  const PERCENT: Octet := 0x25
  const PLUS: Octet := 0x2B
  const SPACE: Octet := 0x20

  function ToHex(x: Octet): (r: Octet) {
    if x > 9 then x + 55 else x + 48
  }

  function FromHex(x: Octet): (r: Octet) {
    if 0x41 <= x <= 0x5A then x - 0x41 + 10
    else if 0x61 <= x <= 0x7A then x - 0x61 + 10
    else if 0x30 <= x <= 0x39 then x - 0x30
    else 0
  }

  /** Section 2.3: letters, digits, hyphen, period, underscore, tilde. */
  predicate Unreserved(c: Octet) {
    0x41 <= c <= 0x5A || 0x61 <= c <= 0x7A || 0x30 <= c <= 0x39
    || c == 0x2D || c == 0x5F || c == 0x2E || c == 0x7E
  }

  /** The same by characters. */
  lemma UnreservedIs(c: Octet)
    ensures Unreserved(c) <==>
              || 'A' as bv8 <= c <= 'Z' as bv8 || 'a' as bv8 <= c <= 'z' as bv8 || '0' as bv8 <= c <= '9' as bv8
              || c == '-' as bv8 || c == '.' as bv8 || c == '_' as bv8 || c == '~' as bv8
  {
  }

  predicate UpperHex(c: Octet) {
    0x30 <= c <= 0x39 || 0x41 <= c <= 0x46
  }

  /** What one octet is written as. */
  function Escape(c: Octet): (r: seq<Octet>) {
    if Unreserved(c) then [c]
    else if c == SPACE then [PERCENT, 0x32, 0x30]
    else [PERCENT, ToHex(c >> 4), ToHex(c & 0x0F)]
  }

  function Encode(s: seq<Octet>): (r: seq<Octet>) {
    if s == [] then [] else Escape(s[0]) + Encode(s[1..])
  }

  /** The value of two digits, truncated to eight bits as the program's cast does. */
  function Pair(high: Octet, low: Octet): (r: Octet) {
    (FromHex(high) << 4) | FromHex(low)
  }

  function Decode(t: seq<Octet>): (r: seq<Octet>) {
    if t == [] then []
    else if t[0] == PLUS then [SPACE] + Decode(t[1..])
    else if t[0] == PERCENT && |t| > 2 then [Pair(t[1], t[2])] + Decode(t[3..])
    else [t[0]] + Decode(t[1..])
  }

  lemma {:induction false} EncodeSnoc(s: seq<Octet>, c: Octet)
    ensures Encode(s + [c]) == Encode(s) + Escape(c)
  {
    if s == [] {
      assert Encode([c]) == Escape(c) + Encode([]);
    } else {
      assert (s + [c])[1..] == s[1..] + [c];
      EncodeSnoc(s[1..], c);
    }
  }

  method UrlEncode(str: seq<Octet>) returns (strTemp: seq<Octet>)
    ensures strTemp == Encode(str)
  {
    strTemp := [];
    for i := 0 to |str|
      invariant strTemp == Encode(str[..i])
    {
      var c := str[i];
      if Unreserved(c) {
        strTemp := strTemp + [c];
      } else if c == SPACE {
        strTemp := strTemp + [PERCENT, 0x32, 0x30];
      } else {
        strTemp := strTemp + [PERCENT];
        strTemp := strTemp + [ToHex(c >> 4)];
        strTemp := strTemp + [ToHex(c & 0x0F)];
      }
      EncodeSnoc(str[..i], c);
      assert str[..i + 1] == str[..i] + [c];
    }
    assert str[..|str|] == str;
  }

  method UrlDecode(str: seq<Octet>) returns (strTemp: seq<Octet>)
    ensures strTemp == Decode(str)
  {
    strTemp := [];
    var i := 0;
    while i < |str|
      invariant 0 <= i <= |str|
      invariant strTemp + Decode(str[i..]) == Decode(str)
    {
      DecodeAt(str, i);
      ghost var next := DecodeOne(str, i);
      ghost var rest := Decode(str[next.1..]);
      Regroup(strTemp, [next.0], rest);
      if str[i] == PLUS {
        strTemp := strTemp + [SPACE];
      } else if str[i] == PERCENT && i + 2 < |str| {
        i := i + 1;
        var high := FromHex(str[i]);
        i := i + 1;
        var low := FromHex(str[i]);
        strTemp := strTemp + [(high << 4) | low];
      } else {
        strTemp := strTemp + [str[i]];
      }
      i := i + 1;
    }
    assert str[i..] == [];
  }

  lemma Regroup<T>(a: seq<T>, b: seq<T>, c: seq<T>)
    ensures (a + b) + c == a + (b + c)
  {
  }

  /** The octet decoded at position `i`, and the position after it. */
  ghost function DecodeOne(t: seq<Octet>, i: nat): (r: (Octet, nat))
    requires i < |t|
    ensures i < r.1 <= |t|
  {
    if t[i] == PLUS then (SPACE, i + 1)
    else if t[i] == PERCENT && i + 2 < |t| then (Pair(t[i + 1], t[i + 2]), i + 3)
    else (t[i], i + 1)
  }

  lemma DecodeAt(t: seq<Octet>, i: nat)
    requires i < |t|
    ensures var (c, j) := DecodeOne(t, i); Decode(t[i..]) == [c] + Decode(t[j..])
  {
    assert t[i..][1..] == t[i + 1..];
    if i + 2 < |t| {
      assert t[i..][3..] == t[i + 3..];
    }
  }

  // ---- one octet ----

  lemma HexRoundTrip(x: Octet)
    requires x <= 0x0F
    ensures FromHex(ToHex(x)) == x && UpperHex(ToHex(x))
  {
  }

  lemma HexDigit(h: Octet)
    requires UpperHex(h)
    ensures ToHex(FromHex(h)) == h && FromHex(h) <= 0x0F
  {
  }

  lemma Nibbles(c: Octet)
    ensures c >> 4 <= 0x0F && c & 0x0F <= 0x0F && ((c >> 4) << 4) | (c & 0x0F) == c
  {
  }

  lemma JoinNibbles(h: Octet, l: Octet)
    requires h <= 0x0F && l <= 0x0F
    ensures ((h << 4) | l) >> 4 == h && ((h << 4) | l) & 0x0F == l
  {
  }

  lemma EscapeShape(c: Octet)
    ensures !Unreserved(c) ==>
              Escape(c) == [PERCENT, ToHex(c >> 4), ToHex(c & 0x0F)]
              && Pair(ToHex(c >> 4), ToHex(c & 0x0F)) == c
              && UpperHex(ToHex(c >> 4)) && UpperHex(ToHex(c & 0x0F))
  {
    Nibbles(c);
    HexRoundTrip(c >> 4);
    HexRoundTrip(c & 0x0F);
  }

  lemma TripletShape(h: Octet, l: Octet)
    requires UpperHex(h) && UpperHex(l) && !Unreserved(Pair(h, l))
    ensures Escape(Pair(h, l)) == [PERCENT, h, l]
  {
    HexDigit(h);
    HexDigit(l);
    JoinNibbles(FromHex(h), FromHex(l));
    EscapeShape(Pair(h, l));
  }

  /** What the program makes of a letter that is no hexadecimal digit, and of anything else. */
  lemma OddDigits(c: Octet)
    ensures 0x41 <= c <= 0x5A ==> FromHex(c) == c - 0x41 + 10
    ensures 0x61 <= c <= 0x7A ==> FromHex(c) == c - 0x61 + 10
    ensures c < 0x30 || 0x39 < c < 0x41 || 0x5A < c < 0x61 || 0x7A < c ==> FromHex(c) == 0
    ensures Decode([PERCENT, 0x47, 0x31]) == [1]   // "%G1": sixteen, shifted out of the octet
  {
    assert Decode([PERCENT, 0x47, 0x31]) == [Pair(0x47, 0x31)] + Decode([PERCENT, 0x47, 0x31][3..]);
    assert FromHex(0x47) == 16 && FromHex(0x31) == 1 && (16 as bv8 << 4) == 0;
  }

  // ---- round trips ----

  lemma DecodeEscape(c: Octet, t: seq<Octet>)
    ensures Decode(Escape(c) + t) == [c] + Decode(t)
  {
    EscapeShape(c);
    var u := Escape(c) + t;
    if Unreserved(c) {
      assert u[1..] == t;
    } else {
      assert u[3..] == t;
    }
  }

  /** Decoding undoes encoding, for every octet string. */
  lemma {:induction false} DecodeEncode(s: seq<Octet>)
    ensures Decode(Encode(s)) == s
  {
    if s != [] {
      DecodeEncode(s[1..]);
      DecodeEscape(s[0], Encode(s[1..]));
    }
  }

  lemma EncodeInjective(a: seq<Octet>, b: seq<Octet>)
    requires Encode(a) == Encode(b)
    ensures a == b
  {
    DecodeEncode(a);
    DecodeEncode(b);
  }

  /** Canonical text: unreserved octets, and triplets with upper-case digits (section 6.2.2.1) for
      octets that need one. */
  predicate Canonical(t: seq<Octet>) {
    t == []
    || (Unreserved(t[0]) && Canonical(t[1..]))
    || (t[0] == PERCENT && |t| > 2 && UpperHex(t[1]) && UpperHex(t[2])
        && !Unreserved(Pair(t[1], t[2])) && Canonical(t[3..]))
  }

  lemma {:induction false} EncodeCanonical(s: seq<Octet>)
    ensures Canonical(Encode(s))
    ensures |s| <= |Encode(s)| <= 3 * |s|
  {
    if s != [] {
      EncodeCanonical(s[1..]);
      EscapeShape(s[0]);
      var t := Encode(s);
      if Unreserved(s[0]) {
        assert t[1..] == Encode(s[1..]);
      } else {
        assert t[3..] == Encode(s[1..]);
      }
    }
  }

  lemma {:induction false} EncodeDecode(t: seq<Octet>)
    requires Canonical(t)
    ensures Encode(Decode(t)) == t
  {
    if t == [] {
    } else if Unreserved(t[0]) {
      EncodeDecode(t[1..]);
      assert Decode(t)[1..] == Decode(t[1..]);
      assert t == [t[0]] + t[1..];
    } else {
      EncodeDecode(t[3..]);
      TripletShape(t[1], t[2]);
      assert Decode(t)[1..] == Decode(t[3..]);
      assert t == [PERCENT, t[1], t[2]] + t[3..];
    }
  }

  /** Encoding undoes decoding exactly on the canonical texts, and those are the encodings. */
  lemma CanonicalIff(t: seq<Octet>)
    ensures Canonical(t) <==> Encode(Decode(t)) == t
    ensures Canonical(t) <==> exists s :: Encode(s) == t
  {
    if Canonical(t) {
      EncodeDecode(t);
    }
    EncodeCanonical(Decode(t));
    if s :| Encode(s) == t {
      EncodeCanonical(s);
    }
  }

  predicate LowerHex(c: Octet) {
    0x61 <= c <= 0x66
  }

  /** The upper-case form of a hexadecimal digit. */
  function Upper(c: Octet): (r: Octet) {
    if LowerHex(c) then c - 0x20 else c
  }

  /** Reading is more lenient than writing.  A plus reads as a space, and a percent sign too near the
      end for two digits stands for itself: neither is canonical, and each decodes like the escape of
      the same octet. */
  lemma DecodeIsLenient(t: seq<Octet>)
    ensures Decode([PLUS] + t) == [SPACE] + Decode(t) == Decode(Escape(SPACE) + t)
    ensures !Canonical([PLUS] + t)
    ensures |t| < 2 ==> Decode([PERCENT] + t) == [PERCENT] + Decode(t) == Decode(Escape(PERCENT) + t)
    ensures |t| < 2 ==> !Canonical([PERCENT] + t)
  {
    DecodeEscape(SPACE, t);
    DecodeEscape(PERCENT, t);
    assert ([PLUS] + t)[1..] == t && ([PERCENT] + t)[1..] == t;
  }

  /** And a digit may be written in either case: the value is that of the upper-case triplet, and a
      triplet with a lower-case digit is not canonical. */
  lemma LowerCaseDigits(h: Octet, l: Octet, t: seq<Octet>)
    ensures Decode([PERCENT, h, l] + t) == Decode([PERCENT, Upper(h), Upper(l)] + t)
    ensures LowerHex(h) || LowerHex(l) ==> !Canonical([PERCENT, h, l] + t)
  {
    SameDigit(h);
    SameDigit(l);
    assert ([PERCENT, h, l] + t)[3..] == t && ([PERCENT, Upper(h), Upper(l)] + t)[3..] == t;
  }

  lemma SameDigit(c: Octet)
    ensures FromHex(Upper(c)) == FromHex(c)
    ensures LowerHex(c) ==> UpperHex(Upper(c)) && Upper(c) != c
  {
  }
}
