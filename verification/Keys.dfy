/** The Redis keys: a prefix for each family, followed by a uid in decimal or a name. */
module Keys {
  function Digit(d: nat): (c: char)
    requires d < 10
    ensures '0' <= c <= '9' && DigitValue(c) == d
  {
    (d + 48) as char
  }

  function DigitValue(c: char): (r: nat) {
    if '0' <= c <= '9' then c as int - 48 else 0
  }

  function Digits(n: nat): (s: string)
    ensures |s| >= 1 && s[0] != '-'
  {
    if n < 10 then [Digit(n)] else Digits(n / 10) + [Digit(n % 10)]
  }

  /** std::to_string of an int. */
  function ToString(n: int): (r: string) {
    if n < 0 then "-" + Digits(-n) else Digits(n)
  }

  function Number(s: string): (r: nat) {
    if s == [] then 0 else 10 * Number(s[..|s| - 1]) + DigitValue(s[|s| - 1])
  }

  /** std::stoi of a printed int. */
  function Stoi(s: string): (r: int) {
    if s != [] && s[0] == '-' then 0 - Number(s[1..]) else Number(s)
  }

  lemma NumberSnoc(s: string, c: char)
    ensures Number(s + [c]) == 10 * Number(s) + DigitValue(c)
  {
    assert (s + [c])[..|s|] == s;
  }

  lemma {:induction false} NumberOfDigits(n: nat)
    ensures Number(Digits(n)) == n
  {
    if n < 10 {
      NumberSnoc([], Digit(n));
      assert [] + [Digit(n)] == Digits(n);
    } else {
      NumberOfDigits(n / 10);
      NumberSnoc(Digits(n / 10), Digit(n % 10));
    }
  }

  /** Printing a uid loses nothing. */
  lemma StoiToString(n: int)
    ensures Stoi(ToString(n)) == n
  {
    if n < 0 {
      NumberOfDigits(-n);
      assert ("-" + Digits(-n))[1..] == Digits(-n);
    } else {
      NumberOfDigits(n);
    }
  }

  const CODE := "code_"
  const USERIPPREFIX := "uip_"
  const USERTOKENPREFIX := "utoken_"
  const IPCOUNTPREFIX := "ipcount_"
  const USER_BASE_INFO := "ubaseinfo_"
  const USER_NAME_INFO := "unameinfo_"
  const LOGIN_COUNT := "logincount"

  /** Every family of keys the servers use. */
  datatype Family = Code | UserIp | UserToken | IpCount | UserBaseInfo | UserNameInfo | LoginCount

  function Prefix(f: Family): (r: string)
    ensures |r| > 1
  {
    match f
    case Code => CODE
    case UserIp => USERIPPREFIX
    case UserToken => USERTOKENPREFIX
    case IpCount => IPCOUNTPREFIX
    case UserBaseInfo => USER_BASE_INFO
    case UserNameInfo => USER_NAME_INFO
    case LoginCount => LOGIN_COUNT
  }

  /** No key belongs to two families, or to one family in two ways, whatever follows the prefix. */
  lemma FamiliesApart(f: Family, g: Family, a: string, b: string)
    requires Prefix(f) + a == Prefix(g) + b
    ensures f == g && a == b
  {
    assert (Prefix(f) + a)[0] == Prefix(f)[0] && (Prefix(g) + b)[0] == Prefix(g)[0];
    assert (Prefix(f) + a)[1] == Prefix(f)[1] && (Prefix(g) + b)[1] == Prefix(g)[1];
    assert (Prefix(f) + a)[|Prefix(f)|..] == a && (Prefix(g) + b)[|Prefix(g)|..] == b;
  }

  function BaseKeyOf(uidText: string): (r: string) {
    USER_BASE_INFO + uidText
  }

  function BaseKey(uid: int): (r: string) {
    BaseKeyOf(ToString(uid))
  }

  function NameKey(name: string): (r: string) {
    USER_NAME_INFO + name
  }

  function IpKey(uid: int): (r: string) {
    USERIPPREFIX + ToString(uid)
  }

  /** Most significant digit first. */
  lemma TenIs()
    ensures ToString(10) == "10" && Stoi("10") == 10
  {
    assert Digits(1) == [Digit(1)] && Digits(10) == Digits(1) + [Digit(0)];
    assert [Digit(1)] == "1" && [Digit(0)] == "0" && "1" + "0" == "10";
    StoiToString(10);
  }

  lemma KeysSpelled(uid: int, name: string)
    ensures BaseKey(uid) == "ubaseinfo_" + ToString(uid)
    ensures IpKey(uid) == "uip_" + ToString(uid)
    ensures NameKey(name) == "unameinfo_" + name
  {
  }

  /** The three families of the model: disjoint, and different users have different keys. */
  lemma KeysApart()
    ensures forall u, v :: BaseKey(u) == BaseKey(v) ==> u == v
    ensures forall u, v :: IpKey(u) == IpKey(v) ==> u == v
    ensures forall a, b :: NameKey(a) == NameKey(b) ==> a == b
    ensures forall u, a :: BaseKey(u) != NameKey(a)
    ensures forall u, v :: BaseKey(u) != IpKey(v)
    ensures forall u, a :: IpKey(u) != NameKey(a)
  {
    forall u, v | BaseKey(u) == BaseKey(v) || IpKey(u) == IpKey(v)
      ensures u == v
    {
      var f := if BaseKey(u) == BaseKey(v) then UserBaseInfo else UserIp;
      FamiliesApart(f, f, ToString(u), ToString(v));
      StoiToString(u);
      StoiToString(v);
    }
    forall a, b | NameKey(a) == NameKey(b)
      ensures a == b
    {
      FamiliesApart(UserNameInfo, UserNameInfo, a, b);
    }
    assert forall u :: BaseKey(u)[1] == 'b';
    assert forall a :: NameKey(a)[1] == 'n';
    assert forall u :: IpKey(u)[1] == 'i';
  }
}
