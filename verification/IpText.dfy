/** The text of IPv4 and IPv6 addresses (api_validation.c): what is accepted, and what it denotes. */
module IpText {
  import opened Bytes
  import opened Options

  const DOT: Byte := 46
  const COLON: Byte := 58
  const ZERO: Byte := 48

  predicate Digit(c: Byte) { 48 <= c <= 57 }

  function Num(c: Byte): (v: nat)
    requires Digit(c)
    ensures v < 10
  {
    c as int - 48
  }

  predicate HexDigit(c: Byte) { Digit(c) || 97 <= c <= 102 || 65 <= c <= 70 }

  function HexValue(c: Byte): (v: nat)
    requires HexDigit(c)
    ensures v < 16
  {
    if Digit(c) then Num(c) else if c >= 97 then c as int - 97 + 10 else c as int - 65 + 10
  }

  // ---- Octets ----------------------------------------------------------------------------------

  /** The decimal text of an octet: no leading zeros. */
  function Decimal(n: Byte): seq<Byte> {
    if n < 10 then [ZERO + n]
    else if n < 100 then [ZERO + n / 10, ZERO + n % 10]
    else [ZERO + n / 100, ZERO + n / 10 % 10, ZERO + n % 10]
  }

  /** Octets with dots between them. */
  function Dotted(a: seq<Byte>): seq<Byte>
    requires a != []
    decreases |a|
  {
    if |a| == 1 then Decimal(a[0]) else Decimal(a[0]) + [DOT] + Dotted(a[1..])
  }

  /** How many of the first bytes of s are digits, four at most. */
  function DigitsAt(s: seq<Byte>): (n: nat)
    ensures n <= 4 && n <= |s| && (forall i | 0 <= i < n :: Digit(s[i])) && (n < 4 && n < |s| ==> !Digit(s[n]))
  {
    if |s| < 1 || !Digit(s[0]) then 0
    else if |s| < 2 || !Digit(s[1]) then 1
    else if |s| < 3 || !Digit(s[2]) then 2
    else if |s| < 4 || !Digit(s[3]) then 3
    else 4
  }

  function DecimalValue(s: seq<Byte>): nat
    requires forall i | 0 <= i < |s| :: Digit(s[i])
  {
    if s == [] then 0 else DecimalValue(s[..|s| - 1]) * 10 + Num(s[|s| - 1])
  }

  /** parse_octet(): the octet that s begins with, and its length. */
  function Octet(s: seq<Byte>): Option<(Byte, nat)> {
    var n := DigitsAt(s);
    if n == 0 || n == 4 || (n > 1 && s[0] == ZERO) || DecimalValue(s[..n]) > 255 then None
    else Some((DecimalValue(s[..n]) as Byte, n))
  }

  lemma DecimalValues(s: seq<Byte>)
    requires 1 <= |s| <= 3 && forall i | 0 <= i < |s| :: Digit(s[i])
    ensures |s| == 1 ==> DecimalValue(s) == Num(s[0])
    ensures |s| == 2 ==> DecimalValue(s) == Num(s[0]) * 10 + Num(s[1])
    ensures |s| == 3 ==> DecimalValue(s) == Num(s[0]) * 100 + Num(s[1]) * 10 + Num(s[2])
  {
    assert DecimalValue(s[..1]) == DecimalValue(s[..1][..0]) * 10 + Num(s[0]);
    if |s| >= 2 {
      assert s[..2][..1] == s[..1];
      assert DecimalValue(s[..2]) == DecimalValue(s[..1]) * 10 + Num(s[1]);
    }
    assert s[..|s|] == s;
    if |s| == 3 {
      assert s[..3][..2] == s[..2];
    }
  }

  /** An octet is where the text of one is, and no digit after it. */
  lemma OctetIsDecimal(s: seq<Byte>, v: Byte, n: nat)
    ensures Octet(s) == Some((v, n)) <==>
              n == |Decimal(v)| && n <= |s| && s[..n] == Decimal(v) && (n < |s| ==> !Digit(s[n]))
  {
    var k := DigitsAt(s);
    if Octet(s).Some? {
      assert s[..k][0] == s[0];
      DecimalOf(s[..k]);
    }
    if n == |Decimal(v)| && n <= |s| && s[..n] == Decimal(v) && (n < |s| ==> !Digit(s[n])) {
      DecimalIsDigits(v);
      assert forall i | 0 <= i < n :: s[i] == s[..n][i];
      DecimalValues(s[..n]);
    }
  }

  lemma DecimalIsDigits(v: Byte)
    ensures var d := Decimal(v); 1 <= |d| <= 3 && (forall i | 0 <= i < |d| :: Digit(d[i])) && (|d| > 1 ==> d[0] != ZERO)
    ensures DecimalValue(Decimal(v)) == v
  {
    DecimalValues(Decimal(v));
  }

  /** Digits without a leading zero are the text of their value. */
  lemma DecimalOf(d: seq<Byte>)
    requires 1 <= |d| <= 3 && forall i | 0 <= i < |d| :: Digit(d[i])
    requires (|d| > 1 ==> d[0] != ZERO) && DecimalValue(d) <= 255
    ensures Decimal(DecimalValue(d) as Byte) == d
  {
    hide DecimalValue;
    DecimalValues(d);
    if |d| == 1 {
      assert d == [d[0]];
    } else if |d| == 2 {
      TwoPlaces(d[0], d[1]);
      assert d == [d[0], d[1]];
    } else {
      ThreePlaces(d[0], d[1], d[2]);
      assert d == [d[0], d[1], d[2]];
    }
  }

  lemma TwoPlaces(x: Byte, y: Byte)
    requires Digit(x) && Digit(y) && x != ZERO
    ensures Num(x) * 10 + Num(y) <= 255 && Decimal((Num(x) * 10 + Num(y)) as Byte) == [x, y]
  {
    Places(0, Num(x), Num(y));
  }

  lemma ThreePlaces(x: Byte, y: Byte, z: Byte)
    requires Digit(x) && Digit(y) && Digit(z) && x != ZERO && Num(x) * 100 + Num(y) * 10 + Num(z) <= 255
    ensures Decimal((Num(x) * 100 + Num(y) * 10 + Num(z)) as Byte) == [x, y, z]
  {
    Places(Num(x), Num(y), Num(z));
  }

  lemma Places(a: nat, b: nat, c: nat)
    requires a < 10 && b < 10 && c < 10
    ensures var v := a * 100 + b * 10 + c; v / 100 == a && v / 10 % 10 == b && v % 10 == c && (a == 0 ==> v / 10 == b)
  {
    var v := a * 100 + b * 10 + c;
    assert v / 10 == a * 10 + b;
  }

  /** api_parse_ipv4(), for n octets. */
  function Octets(s: seq<Byte>, n: nat): Option<seq<Byte>>
    requires n > 0
    decreases n
  {
    var o := Octet(s);
    if o.None? then None
    else
      var r := s[o.value.1..];
      if n == 1 then if r == [] then Some([o.value.0]) else None
      else if r == [] || r[0] != DOT then None
      else
        var more := Octets(r[1..], n - 1);
        if more.None? then None else Some([o.value.0] + more.value)
  }

  /** Exactly the dotted text of n octets is parsed, as those octets. */
  lemma OctetsAreDotted(s: seq<Byte>, n: nat, a: seq<Byte>)
    requires n > 0
    ensures Octets(s, n) == Some(a) <==> |a| == n && s == Dotted(a)
  {
    hide Octets, Dotted;
    if Octets(s, n) == Some(a) {
      ParsedIsDotted(s, n, a);
    }
    if |a| == n && s == Dotted(a) {
      DottedIsParsed(s, n, a);
    }
  }

  lemma {:induction false} ParsedIsDotted(s: seq<Byte>, n: nat, a: seq<Byte>)
    requires n > 0 && Octets(s, n) == Some(a)
    ensures |a| == n && s == Dotted(a)
    decreases n
  {
    hide Octet, Decimal, DecimalValue, Digit;
    var o := Octet(s).value;
    OctetLength(s, o.0, o.1);
    var r := s[o.1..];
    assert s == Decimal(o.0) + r;
    if n > 1 {
      assert r == [DOT] + r[1..];
      assert a[1..] == Octets(r[1..], n - 1).value;
      ParsedIsDotted(r[1..], n - 1, a[1..]);
    } else {
      assert a[1..] == [];
    }
  }

  lemma {:induction false} DottedIsParsed(s: seq<Byte>, n: nat, a: seq<Byte>)
    requires n > 0 && |a| == n && s == Dotted(a)
    ensures Octets(s, n) == Some(a)
    decreases n
  {
    hide Octet, Decimal, DecimalValue, Digit;
    DottedStarts(a);
    if n > 1 {
      var d := Decimal(a[0]);
      assert s == d + ([DOT] + Dotted(a[1..]));
      assert s[|d|..] == [DOT] + Dotted(a[1..]);
      assert s[|d|..][1..] == Dotted(a[1..]);
      DottedIsParsed(Dotted(a[1..]), n - 1, a[1..]);
      assert a == [a[0]] + a[1..];
    } else {
      assert a == [a[0]];
    }
  }

  lemma OctetLength(s: seq<Byte>, v: Byte, n: nat)
    requires Octet(s) == Some((v, n))
    ensures n <= |s| && s[..n] == Decimal(v)
  {
    OctetIsDecimal(s, v, n);
  }

  /** Dotted text begins with its first octet. */
  lemma DottedStarts(a: seq<Byte>)
    requires a != []
    ensures Octet(Dotted(a)).Some? && Octet(Dotted(a)).value.0 == a[0] && Octet(Dotted(a)).value.1 == |Decimal(a[0])|
  {
    hide Decimal, Octet;
    var d := Decimal(a[0]);
    var s := Dotted(a);
    assert s[..|d|] == d;
    if |a| > 1 {
      assert s == d + ([DOT] + Dotted(a[1..]));
      assert s[|d|] == DOT;
    }
    OctetIsDecimal(s, a[0], |d|);
  }

  // ---- IPv6 -----------------------------------------------------------------------------------

  /** A group of hexadecimal digits, or an IPv4 address at the end. */
  datatype Piece = Group(digits: seq<Byte>) | Embedded(octets: seq<Byte>)

  /** The first two text forms of section 2.2 of RFC 4291, each with the third at its end perhaps. */
  datatype Address = Full(pieces: seq<Piece>) | Compressed(left: seq<Piece>, right: seq<Piece>)

  predicate IsGroup(d: seq<Byte>) { 1 <= |d| <= 4 && forall i | 0 <= i < |d| :: HexDigit(d[i]) }

  function GroupValue(d: seq<Byte>): nat
    requires forall i | 0 <= i < |d| :: HexDigit(d[i])
  {
    if d == [] then 0 else GroupValue(d[..|d| - 1]) * 16 + HexValue(d[|d| - 1])
  }

  lemma {:induction false} GroupFits(d: seq<Byte>)
    requires |d| <= 4 && forall i | 0 <= i < |d| :: HexDigit(d[i])
    ensures GroupValue(d) < 0x10000
    ensures GroupValue(d) < if |d| == 0 then 1 else if |d| == 1 then 16 else if |d| == 2 then 256
        else if |d| == 3 then 4096 else 0x10000
    decreases |d|
  {
    if d != [] {
      GroupFits(d[..|d| - 1]);
    }
  }

  function GroupBytes(d: seq<Byte>): (b: seq<Byte>)
    requires IsGroup(d)
    ensures |b| == 2
  {
    GroupFits(d);
    [GroupValue(d) / 256, GroupValue(d) % 256]
  }

  predicate PieceOk(p: Piece) {
    match p case Group(d) => IsGroup(d) case Embedded(o) => |o| == 4
  }

  function PieceText(p: Piece): seq<Byte>
    requires PieceOk(p)
  {
    match p case Group(d) => d case Embedded(o) => Dotted(o)
  }

  function PieceBytes(p: Piece): seq<Byte>
    requires PieceOk(p)
  {
    match p case Group(d) => GroupBytes(d) case Embedded(o) => o
  }

  predicate AllGroups(p: seq<Piece>) { forall i | 0 <= i < |p| :: p[i].Group? && PieceOk(p[i]) }

  /** Only the last piece may be an IPv4 address. */
  predicate Tailed(p: seq<Piece>) { p == [] || (AllGroups(p[..|p| - 1]) && PieceOk(p[|p| - 1])) }

  predicate AllOk(p: seq<Piece>) { forall i | 0 <= i < |p| :: PieceOk(p[i]) }

  function Join(p: seq<Piece>): seq<Byte>
    requires AllOk(p)
  {
    if p == [] then []
    else if |p| == 1 then PieceText(p[0])
    else PieceText(p[0]) + [COLON] + Join(p[1..])
  }

  function JoinBytes(p: seq<Piece>): seq<Byte>
    requires AllOk(p)
  {
    if p == [] then [] else PieceBytes(p[0]) + JoinBytes(p[1..])
  }

  /** "::" stands for one group of zeros at least. */
  predicate Valid(a: Address) {
    match a
    case Full(p) => Tailed(p) && AllOk(p) && |JoinBytes(p)| == 16
    case Compressed(l, r) => AllGroups(l) && AllOk(l) && Tailed(r) && AllOk(r) && |JoinBytes(l)| + |JoinBytes(r)| < 16
  }

  function TextOf(a: Address): seq<Byte>
    requires Valid(a)
  {
    match a
    case Full(p) => Join(p)
    case Compressed(l, r) => Join(l) + [COLON, COLON] + Join(r)
  }

  function Zeros(n: nat): seq<Byte> { seq(n, _ => 0) }

  function BytesOf(a: Address): (b: seq<Byte>)
    requires Valid(a)
    ensures |b| == 16
  {
    match a
    case Full(p) => JoinBytes(p)
    case Compressed(l, r) => JoinBytes(l) + Zeros(16 - |JoinBytes(l)| - |JoinBytes(r)|) + JoinBytes(r)
  }

  // ---- The parser -------------------------------------------------------------------------------

  /** A dot comes before the next colon. */
  predicate HasDot(s: seq<Byte>) { s != [] && s[0] != COLON && (s[0] == DOT || HasDot(s[1..])) }

  /** How many of the first bytes are hexadecimal digits, four at most. */
  function HexLength(s: seq<Byte>): (n: nat)
    ensures n <= 4 && n <= |s| && (forall i | 0 <= i < n :: HexDigit(s[i])) && (n < 4 && n < |s| ==> !HexDigit(s[n]))
  {
    if |s| < 1 || !HexDigit(s[0]) then 0
    else if |s| < 2 || !HexDigit(s[1]) then 1
    else if |s| < 3 || !HexDigit(s[2]) then 2
    else if |s| < 4 || !HexDigit(s[3]) then 3
    else 4
  }

  /** The end of the text; `head` is what came before the "::", if one came. */
  function Finish(acc: seq<Byte>, head: Option<seq<Byte>>): Option<seq<Byte>> {
    match head
    case None => if |acc| == 16 then Some(acc) else None
    case Some(h) => if |h| + |acc| < 16 then Some(h + Zeros(16 - |h| - |acc|) + acc) else None
  }

  /** The loop of api_parse_ipv6() from where a piece begins, with the bytes of this part so far. */
  function From(s: seq<Byte>, acc: seq<Byte>, head: Option<seq<Byte>>): Option<seq<Byte>>
    decreases |s|
  {
    if s == [] then Finish(acc, head)
    else if HasDot(s) then
      var v4 := Octets(s, 4);
      if |acc| + 4 > 16 || v4.None? then None else Finish(acc + v4.value, head)
    else
      var n := HexLength(s);
      if n == 0 || |acc| + 2 > 16 then None
      else
        var acc' := acc + GroupBytes(s[..n]);
        var r := s[n..];
        if r == [] then Finish(acc', head)
        else if r[0] != COLON then None
        else if |r| >= 2 && r[1] == COLON then if head.Some? then None else From(r[2..], [], Some(acc'))
        else if |r| == 1 then None
        else From(r[1..], acc', head)
  }

  /** api_parse_ipv6() */
  function Parse(s: seq<Byte>): Option<seq<Byte>> {
    if s != [] && s[0] == COLON then
      if |s| < 2 || s[1] != COLON then None else From(s[2..], [], Some([]))
    else From(s, [], None)
  }

  // ---- Every valid text is parsed -----------------------------------------------------------------

  /** What may follow a piece. */
  predicate Stops(r: seq<Byte>) { r == [] || r[0] == COLON }

  lemma GroupReads(d: seq<Byte>, r: seq<Byte>)
    requires IsGroup(d) && Stops(r)
    ensures HexLength(d + r) == |d| && (d + r)[..|d|] == d && (d + r)[|d|..] == r
    ensures !HasDot(d + r)
  {
    assert forall i | 0 <= i < |d| :: (d + r)[i] == d[i];
    assert |r| > 0 ==> (d + r)[|d|] == COLON;
    NoDot(d, r);
  }

  lemma {:induction false} NoDot(d: seq<Byte>, r: seq<Byte>)
    requires (forall i | 0 <= i < |d| :: HexDigit(d[i])) && Stops(r)
    ensures !HasDot(d + r)
    decreases |d|
  {
    if d == [] {
      assert d + r == r;
    } else {
      assert (d + r)[1..] == d[1..] + r;
      NoDot(d[1..], r);
    }
  }

  lemma {:induction false} DigitsThenDot(d: seq<Byte>, r: seq<Byte>)
    requires (forall i | 0 <= i < |d| :: Digit(d[i])) && r != [] && r[0] == DOT
    ensures HasDot(d + r)
    decreases |d|
  {
    if d == [] {
      assert d + r == r;
    } else {
      assert (d + r)[1..] == d[1..] + r;
      DigitsThenDot(d[1..], r);
    }
  }

  lemma EmbeddedReads(o: seq<Byte>)
    requires |o| == 4
    ensures HasDot(Dotted(o)) && Octets(Dotted(o), 4) == Some(o) && Dotted(o) != []
  {
    hide Decimal, Octets;
    OctetsAreDotted(Dotted(o), 4, o);
    DecimalIsDigits(o[0]);
    var d := Decimal(o[0]);
    assert Dotted(o) == d + ([DOT] + Dotted(o[1..]));
    DigitsThenDot(d, [DOT] + Dotted(o[1..]));
  }

  /** A group, and what comes after it. */
  lemma FromGroup(d: seq<Byte>, r: seq<Byte>, acc: seq<Byte>, head: Option<seq<Byte>>)
    requires IsGroup(d) && Stops(r)
    ensures From(d + r, acc, head) ==
      if |acc| + 2 > 16 then None
      else if r == [] then Finish(acc + GroupBytes(d), head)
      else if |r| >= 2 && r[1] == COLON then if head.Some? then None else From(r[2..], [], Some(acc + GroupBytes(d)))
      else if |r| == 1 then None
      else From(r[1..], acc + GroupBytes(d), head)
  {
    hide HexLength, HasDot, Octets, GroupBytes, Finish;
    GroupReads(d, r);
  }

  /** The first piece of a list does not begin with a colon, nor is it nothing. */
  lemma JoinStarts(p: seq<Piece>)
    requires AllOk(p) && p != []
    ensures Join(p) != [] && Join(p)[0] != COLON
  {
    var t := PieceText(p[0]);
    if p[0].Embedded? {
      DecimalIsDigits(p[0].octets[0]);
      assert t[0] == Decimal(p[0].octets[0])[0];
    }
    assert Join(p)[0] == t[0];
  }

  lemma {:induction false} GroupsAreTwoBytes(p: seq<Piece>)
    requires AllOk(p)
    ensures |JoinBytes(p)| >= 2 * |p|
    decreases |p|
  {
    if p != [] {
      GroupsAreTwoBytes(p[1..]);
    }
  }

  lemma Assoc(a: seq<Byte>, b: seq<Byte>, c: seq<Byte>)
    ensures a + (b + c) == a + b + c
  {
  }

  /** A list that begins with a group and goes on. */
  lemma JoinMore(p: seq<Piece>)
    requires AllOk(p) && |p| > 1 && p[0].Group?
    ensures AllOk(p[1..])
    ensures Join(p) == p[0].digits + ([COLON] + Join(p[1..]))
    ensures JoinBytes(p) == GroupBytes(p[0].digits) + JoinBytes(p[1..])
    ensures Join(p[1..]) != [] && Join(p[1..])[0] != COLON
  {
    hide GroupBytes, Decimal;
    Assoc(p[0].digits, [COLON], Join(p[1..]));
    JoinStarts(p[1..]);
  }

  lemma OneGroup(p: seq<Piece>)
    requires |p| == 1 && AllOk(p)
    ensures Join(p) == PieceText(p[0]) && JoinBytes(p) == PieceBytes(p[0])
  {
    hide GroupBytes, Decimal, Dotted;
    assert JoinBytes(p[1..]) == [];
  }

  /** A group with another piece after it. */
  lemma FromMore(d: seq<Byte>, rest: seq<Byte>, acc: seq<Byte>, head: Option<seq<Byte>>)
    requires IsGroup(d) && rest != [] && rest[0] != COLON && |acc| + 2 <= 16
    ensures From(d + ([COLON] + rest), acc, head) == From(rest, acc + GroupBytes(d), head)
  {
    hide From, GroupBytes, IsGroup;
    FromGroup(d, [COLON] + rest, acc, head);
    assert ([COLON] + rest)[1..] == rest;
  }

  /** The last piece of a text. */
  lemma FromOne(x: Piece, acc: seq<Byte>, head: Option<seq<Byte>>)
    requires PieceOk(x) && |acc| + |PieceBytes(x)| <= 16
    ensures From(PieceText(x), acc, head) == Finish(acc + PieceBytes(x), head)
  {
    match x
    case Group(d) =>
      hide From, GroupBytes, IsGroup, Finish;
      FromGroup(d, [], acc, head);
      assert d + [] == d;
    case Embedded(o) =>
      hide GroupBytes, Finish, Dotted, HasDot, Octets, HexLength;
      EmbeddedReads(o);
  }

  /** The last part of a text. */
  lemma {:induction false} FromLast(p: seq<Piece>, acc: seq<Byte>, head: Option<seq<Byte>>)
    requires AllOk(p) && Tailed(p) && |acc| + |JoinBytes(p)| <= 16
    ensures From(Join(p), acc, head) == Finish(acc + JoinBytes(p), head)
    decreases |p|
  {
    if p == [] {
      assert acc + [] == acc;
    } else if |p| == 1 {
      hide From, Join, JoinBytes, Finish;
      OneGroup(p);
      FromOne(p[0], acc, head);
    } else {
      hide From, Join, JoinBytes, Finish, GroupBytes;
      assert p[..|p| - 1][0] == p[0];
      var d := p[0].digits;
      JoinMore(p);
      TailedRest(p);
      FromMore(d, Join(p[1..]), acc, head);
      Assoc(acc, GroupBytes(d), JoinBytes(p[1..]));
      FromLast(p[1..], acc + GroupBytes(d), head);
    }
  }

  lemma TailedRest(p: seq<Piece>)
    requires Tailed(p) && |p| > 1
    ensures Tailed(p[1..])
  {
    assert p[1..][..|p| - 2] == p[..|p| - 1][1..];
  }

  /** The part in front of a "::". */
  lemma {:induction false} FromFirst(p: seq<Piece>, t: seq<Byte>, acc: seq<Byte>)
    requires AllOk(p) && AllGroups(p) && p != [] && |acc| + |JoinBytes(p)| <= 16
    ensures From(Join(p) + ([COLON, COLON] + t), acc, None) == From(t, [], Some(acc + JoinBytes(p)))
    decreases |p|
  {
    hide From, Join, JoinBytes, GroupBytes, IsGroup;
    var d := p[0].digits;
    var end := [COLON, COLON] + t;
    if |p| == 1 {
      OneGroup(p);
      FromGroup(d, end, acc, None);
      assert end[2..] == t;
    } else {
      JoinMore(p);
      var rest := Join(p[1..]);
      Assoc(d, [COLON] + rest, end);
      Assoc([COLON], rest, end);
      FromMore(d, rest + end, acc, None);
      Assoc(acc, GroupBytes(d), JoinBytes(p[1..]));
      FromFirst(p[1..], t, acc + GroupBytes(d));
    }
  }

  /** Every address in one of the forms is parsed, as the bytes it denotes. */
  lemma ValidIsParsed(a: Address)
    requires Valid(a)
    ensures Parse(TextOf(a)) == Some(BytesOf(a))
  {
    hide From, JoinBytes, Join, Tailed, AllGroups, AllOk;
    match a
    case Full(p) =>
      FromLast(p, [], None);
      assert [] + JoinBytes(p) == JoinBytes(p);
      SomePieces(p);
      JoinStarts(p);
    case Compressed(l, r) =>
      FromLast(r, [], Some(JoinBytes(l)));
      assert [] + JoinBytes(r) == JoinBytes(r);
      if l == [] {
        NoPieces();
        assert TextOf(a) == [COLON, COLON] + Join(r) && TextOf(a)[2..] == Join(r);
      } else {
        FromFirst(l, Join(r), []);
        Assoc(Join(l), [COLON, COLON], Join(r));
        assert [] + JoinBytes(l) == JoinBytes(l);
        JoinStarts(l);
        assert TextOf(a)[0] == Join(l)[0];
      }
  }

  lemma NoPieces()
    ensures AllOk([]) && Join([]) == [] && JoinBytes([]) == []
  {
  }

  lemma SomePieces(p: seq<Piece>)
    requires AllOk(p) && |JoinBytes(p)| == 16
    ensures p != []
  {
  }

  // ---- Only valid texts are parsed -----------------------------------------------------------------

  predicate IsLast(s: seq<Byte>, p: seq<Piece>) { AllOk(p) && Tailed(p) && s == Join(p) }

  /** s is p, or p and q with "::" between them. */
  predicate IsText(s: seq<Byte>, p: seq<Piece>, q: Option<seq<Piece>>) {
    match q
    case None => IsLast(s, p)
    case Some(r) =>
      && p != [] && AllOk(p) && AllGroups(p) && AllOk(r) && Tailed(r)
      && s == Join(p) + [COLON, COLON] + Join(r)
  }

  function Outcome(acc: seq<Byte>, head: Option<seq<Byte>>, p: seq<Piece>, q: Option<seq<Piece>>): Option<seq<Byte>>
    requires AllOk(p) && (q.Some? ==> AllOk(q.value))
  {
    if q.None? then Finish(acc + JoinBytes(p), head) else Finish(JoinBytes(q.value), Some(acc + JoinBytes(p)))
  }

  lemma OnePiece(x: Piece)
    requires PieceOk(x)
    ensures AllOk([x]) && Tailed([x]) && Join([x]) == PieceText(x) && JoinBytes([x]) == PieceBytes(x)
    ensures x.Group? ==> AllGroups([x])
  {
    assert [x][1..] == [] && [x][..0] == [];
  }

  lemma MorePieces(x: Piece, p: seq<Piece>)
    requires PieceOk(x) && x.Group? && AllOk(p) && p != []
    ensures var m := [x] + p;
            && AllOk(m) && Join(m) == x.digits + [COLON] + Join(p)
                 && JoinBytes(m) == GroupBytes(x.digits) + JoinBytes(p)
            && (Tailed(p) ==> Tailed(m)) && (AllGroups(p) ==> AllGroups(m))
  {
    var m := [x] + p;
    assert m[1..] == p && m[..|m| - 1] == [x] + p[..|p| - 1];
  }

  lemma ThenCompressed(x: Piece, t: seq<Piece>, s: seq<Byte>, rest: seq<Byte>, acc: seq<Byte>)
    requires PieceOk(x) && x.Group? && IsLast(rest, t) && s == x.digits + [COLON, COLON] + rest
    ensures IsText(s, [x], Some(t))
    ensures Outcome(acc, None, [x], Some(t)) == Outcome([], Some(acc + GroupBytes(x.digits)), t, None)
  {
    hide Finish, GroupBytes, Join, JoinBytes, AllOk, AllGroups, Tailed;
    OnePiece(x);
    assert [] + JoinBytes(t) == JoinBytes(t);
  }

  lemma Regroup(d: seq<Byte>, t: seq<Byte>, q: seq<Byte>)
    ensures d + [COLON] + (t + [COLON, COLON] + q) == d + [COLON] + t + [COLON, COLON] + q
  {
  }

  lemma ThenMore(x: Piece, t: seq<Piece>, q: Option<seq<Piece>>, s: seq<Byte>, rest: seq<Byte>, acc: seq<Byte>,
                 head: Option<seq<Byte>>)
    requires PieceOk(x) && x.Group? && IsText(rest, t, q) && rest != [] && s == x.digits + [COLON] + rest
    ensures IsText(s, [x] + t, q) && Outcome(acc, head, [x] + t, q) == Outcome(acc + GroupBytes(x.digits), head, t, q)
  {
    NotEmpty(rest, t, q);
    hide Finish, GroupBytes, Join, JoinBytes, AllOk, AllGroups, Tailed;
    MorePieces(x, t);
    Assoc(acc, GroupBytes(x.digits), JoinBytes(t));
    if q.Some? {
      Regroup(x.digits, Join(t), Join(q.value));
    }
  }

  lemma {:induction false} FromWritten(s: seq<Byte>, acc: seq<Byte>, head: Option<seq<Byte>>)
      returns (p: seq<Piece>, q: Option<seq<Piece>>)
    requires From(s, acc, head).Some?
    ensures IsText(s, p, q) && (head.Some? ==> q.None?)
    ensures Outcome(acc, head, p, q) == From(s, acc, head)
    decreases |s|, 1
  {
    hide Octets, HexDigit, Finish, GroupBytes, Decimal, Join, JoinBytes, AllOk, AllGroups, Tailed;
    q := None;
    if s == [] {
      p := [];
      NoPieces();
      NothingTailed();
      assert acc + [] == acc;
    } else if HasDot(s) {
      var o := Octets(s, 4).value;
      OctetsAreDotted(s, 4, o);
      p := [Embedded(o)];
      OnePiece(p[0]);
    } else {
      var n := HexLength(s);
      var x := Group(s[..n]);
      var r := s[n..];
      assert s == x.digits + r && PieceOk(x);
      p, q := FromGroupWritten(s, acc, head, x, r);
    }
  }

  lemma {:induction false} FromGroupWritten(s: seq<Byte>, acc: seq<Byte>, head: Option<seq<Byte>>, x: Piece,
      r: seq<Byte>)
      returns (p: seq<Piece>, q: Option<seq<Piece>>)
    requires From(s, acc, head).Some? && s != [] && !HasDot(s)
    requires PieceOk(x) && x == Group(s[..HexLength(s)]) && r == s[HexLength(s)..]
    ensures IsText(s, p, q) && (head.Some? ==> q.None?)
    ensures Outcome(acc, head, p, q) == From(s, acc, head)
    decreases |s|, 0
  {
    hide HasDot, HexLength, Octets, HexDigit, Finish, GroupBytes, Decimal, IsText, Outcome;
    assert s == x.digits + r;
    q := None;
    if r == [] {
      p := [x];
      LastGroup(x, s, acc, head);
    } else if r[1] == COLON {
      var t, none := FromWritten(r[2..], [], Some(acc + GroupBytes(x.digits)));
      p, q := [x], Some(t);
      assert s == x.digits + [COLON, COLON] + r[2..];
      WrittenLast(r[2..], t, none);
      ThenCompressed(x, t, s, r[2..], acc);
    } else {
      var t;
      t, q := FromWritten(r[1..], acc + GroupBytes(x.digits), head);
      p := [x] + t;
      assert s == x.digits + [COLON] + r[1..];
      ThenMore(x, t, q, s, r[1..], acc, head);
    }
  }

  lemma WrittenLast(s: seq<Byte>, p: seq<Piece>, q: Option<seq<Piece>>)
    requires IsText(s, p, q) && q.None?
    ensures IsLast(s, p)
  {
  }

  lemma LastGroup(x: Piece, s: seq<Byte>, acc: seq<Byte>, head: Option<seq<Byte>>)
    requires PieceOk(x) && x.Group? && s == x.digits
    ensures IsText(s, [x], None) && Outcome(acc, head, [x], None) == Finish(acc + GroupBytes(x.digits), head)
  {
    OnePiece(x);
  }

  lemma NothingTailed()
    ensures Tailed([])
  {
  }

  lemma NotEmpty(s: seq<Byte>, p: seq<Piece>, q: Option<seq<Piece>>)
    requires s != [] && IsText(s, p, q)
    ensures p != []
  {
  }

  /** What is parsed is the text of an address that denotes it. */
  lemma ParsedIsValid(s: seq<Byte>) returns (a: Address)
    requires Parse(s).Some?
    ensures Valid(a) && TextOf(a) == s && BytesOf(a) == Parse(s).value
  {
    hide From, Join, JoinBytes, AllOk, AllGroups, Tailed;
    if s != [] && s[0] == COLON {
      var p, q := FromWritten(s[2..], [], Some([]));
      NoPieces();
      NoGroups();
      a := Compressed([], p);
      assert [] + JoinBytes(p) == JoinBytes(p) && s == [COLON, COLON] + s[2..];
      assert [] + [COLON, COLON] + Join(p) == s;
    } else {
      var p, q := FromWritten(s, [], None);
      assert [] + JoinBytes(p) == JoinBytes(p);
      a := if q.None? then Full(p) else Compressed(p, q.value);
    }
  }

  lemma NoGroups()
    ensures AllGroups([])
  {
  }

  /** s is one of the standard's forms of the address whose bytes are b. */
  ghost predicate Denotes(s: seq<Byte>, b: seq<Byte>) { exists a :: Valid(a) && TextOf(a) == s && BytesOf(a) == b }

  /** The parser accepts exactly the forms of the standard, and gives the address they denote. */
  lemma ParsesExactlyAddresses(s: seq<Byte>, b: seq<Byte>)
    ensures Parse(s) == Some(b) <==> Denotes(s, b)
  {
    hide Parse, Valid, TextOf, BytesOf;
    if Parse(s) == Some(b) {
      var a := ParsedIsValid(s);
    }
    if a :| Valid(a) && TextOf(a) == s && BytesOf(a) == b {
      ValidIsParsed(a);
    }
  }
}
