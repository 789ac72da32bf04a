/** Cursors: a reader's positions as text that only this device, boot and filter issue (log_store.c). */
module LogCursor {
  import opened Bytes

  const VERSION: Byte := 1
  const RAW_LEN: nat := 29
  const BODY_LEN: nat := 25
  const TEXT_LEN: nat := 39

  const FNV32_INIT: bv32 := 0x811C9DC5
  const FNV32_PRIME: bv32 := 0x01000193

  // ---- FNV-1a -------------------------------------------------------------------------

  function Fnv1a(h: bv32, data: seq<Byte>): bv32
    decreases |data|
  {
    if data == [] then h
    else Fnv1a(FnvStep(h, data[0]), data[1..])
  }

  function FnvStep(h: bv32, b: Byte): bv32 { (h ^ (b as bv32)) * FNV32_PRIME }

  /** "cedar-log-cursor" */
  const SALT: seq<Byte> := [99, 101, 100, 97, 114, 45, 108, 111, 103, 45, 99, 117, 114, 115, 111, 114]

  function Check(body: seq<Byte>): (c: nat)
    ensures c < TWO_TO_THE_32
  {
    Fnv1a(Fnv1a(FNV32_INIT, SALT), body) as nat
  }

  // ---- Unpadded base64url ---------------------------------------------------------------

  type Sextet = x: int | 0 <= x < 64

  function Letter(v: Sextet): Byte {
    if v < 26 then 65 + v else if v < 52 then 97 + (v - 26) else if v < 62 then 48 + (v - 52)
    else if v == 62 then 45 else 95
  }

  /** b64url_value(); -1 for a character outside the alphabet. */
  function LetterValue(c: Byte): (v: int)
    ensures -1 <= v < 64
  {
    if 65 <= c <= 90 then c - 65 else if 97 <= c <= 122 then c - 97 + 26
    else if 48 <= c <= 57 then c - 48 + 52 else if c == 45 then 62 else if c == 95 then 63 else -1
  }

  lemma LetterRoundTrip()
    ensures forall v: Sextet :: LetterValue(Letter(v)) == v
    ensures forall c: Byte | LetterValue(c) >= 0 :: Letter(LetterValue(c)) == c
  {
  }

  /** The 24-bit value whose top bytes a group of one to three bytes is. */
  function GroupValue(g: seq<Byte>): (v: nat)
    requires 1 <= |g| <= 3
    ensures v < 0x100_0000
  {
    0x1_0000 * (g[0] as int) + (if |g| > 1 then 0x100 * (g[1] as int) else 0) + (if |g| > 2 then g[2] else 0)
  }

  function Sextet0(v: nat): Sextet requires v < 0x100_0000 { v / 0x4_0000 }
  function Sextet1(v: nat): Sextet { v / 0x1000 % 64 }
  function Sextet2(v: nat): Sextet { v / 64 % 64 }
  function Sextet3(v: nat): Sextet { v % 64 }

  function Joined(a: Sextet, b: Sextet, c: Sextet, d: Sextet): (v: nat)
    ensures v < 0x100_0000
  {
    0x4_0000 * (a as int) + 0x1000 * (b as int) + 64 * (c as int) + d
  }

  lemma JoinedSextets(v: nat)
    requires v < 0x100_0000
    ensures Joined(Sextet0(v), Sextet1(v), Sextet2(v), Sextet3(v)) == v
  {
    assert v == 64 * (v / 64) + v % 64;
    assert v / 64 == 64 * (v / 0x1000) + v / 64 % 64;
    assert v / 0x1000 == 64 * (v / 0x4_0000) + v / 0x1000 % 64;
  }

  lemma SextetsOfJoined(a: Sextet, b: Sextet, c: Sextet, d: Sextet)
    ensures var v := Joined(a, b, c, d);
            Sextet0(v) == a && Sextet1(v) == b && Sextet2(v) == c && Sextet3(v) == d
  {
    var v := Joined(a, b, c, d);
    assert v / 64 == 0x1000 * (a as int) + 64 * (b as int) + c;
    assert v / 0x1000 == 64 * (a as int) + b;
  }

  /** The letters of one group of one to three bytes: one more than it has bytes. */
  function EncodeGroup(g: seq<Byte>): (t: seq<Byte>)
    requires 1 <= |g| <= 3
    ensures |t| == |g| + 1
  {
    var v := GroupValue(g);
    [Letter(Sextet0(v)), Letter(Sextet1(v))]
    + (if |g| > 1 then [Letter(Sextet2(v))] else [])
    + (if |g| > 2 then [Letter(Sextet3(v))] else [])
  }

  datatype Decoded = Raw(bytes: seq<Byte>) | NotCanonical

  function GroupBytes(v: nat, n: nat): (g: seq<Byte>)
    requires v < 0x100_0000 && 1 <= n <= 3
    ensures |g| == n
  {
    [v / 0x1_0000] + (if n > 1 then [v / 0x100 % 0x100] else []) + (if n > 2 then [v % 0x100] else [])
  }

  /** The bytes of one group of two to four letters; only the canonical spelling. */
  function DecodeGroup(t: seq<Byte>): (d: Decoded)
    requires 2 <= |t| <= 4
    ensures d.Raw? ==> |d.bytes| == |t| - 1
  {
    var a, b := LetterValue(t[0]), LetterValue(t[1]);
    var c := if |t| > 2 then LetterValue(t[2]) else 0;
    var d := if |t| > 3 then LetterValue(t[3]) else 0;
    if a < 0 || b < 0 || c < 0 || d < 0 then NotCanonical
    else
      var v := Joined(a, b, c, d);
      if (|t| == 3 && v % 0x100 != 0) || (|t| == 2 && v % 0x1_0000 != 0) then NotCanonical
      else Raw(GroupBytes(v, |t| - 1))
  }

  lemma BytesOfGroupValue(g: seq<Byte>)
    requires 1 <= |g| <= 3
    ensures GroupBytes(GroupValue(g), |g|) == g
    ensures |g| == 2 ==> GroupValue(g) % 0x100 == 0 && Sextet3(GroupValue(g)) == 0
    ensures |g| == 1 ==> GroupValue(g) % 0x1_0000 == 0 && Sextet3(GroupValue(g)) == 0 && Sextet2(GroupValue(g)) == 0
  {
    var v := GroupValue(g);
    assert v / 0x1_0000 == g[0];
    if |g| > 1 {
      assert v / 0x100 == 0x100 * (g[0] as int) + g[1];
    }
  }

  lemma ValueOfGroupBytes(v: nat, n: nat)
    requires v < 0x100_0000 && 1 <= n <= 3
    requires (n == 2 ==> v % 0x100 == 0) && (n == 1 ==> v % 0x1_0000 == 0)
    ensures GroupValue(GroupBytes(v, n)) == v
  {
    assert v == 0x100 * (v / 0x100) + v % 0x100;
    assert v / 0x100 == 0x100 * (v / 0x1_0000) + v / 0x100 % 0x100;
  }

  lemma GroupDecodes(g: seq<Byte>)
    requires 1 <= |g| <= 3
    ensures DecodeGroup(EncodeGroup(g)) == Raw(g)
  {
    hide Letter, LetterValue, GroupValue, Joined, GroupBytes, Sextet0, Sextet1, Sextet2, Sextet3;
    LetterRoundTrip();
    BytesOfGroupValue(g);
    JoinedSextets(GroupValue(g));
  }

  lemma GroupIsCanonical(t: seq<Byte>)
    requires 2 <= |t| <= 4 && DecodeGroup(t).Raw?
    ensures EncodeGroup(DecodeGroup(t).bytes) == t
  {
    hide Letter, LetterValue, GroupValue, Joined, GroupBytes, Sextet0, Sextet1, Sextet2, Sextet3;
    LetterRoundTrip();
    var a, b := LetterValue(t[0]), LetterValue(t[1]);
    var c := if |t| > 2 then LetterValue(t[2]) else 0;
    var d := if |t| > 3 then LetterValue(t[3]) else 0;
    SextetsOfJoined(a, b, c, d);
    ValueOfGroupBytes(Joined(a, b, c, d), |t| - 1);
  }

  function Base64(raw: seq<Byte>): (t: seq<Byte>)
    decreases |raw|
  {
    if raw == [] then []
    else if |raw| <= 3 then EncodeGroup(raw)
    else EncodeGroup(raw[..3]) + Base64(raw[3..])
  }

  function FromBase64(t: seq<Byte>): (d: Decoded)
    decreases |t|
  {
    if t == [] then Raw([])
    else if |t| == 1 then NotCanonical
    else if |t| <= 4 then DecodeGroup(t)
    else
      match DecodeGroup(t[..4])
      case NotCanonical => NotCanonical
      case Raw(g) =>
        match FromBase64(t[4..])
        case NotCanonical => NotCanonical
        case Raw(rest) => Raw(g + rest)
  }

  lemma {:induction false} Base64Decodes(raw: seq<Byte>)
    ensures FromBase64(Base64(raw)) == Raw(raw)
    decreases |raw|
  {
    if raw == [] {
    } else if |raw| <= 3 {
      GroupDecodes(raw);
    } else {
      hide EncodeGroup, DecodeGroup;
      GroupDecodes(raw[..3]);
      Base64Decodes(raw[3..]);
      var t := Base64(raw);
      assert t[..4] == EncodeGroup(raw[..3]) && t[4..] == Base64(raw[3..]);
      assert raw == raw[..3] + raw[3..];
      Base64NotEmpty(raw[3..]);
    }
  }

  lemma Base64NotEmpty(raw: seq<Byte>)
    requires raw != []
    ensures |Base64(raw)| >= 2
  {
  }

  lemma {:induction false} Base64IsCanonical(t: seq<Byte>)
    requires FromBase64(t).Raw?
    ensures Base64(FromBase64(t).bytes) == t
    decreases |t|
  {
    if t == [] {
    } else if |t| <= 4 {
      GroupIsCanonical(t);
    } else {
      hide EncodeGroup, DecodeGroup;
      GroupIsCanonical(t[..4]);
      Base64IsCanonical(t[4..]);
      var g, rest := DecodeGroup(t[..4]).bytes, FromBase64(t[4..]).bytes;
      assert rest != [];
      assert (g + rest)[..3] == g && (g + rest)[3..] == rest;
    }
  }

  lemma {:induction false} Base64Concat(a: seq<Byte>, b: seq<Byte>)
    requires |a| % 3 == 0
    ensures Base64(a + b) == Base64(a) + Base64(b)
    decreases |a|
  {
    hide EncodeGroup;
    if a == [] {
      assert a + b == b;
    } else if |a| == 3 {
      assert (a + b)[..3] == a && (a + b)[3..] == b;
      if b == [] {
        assert a + b == a;
      }
    } else {
      assert (a + b)[..3] == a[..3] && (a + b)[3..] == a[3..] + b;
      Base64Concat(a[3..], b);
    }
  }

  /** How many bytes the text of a decoded cursor has. */
  lemma {:induction false} Base64Length(raw: seq<Byte>)
    ensures |Base64(raw)| == |raw| + (|raw| + 2) / 3
    decreases |raw|
  {
    if |raw| > 3 {
      Base64Length(raw[3..]);
    }
  }

  // ---- The cursor --------------------------------------------------------------------

  function Body(boot: nat, filter: nat, stm32: nat, esp32: nat): (b: seq<Byte>)
    ensures |b| == BODY_LEN
  {
    [VERSION] + Le(boot, 4) + Le(filter, 4) + Le(stm32, 8) + Le(esp32, 8)
  }

  function Sealed(body: seq<Byte>): (raw: seq<Byte>)
    ensures |raw| == |body| + 4
  {
    body + Le(Check(body), 4)
  }

  /** The text log_store_cursor_encode() writes. */
  function Text(boot: nat, filter: nat, stm32: nat, esp32: nat): seq<Byte> {
    Base64(Sealed(Body(boot, filter, stm32, esp32)))
  }

  datatype Cursor = At(stm32: nat, esp32: nat) | Stale | Invalid

  /** The fields of the 29 bytes, checked in the order of log_store_cursor_decode(). */
  function Unseal(raw: seq<Byte>, boot: nat, filter: nat, head0: nat, head1: nat): Cursor
    requires |raw| == RAW_LEN
  {
    if raw[0] != VERSION || FromLe(raw[25..29]) != Check(raw[..25]) then Invalid
    else if FromLe(raw[5..9]) != filter then Invalid
    else if FromLe(raw[1..5]) != boot then Stale
    else
      var p0, p1 := FromLe(raw[9..17]), FromLe(raw[17..25]);
      if p0 % 4 != 0 || p0 > head0 || p1 % 4 != 0 || p1 > head1 then Invalid else At(p0, p1)
  }

  function Parse(text: seq<Byte>, boot: nat, filter: nat, head0: nat, head1: nat): Cursor {
    if |text| != TEXT_LEN then Invalid
    else
      match FromBase64(text)
      case NotCanonical => Invalid
      case Raw(raw) => if |raw| != RAW_LEN then Invalid else Unseal(raw, boot, filter, head0, head1)
  }

  predicate Widths(boot: nat, filter: nat, stm32: nat, esp32: nat) {
    boot < TWO_TO_THE_32 && filter < TWO_TO_THE_32 && stm32 < TWO_TO_THE_64 && esp32 < TWO_TO_THE_64
  }

  lemma BodySlices(boot: nat, filter: nat, stm32: nat, esp32: nat)
    ensures var raw := Sealed(Body(boot, filter, stm32, esp32));
            && raw[0] == VERSION && raw[1..5] == Le(boot, 4) && raw[5..9] == Le(filter, 4)
            && raw[9..17] == Le(stm32, 8) && raw[17..25] == Le(esp32, 8)
            && raw[..25] == Body(boot, filter, stm32, esp32)
            && raw[25..29] == Le(Check(raw[..25]), 4)
  {
    hide Le, Check;
  }

  /** A cursor decodes to the positions it was made from; of another boot, it is stale. */
  lemma CursorDecodes(boot: nat, filter: nat, stm32: nat, esp32: nat, now: nat, head0: nat, head1: nat)
    requires Widths(boot, filter, stm32, esp32)
    requires stm32 % 4 == 0 && esp32 % 4 == 0 && stm32 <= head0 && esp32 <= head1
    ensures Parse(Text(boot, filter, stm32, esp32), now, filter, head0, head1)
         == if now == boot then At(stm32, esp32) else Stale
  {
    hide Le, FromLe, Check, Base64, FromBase64, Sealed, Body;
    var raw := Sealed(Body(boot, filter, stm32, esp32));
    Base64Length(raw);
    Base64Decodes(raw);
    BodySlices(boot, filter, stm32, esp32);
    Pow256Values();
    FromLeOfLe(boot, 4);
    FromLeOfLe(filter, 4);
    FromLeOfLe(stm32, 8);
    FromLeOfLe(esp32, 8);
    FromLeOfLe(Check(raw[..25]), 4);
  }

  /** Text that decodes is the one text encode produces for those positions. */
  lemma CursorIsCanonical(text: seq<Byte>, boot: nat, filter: nat, head0: nat, head1: nat)
    requires Parse(text, boot, filter, head0, head1).At?
    ensures var c := Parse(text, boot, filter, head0, head1);
            && text == Text(boot, filter, c.stm32, c.esp32)
            && c.stm32 % 4 == 0 && c.esp32 % 4 == 0 && c.stm32 <= head0 && c.esp32 <= head1
  {
    hide Le, FromLe, Check, Base64, FromBase64;
    Base64IsCanonical(text);
    var raw := FromBase64(text).bytes;
    LeOfFromLe(raw[1..5]);
    LeOfFromLe(raw[5..9]);
    LeOfFromLe(raw[9..17]);
    LeOfFromLe(raw[17..25]);
    LeOfFromLe(raw[25..29]);
    assert raw[..25] == [raw[0]] + raw[1..5] + raw[5..9] + raw[9..17] + raw[17..25];
    assert raw == raw[..25] + raw[25..29];
  }

  /** fnv1a() */
  method Fnv(h: bv32, data: seq<Byte>) returns (r: bv32)
    ensures r == Fnv1a(h, data)
  {
    r := h;
    for i := 0 to |data|
      invariant Fnv1a(r, data[i..]) == Fnv1a(h, data)
    {
      assert data[i..][1..] == data[i + 1..];
      r := FnvStep(r, data[i]);
    }
    assert data[|data|..] == [];
  }

  method ComputeCheck(body: seq<Byte>) returns (c: nat)
    ensures c == Check(body)
  {
    var salted := Fnv(FNV32_INIT, SALT);
    var h := Fnv(salted, body);
    c := h as nat;
  }

  /** log_store_cursor_encode(); NoSpace when the buffer cannot hold the text and its NUL. */
  datatype Encoded = Written(text: seq<Byte>) | NoSpace

  /** The encoding loop: three bytes at a time. */
  method ToBase64(raw: seq<Byte>) returns (out: seq<Byte>)
    ensures out == Base64(raw)
  {
    hide Base64, EncodeGroup;
    out := [];
    var i := 0;
    assert raw[..0] == [];
    Base64Length([]);
    while i < |raw|
      invariant 0 <= i <= |raw| && (i % 3 == 0 || i == |raw|)
      invariant out == Base64(raw[..i])
    {
      var rem := if |raw| - i < 3 then |raw| - i else 3;
      var g := raw[i..i + rem];
      Base64Concat(raw[..i], g);
      OneGroup(g);
      assert raw[..i + rem] == raw[..i] + g;
      out := out + EncodeGroup(g);
      i := i + rem;
    }
    assert raw[..|raw|] == raw;
  }

  method Encode(boot: nat, filter: nat, stm32: nat, esp32: nat, cap: nat) returns (e: Encoded)
    ensures e == if cap < TEXT_LEN + 1 then NoSpace else Written(Text(boot, filter, stm32, esp32))
    ensures e.Written? ==> |e.text| == TEXT_LEN
  {
    hide Le, Check, Base64, Body;
    if cap < TEXT_LEN + 1 {
      return NoSpace;
    }
    var body := Body(boot, filter, stm32, esp32);
    var check := ComputeCheck(body);
    var out := ToBase64(body + Le(check, 4));
    Base64Length(body + Le(check, 4));
    return Written(out);
  }

  lemma OneGroup(g: seq<Byte>)
    requires 1 <= |g| <= 3
    ensures Base64(g) == EncodeGroup(g)
  {
  }

  ghost function Prefixed(raw: seq<Byte>, d: Decoded): Decoded {
    match d
    case NotCanonical => NotCanonical
    case Raw(rest) => Raw(raw + rest)
  }

  /** The decoding loop: four letters at a time, until a group that is not canonical. */
  method FromLetters(text: seq<Byte>) returns (d: Decoded)
    requires |text| % 4 != 1
    ensures d == FromBase64(text)
  {
    hide DecodeGroup, FromBase64;
    var raw, i := [], 0;
    assert text[0..] == text && Prefixed([], FromBase64(text)) == FromBase64(text);
    while i < |text|
      invariant 0 <= i <= |text| && (i % 4 == 0 || i == |text|)
      invariant FromBase64(text) == Prefixed(raw, FromBase64(text[i..]))
    {
      var rem := if |text| - i < 4 then |text| - i else 4;
      var g := DecodeGroup(text[i..i + rem]);
      FirstGroup(text, i, rem);
      if g.NotCanonical? {
        return NotCanonical;
      }
      PrefixedTwice(raw, g.bytes, FromBase64(text[i + rem..]));
      raw := raw + g.bytes;
      i := i + rem;
    }
    assert text[|text|..] == [];
    NoLetters();
    return Raw(raw);
  }

  lemma NoLetters()
    ensures FromBase64([]) == Raw([])
  {
  }

  lemma PrefixedTwice(a: seq<Byte>, b: seq<Byte>, d: Decoded)
    ensures Prefixed(a, Prefixed(b, d)) == Prefixed(a + b, d)
  {
    if d.Raw? {
      assert a + (b + d.bytes) == a + b + d.bytes;
    }
  }

  /** log_store_cursor_decode(), for a text without a NUL in it. */
  method Decode(text: seq<Byte>, boot: nat, filter: nat, head0: nat, head1: nat) returns (c: Cursor)
    ensures c == Parse(text, boot, filter, head0, head1)
  {
    hide FromBase64, Check, FromLe;
    if |text| != TEXT_LEN {
      return Invalid;
    }
    var d := FromLetters(text);
    if d.NotCanonical? || |d.bytes| != RAW_LEN {
      return Invalid;
    }
    var raw := d.bytes;
    var check := ComputeCheck(raw[..BODY_LEN]);
    if raw[0] != VERSION || FromLe(raw[25..29]) != check {
      return Invalid;
    }
    if FromLe(raw[5..9]) != filter {
      return Invalid;
    }
    if FromLe(raw[1..5]) != boot {
      return Stale;
    }
    var p0, p1 := FromLe(raw[9..17]), FromLe(raw[17..25]);
    if p0 % 4 != 0 || p0 > head0 || p1 % 4 != 0 || p1 > head1 {
      return Invalid;
    }
    return At(p0, p1);
  }

  lemma FirstGroup(t: seq<Byte>, i: nat, rem: nat)
    requires i < |t| && 2 <= rem <= 4 && i + rem <= |t| && (rem < 4 ==> i + rem == |t|)
    ensures FromBase64(t[i..]) ==
              match DecodeGroup(t[i..i + rem])
              case NotCanonical => NotCanonical
              case Raw(g) => Prefixed(g, FromBase64(t[i + rem..]))
  {
    hide DecodeGroup;
    var u := t[i..];
    assert u[..rem] == t[i..i + rem] && u[rem..] == t[i + rem..];
    if |u| <= 4 {
      assert u[..rem] == u && u[rem..] == [];
    }
  }
}
