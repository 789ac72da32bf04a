/** The parsers of api_validation.c as loops over the text, which ends where it ends. */
module IpParser {
  import opened Bytes
  import opened Options
  import opened IpText

  /** parse_octet() */
  method ParseOctet(s: seq<Byte>) returns (r: Option<(Byte, nat)>)
    ensures r == Octet(s)
  {
    if |s| == 0 || !Digit(s[0]) {
      return None;
    }
    var len := 0;
    var value := 0;
    assert s[..0] == [];
    while len < |s| && Digit(s[len])
      invariant len <= |s| && len <= 3 && len <= DigitsAt(s)
      invariant value == DecimalValue(s[..len])
    {
      if len == 3 {
        return None;
      }
      assert s[..len + 1][..len] == s[..len];
      value := value * 10 + Num(s[len]);
      len := len + 1;
    }
    if len > 1 && s[0] == ZERO {
      return None;
    }
    if value > 255 {
      return None;
    }
    return Some((value as Byte, len));
  }

  /** api_parse_ipv4() */
  method ParseIpv4(s: seq<Byte>) returns (r: Option<seq<Byte>>)
    ensures r == Octets(s, 4)
    ensures forall a :: r == Some(a) <==> |a| == 4 && s == Dotted(a)
  {
    forall a
      ensures Octets(s, 4) == Some(a) <==> |a| == 4 && s == Dotted(a)
    {
      OctetsAreDotted(s, 4, a);
    }
    hide Octet, Dotted;
    var octets: seq<Byte> := [];
    var rest := s;
    var i := 0;
    assert Octets(s, 4).Some? ==> octets + Octets(s, 4).value == Octets(s, 4).value;
    while i < 4
      invariant i <= 4 && |octets| == i
      invariant i < 4 ==> Octets(s, 4) == Continued(octets, rest, 4 - i, i > 0)
      invariant i == 4 ==> Octets(s, 4) == if rest == [] then Some(octets) else None
    {
      if i > 0 {
        if |rest| == 0 || rest[0] != DOT {
          return None;
        }
        rest := rest[1..];
      }
      var o := ParseOctet(rest);
      if o.None? {
        return None;
      }
      NextOctet(octets, rest, 4 - i);
      OctetFits(rest);
      octets := octets + [o.value.0];
      rest := rest[o.value.1..];
      i := i + 1;
    }
    return if |rest| != 0 then None else Some(octets);
  }

  /** What is left of the parsing, with the dot still to come or not. */
  function Continued(octets: seq<Byte>, rest: seq<Byte>, n: nat, dot: bool): Option<seq<Byte>>
    requires n > 0
  {
    if dot && (rest == [] || rest[0] != DOT) then None
    else
      var more := Octets(if dot then rest[1..] else rest, n);
      if more.None? then None else Some(octets + more.value)
  }

  lemma NextOctet(octets: seq<Byte>, rest: seq<Byte>, n: nat)
    requires n > 0
    ensures var o := Octet(rest);
            Continued(octets, rest, n, false) ==
              if o.None? then None
              else if o.value.1 > |rest| then Continued(octets, rest, n, false)
              else if n == 1 then if rest[o.value.1..] == [] then Some(octets + [o.value.0]) else None
              else Continued(octets + [o.value.0], rest[o.value.1..], n - 1, true)
  {
    hide Octet;
    var o := Octet(rest);
    if o.Some? && n > 1 && o.value.1 <= |rest| {
      var r := rest[o.value.1..];
      if r != [] && r[0] == DOT {
        var more := Octets(r[1..], n - 1);
        if more.Some? {
          assert octets + ([o.value.0] + more.value) == octets + [o.value.0] + more.value;
        }
      }
    }
  }

  lemma OctetFits(s: seq<Byte>)
    ensures Octet(s).Some? ==> Octet(s).value.1 <= |s|
  {
  }

  /** parse_hex_group(): the value and the number of digits; no digit, no group. */
  method ParseHexGroup(s: seq<Byte>) returns (value: nat, len: nat)
    ensures len == HexLength(s) && value == GroupValue(s[..len])
  {
    len, value := 0, 0;
    assert s[..0] == [];
    while len < 4 && len < |s| && HexDigit(s[len])
      invariant len <= 4 && len <= |s| && len <= HexLength(s)
      invariant value == GroupValue(s[..len])
    {
      assert s[..len + 1][..len] == s[..len];
      value := value * 16 + HexValue(s[len]);
      len := len + 1;
    }
  }

  /** The look ahead for a dot before the next colon. */
  method LookForDot(s: seq<Byte>) returns (found: bool)
    ensures found == HasDot(s)
  {
    var i := 0;
    assert s[0..] == s;
    while i < |s| && s[i] != COLON
      invariant i <= |s| && HasDot(s) == HasDot(s[i..])
    {
      if s[i] == DOT {
        return true;
      }
      assert s[i..][1..] == s[i + 1..];
      i := i + 1;
    }
    return false;
  }

  /** Puts bytes into one of the two parts, which has room for them. */
  method Put(part: array<Byte>, len: nat, b: seq<Byte>)
    requires part.Length == 16 && len + |b| <= 16
    modifies part
    ensures part[..len + |b|] == old(part[..len]) + b
  {
    var i := 0;
    while i < |b|
      invariant i <= |b| && part[..len + i] == old(part[..len]) + b[..i]
    {
      part[len + i] := b[i];
      i := i + 1;
    }
    assert b[..|b|] == b;
  }

  /** The piece a text begins with: its bytes, and how much of the text it is. */
  function PieceAt(s: seq<Byte>): Option<(seq<Byte>, nat)>
    requires s != []
  {
    if HasDot(s) then
      var v4 := Octets(s, 4);
      if v4.None? then None else Some((v4.value, |s|))
    else
      var n := HexLength(s);
      if n == 0 then None else Some((GroupBytes(s[..n]), n))
  }

  lemma PieceFits(s: seq<Byte>)
    requires s != [] && PieceAt(s).Some?
    ensures 0 < PieceAt(s).value.1 <= |s| && |PieceAt(s).value.0| <= 4
  {
    if HasDot(s) {
      OctetsAreDotted(s, 4, Octets(s, 4).value);
    }
  }

  /** One piece, into a part that must have room for it. */
  method TakePiece(rest: seq<Byte>, part: array<Byte>, len: nat) returns (ok: bool, n: nat, newLen: nat)
    requires rest != [] && part.Length == 16 && len <= 16
    modifies part
    ensures ok <==> PieceAt(rest).Some? && len + |PieceAt(rest).value.0| <= 16
    ensures ok ==> n == PieceAt(rest).value.1 && len <= newLen <= 16
    ensures ok ==> part[..newLen] == old(part[..len]) + PieceAt(rest).value.0
  {
    hide Octets, HasDot, HexLength, HexDigit, GroupValue, Dotted;
    ok, n, newLen := false, 0, len;
    var hasDot := LookForDot(rest);
    if hasDot {
      var v4 := ParseIpv4(rest);
      if v4.None? || len + 4 > 16 {
        return;
      }
      Put(part, len, v4.value);
      return true, |rest|, len + 4;
    }
    var value;
    value, n := ParseHexGroup(rest);
    if n == 0 || len + 2 > 16 {
      return;
    }
    GroupFits(rest[..n]);
    Put(part, len, [value / 256, value % 256]);
    return true, n, len + 2;
  }

  /**
   * api_parse_ipv6(): the two parts are arrays of 16 bytes, and nothing is written past their ends
   * whatever the text is.
   */
  method ParseIpv6(text: seq<Byte>) returns (r: Option<seq<Byte>>)
    ensures forall b :: r == Some(b) <==> Denotes(text, b)
  {
    r := ParseParts(text);
    forall b
      ensures r == Some(b) <==> Denotes(text, b)
    {
      ParsesExactlyAddresses(text, b);
    }
  }

  method ParseParts(text: seq<Byte>) returns (r: Option<seq<Byte>>)
    ensures r == Parse(text)
  {
    hide From, Finish, PieceAt, Zeros;
    var head := new Byte[16](_ => 0);
    var tail := new Byte[16](_ => 0);
    var headLen, tailLen := 0, 0;
    var compressed := false;
    var rest := text;
    if |text| > 0 && text[0] == COLON {
      if |text| < 2 || text[1] != COLON {
        return None;
      }
      compressed := true;
      rest := text[2..];
      if |rest| == 0 {
        Unspecified();
        return Some(Zeros(16));
      }
    }
    assert head[..0] == [] && tail[..0] == [];
    while |rest| > 0
      invariant 0 <= headLen <= 16 && 0 <= tailLen <= 16 && (!compressed ==> tailLen == 0)
      invariant Parse(text) == State(rest, head[..headLen], tail[..tailLen], compressed)
      decreases |rest|
    {
      FromPiece(rest, head[..headLen], tail[..tailLen], compressed);
      var ok, n;
      if compressed {
        ok, n, tailLen := TakePiece(rest, tail, tailLen);
      } else {
        ok, n, headLen := TakePiece(rest, head, headLen);
      }
      if !ok {
        return None;
      }
      PieceFits(rest);
      rest := rest[n..];
      if |rest| == 0 {
        break;
      }
      if rest[0] != COLON {
        return None;
      }
      rest := rest[1..];
      if |rest| > 0 && rest[0] == COLON {
        if compressed {
          return None;
        }
        compressed := true;
        rest := rest[1..];
      } else if |rest| == 0 {
        return None;
      }
    }
    Ends(head[..headLen], tail[..tailLen], compressed);
    if compressed {
      if headLen + tailLen >= 16 {
        return None;
      }
    } else if headLen != 16 {
      return None;
    }
    return Some(head[..headLen] + Zeros(16 - headLen - tailLen) + tail[..tailLen]);
  }

  /** What is still to be parsed, with what the two parts hold. */
  function State(rest: seq<Byte>, head: seq<Byte>, tail: seq<Byte>, compressed: bool): Option<seq<Byte>> {
    if compressed then From(rest, tail, Some(head)) else From(rest, head, None)
  }

  lemma Unspecified()
    ensures From([], [], Some([])) == Some(Zeros(16))
  {
    assert [] + Zeros(16) + [] == Zeros(16);
  }

  /** One turn of the loop. */
  lemma FromPiece(s: seq<Byte>, head: seq<Byte>, tail: seq<Byte>, compressed: bool)
    requires s != [] && (!compressed ==> tail == [])
    ensures var p := PieceAt(s);
            State(s, head, tail, compressed) ==
              if p.None? || |if compressed then tail else head| + |p.value.0| > 16 || p.value.1 > |s| then None
              else
                var r := s[p.value.1..];
                var h := if compressed then head else head + p.value.0;
                var t := if compressed then tail + p.value.0 else tail;
                if r == [] then State([], h, t, compressed)
                else if r[0] != COLON || |r| == 1 then None
                else if r[1..][0] == COLON then if compressed then None else State(r[1..][1..], h, [], true)
                else State(r[1..], h, t, compressed)
  {
    hide Octets, HexDigit, GroupBytes, Finish;
    if PieceAt(s).Some? {
      PieceFits(s);
      var r := s[PieceAt(s).value.1..];
      assert |r| >= 2 ==> r[1..][1..] == r[2..];
      if HasDot(s) {
        OctetsAreDotted(s, 4, Octets(s, 4).value);
      }
    }
  }

  lemma Ends(head: seq<Byte>, tail: seq<Byte>, compressed: bool)
    requires !compressed ==> tail == []
    ensures State([], head, tail, compressed) ==
      if (if compressed then |head| + |tail| >= 16 else |head| != 16) then None
      else Some(head + Zeros(16 - |head| - |tail|) + tail)
  {
    assert head + Zeros(0) + [] == head;
  }
}
