/** The layout of one record in a log ring (log_store.c, the comment above HDR_SIZE). */
module LogRecords {
  import opened Bytes

  const HDR_SIZE: nat := 28
  const TRAILER_SIZE: nat := 4
  const TRAILER_MAGIC: nat := 0xC3D5
  const MODULE_MAX: nat := 64
  const TEXT_MAX: nat := 512
  const RECORD_MIN: nat := 32
  const RECORD_MAX: nat := 608

  const SOURCE_COUNT: nat := 2
  const LEVEL_UNKNOWN: nat := 5
  const KIND_GAP: nat := 3

  datatype Record = Record(
    source: nat, level: nat, kind: nat, truncated: bool, hasModule: bool,
    generation: nat, seqNo: nat, uptime: nat, name: seq<Byte>, text: seq<Byte>)

  predicate ValidRecord(r: Record) {
    && r.source < SOURCE_COUNT && r.level <= LEVEL_UNKNOWN && r.kind <= KIND_GAP
    && r.generation < TWO_TO_THE_32 && r.seqNo < TWO_TO_THE_64 && r.uptime < TWO_TO_THE_64
    && |r.name| <= MODULE_MAX && |r.text| <= TEXT_MAX
    && (!r.hasModule ==> r.name == [])
  }

  function RoundUp4(n: nat): nat { (n + 3) / 4 * 4 }

  function Total(r: Record): nat { RoundUp4(HDR_SIZE + |r.name| + |r.text|) + TRAILER_SIZE }

  predicate LengthSane(len: nat) { RECORD_MIN <= len <= RECORD_MAX && len % 4 == 0 }

  function Flags(r: Record): Byte
    requires ValidRecord(r)
  {
    r.kind + (if r.hasModule then 64 else 0) + (if r.truncated then 128 else 0)
  }

  function Header(r: Record): (h: seq<Byte>)
    requires ValidRecord(r)
    ensures |h| == HDR_SIZE
  {
    Le(Total(r), 2) + [r.level, Flags(r), |r.name|, r.source] + Le(|r.text|, 2)
    + Le(r.generation, 4) + Le(r.seqNo, 8) + Le(r.uptime, 8)
  }

  function Padding(r: Record): nat {
    RoundUp4(HDR_SIZE + |r.name| + |r.text|) - (HDR_SIZE + |r.name| + |r.text|)
  }

  function Zeros(n: nat): seq<Byte> { seq(n, i => 0) }

  function Trailer(total: nat): (t: seq<Byte>)
    ensures |t| == TRAILER_SIZE
  {
    Le(total, 2) + Le(TRAILER_MAGIC, 2)
  }

  function Encode(r: Record): (b: seq<Byte>)
    requires ValidRecord(r)
    ensures |b| == Total(r)
  {
    Header(r) + r.name + r.text + Zeros(Padding(r)) + Trailer(Total(r))
  }

  /**
   * What makes a run of bytes walkable from both ends: it says its own length in
   * its first two bytes and again in its trailer.
   */
  predicate Blob(b: seq<Byte>) {
    && LengthSane(|b|)
    && FromLe(b[..2]) == |b|
    && FromLe(b[|b| - 4..|b| - 2]) == |b|
    && FromLe(b[|b| - 2..]) == TRAILER_MAGIC
  }

  lemma Framed(h: seq<Byte>, body: seq<Byte>, total: nat)
    requires |h| >= 2 && h[..2] == Le(total, 2)
    requires LengthSane(total) && |h| + |body| + TRAILER_SIZE == total
    ensures Blob(h + body + Trailer(total))
  {
    var b := h + body + Trailer(total);
    Pow256Values();
    FromLeOfLe(total, 2);
    FromLeOfLe(TRAILER_MAGIC, 2);
    assert b[..2] == h[..2];
    assert b[total - 4..total - 2] == Le(total, 2);
    assert b[total - 2..] == Le(TRAILER_MAGIC, 2);
  }

  lemma TrailerOf(b: seq<Byte>, tr: seq<Byte>)
    requires Blob(b) && tr == b[|b| - TRAILER_SIZE..]
    ensures FromLe(tr[..2]) == |b| && FromLe(tr[2..]) == TRAILER_MAGIC
  {
    assert tr[..2] == b[|b| - 4..|b| - 2] && tr[2..] == b[|b| - 2..];
  }

  lemma EncodeIsBlob(r: Record)
    requires ValidRecord(r)
    ensures Blob(Encode(r))
  {
    assert Header(r)[..2] == Le(Total(r), 2);
    var h, body, t := Header(r), r.name + r.text + Zeros(Padding(r)), Trailer(Total(r));
    Framed(h, body, Total(r));
    Regroup(h, r.name, r.text, Zeros(Padding(r)), t);
  }

  lemma Regroup(a: seq<Byte>, b: seq<Byte>, c: seq<Byte>, d: seq<Byte>, e: seq<Byte>)
    ensures a + b + c + d + e == a + (b + c + d) + e
  {
  }

  /** copy_record(): the record that a header, and the bytes it counts, stand for. */
  function Decode(h: seq<Byte>, name: seq<Byte>, text: seq<Byte>): Record
    requires |h| == HDR_SIZE
  {
    Record(h[5], h[2], h[3] % 8, h[3] / 128 == 1, h[3] / 64 % 2 == 1,
           FromLe(h[8..12]), FromLe(h[12..20]), FromLe(h[20..28]), name, text)
  }

  function NameLen(h: seq<Byte>): (n: nat)
    requires |h| == HDR_SIZE
    ensures n <= MODULE_MAX
  {
    if h[4] < MODULE_MAX then h[4] else MODULE_MAX
  }

  function TextLen(h: seq<Byte>): (n: nat)
    requires |h| == HDR_SIZE
    ensures n <= TEXT_MAX
  {
    var t := FromLe(h[6..8]);
    if t < TEXT_MAX then t else TEXT_MAX
  }

  lemma HeaderFields(r: Record)
    requires ValidRecord(r)
    ensures var h := Header(r);
            && h[..2] == Le(Total(r), 2) && h[2] == r.level && h[3] == Flags(r)
            && h[4] == |r.name| && h[5] == r.source && h[6..8] == Le(|r.text|, 2)
            && h[8..12] == Le(r.generation, 4) && h[12..20] == Le(r.seqNo, 8)
            && h[20..28] == Le(r.uptime, 8)
  {
  }

  /** h says what r is, in every field of the header. */
  predicate Describes(h: seq<Byte>, r: Record) {
    && |h| == HDR_SIZE
    && FromLe(h[..2]) == Total(r) && h[2] == r.level && h[4] == |r.name| && h[5] == r.source
    && h[3] % 8 == r.kind && (h[3] / 128 == 1) == r.truncated && (h[3] / 64 % 2 == 1) == r.hasModule
    && FromLe(h[6..8]) == |r.text| && FromLe(h[8..12]) == r.generation
    && FromLe(h[12..20]) == r.seqNo && FromLe(h[20..28]) == r.uptime
  }

  lemma HeaderDescribes(r: Record)
    requires ValidRecord(r)
    ensures Describes(Header(r), r)
  {
    HeaderFields(r);
    Pow256Values();
    FromLeOfLe(Total(r), 2);
    FromLeOfLe(|r.text|, 2);
    FromLeOfLe(r.generation, 4);
    FromLeOfLe(r.seqNo, 8);
    FromLeOfLe(r.uptime, 8);
  }

  lemma Slices(a: seq<Byte>, b: seq<Byte>, c: seq<Byte>, d: seq<Byte>)
    ensures (a + b + c + d)[..|a|] == a
    ensures (a + b + c + d)[|a|..|a| + |b|] == b
    ensures (a + b + c + d)[|a| + |b|..|a| + |b| + |c|] == c
  {
  }

  /** Where the parts of an encoded record are. */
  lemma Layout(r: Record)
    requires ValidRecord(r)
    ensures var b := Encode(r);
            && b[..HDR_SIZE] == Header(r)
            && b[HDR_SIZE..HDR_SIZE + |r.name|] == r.name
            && b[HDR_SIZE + |r.name|..HDR_SIZE + |r.name| + |r.text|] == r.text
  {
    var h, rest, t := Header(r), Zeros(Padding(r)), Trailer(Total(r));
    assert h + r.name + r.text + rest + t == h + r.name + r.text + (rest + t);
    Slices(h, r.name, r.text, rest + t);
  }

  /** b is what r was written as, as far as reading it goes. */
  ghost predicate Carries(b: seq<Byte>, r: Record) {
    && ValidRecord(r) && |b| == Total(r)
    && Describes(b[..HDR_SIZE], r)
    && b[HDR_SIZE..HDR_SIZE + |r.name|] == r.name
    && b[HDR_SIZE + |r.name|..HDR_SIZE + |r.name| + |r.text|] == r.text
  }

  lemma EncodeCarries(r: Record, b: seq<Byte>)
    requires ValidRecord(r) && b == Encode(r)
    ensures Carries(b, r) && LengthSane(Total(r))
  {
    hide Header, Le, FromLe;
    Layout(r);
    HeaderDescribes(r);
  }

  /** Reading a record back gives the record that was written. */
  lemma DecodeInverts(r: Record, h: seq<Byte>)
    requires Describes(h, r)
    ensures NameLen(h) == (if |r.name| < MODULE_MAX then |r.name| else MODULE_MAX)
    ensures TextLen(h) == (if |r.text| < TEXT_MAX then |r.text| else TEXT_MAX)
    ensures Decode(h, r.name, r.text) == r
  {
  }
}
