/**
 * One ESP-IDF image, read byte by byte (walk_* of fw_image.c), and what such an image is. The
 * machine here remembers every byte; FwImageCheck shows that the few the program keeps are enough.
 */
module EspImage {
  import opened Bytes
  import opened Options

  const TABLE_OFFSET: nat := 0x8000
  const APP_OFFSET: nat := 0x10000
  const MAX_BYTES: nat := 0x1d0000
  const CHIP_ESP32C6: nat := 13
  const TEXT_MAX: nat := 32

  const IMAGE_MAGIC: Byte := 0xE9
  const HEADER_LEN: nat := 24
  const SEGMENT_HEADER_LEN: nat := 8
  const MAX_SEGMENTS: nat := 16
  const CHECKSUM_SEED: Byte := 0xEF
  const DIGEST_LEN: nat := 32

  const BOOT_DESC_MAGIC: Byte := 80
  const BOOT_DESC_LEN: nat := 80
  const APP_DESC_MAGIC: nat := 0xABCD5432
  const APP_DESC_LEN: nat := 176

  /** Which of the two images of the file. */
  datatype Part = Boot | App

  function Base(p: Part): nat { if p.Boot? then 0 else APP_OFFSET }

  function DescLen(p: Part): nat { if p.Boot? then BOOT_DESC_LEN else APP_DESC_LEN }

  /** Where the description is: the first bytes of segment 0. */
  const DESC_AT: nat := HEADER_LEN + SEGMENT_HEADER_LEN

  datatype Message =
    | NoImageHeader(part: Part) | OtherChip(part: Part) | SegmentCount | NoAppendedDigest
    | SegmentOverruns(part: Part) | ShortFirstSegment
    | BareApplication | NoBootDescription | NoAppDescription | DescriptionNotText
    | ChecksumMismatch(part: Part) | DigestMismatch(part: Part)
    | TableMd5Mismatch | NoMd5Record | AfterTableEnd | NoTable | CorruptEntry | NoTableEnd
    | TooLarge | GapNotErased | BootOverruns | AfterTable | DataNotErased | BytesFollow
    | TooShort | NoApplication | CutShort | LayoutUnsupported

  /** What the application says about itself. */
  datatype Texts = Texts(version: seq<Byte>, project: seq<Byte>, idf: seq<Byte>)

  /** SHA-256 and MD5. */
  datatype Hashes = Hashes(sha: seq<Byte> -> seq<Byte>, md5: seq<Byte> -> seq<Byte>)

  datatype Phase = Header | SegHeader | SegData | Pad | Checksum | Digest

  /** `img` is all of the image so far; the span of the phase is [spanStart, spanEnd) of the file. */
  datatype Walk =
    | Walking(part: Part, limit: nat, phase: Phase, count: nat, index: nat, checksum: Byte,
              img: seq<Byte>, spanStart: nat, spanEnd: nat, texts: Texts)
    | Done(part: Part, end: nat, texts: Texts)
    | Faulted(message: Message, texts: Texts)

  function Xor(a: Byte, b: Byte): Byte { ((a as bv8) ^ (b as bv8)) as int }

  function XorAll(seed: Byte, s: seq<Byte>): Byte
    decreases |s|
  {
    if s == [] then seed else XorAll(Xor(seed, s[0]), s[1..])
  }

  // ---- The description -------------------------------------------------------------------------

  predicate Printable(b: Byte) { 0x20 <= b <= 0x7E }

  /** The length of the NUL-terminated text that a field begins with; TEXT_MAX for none. */
  function TextLen(s: seq<Byte>, n: nat): (k: nat)
    requires |s| == TEXT_MAX && n <= TEXT_MAX
    ensures n <= k <= TEXT_MAX
    ensures forall i | n <= i < k :: s[i] != 0
    ensures k < TEXT_MAX ==> s[k] == 0
    decreases TEXT_MAX - n
  {
    if n == TEXT_MAX || s[n] == 0 then n else TextLen(s, n + 1)
  }

  /** copy_text(): None when the field does not hold text. */
  function Text(s: seq<Byte>, allowEmpty: bool): Option<seq<Byte>>
    requires |s| == TEXT_MAX
  {
    var n := TextLen(s, 0);
    if (exists i | 0 <= i < n :: !Printable(s[i])) || n == TEXT_MAX || (n == 0 && !allowEmpty) then None
    else Some(s[..n])
  }

  /** check_description(): the fault, if any, and the texts found until then. */
  function Describe(part: Part, d: seq<Byte>): (Option<Message>, Texts)
    requires |d| == DescLen(part)
  {
    var none := Texts([], [], []);
    if part.Boot? then
      if d[0] == BOOT_DESC_MAGIC then (None, none)
      else if FromLe(d[..4]) == APP_DESC_MAGIC then (Some(BareApplication), none)
      else (Some(NoBootDescription), none)
    else if FromLe(d[..4]) != APP_DESC_MAGIC then (Some(NoAppDescription), none)
    else
      var version := Text(d[16..48], false);
      var project := Text(d[48..80], false);
      var idf := Text(d[112..144], true);
      if version.None? then (Some(DescriptionNotText), none)
      else if project.None? then (Some(DescriptionNotText), Texts(version.value, [], []))
      else if idf.None? then (Some(DescriptionNotText), Texts(version.value, project.value, []))
      else (None, Texts(version.value, project.value, idf.value))
  }

  // ---- The machine --------------------------------------------------------------------------------

  function At(w: Walk): nat
    requires w.Walking?
  {
    Base(w.part) + |w.img|
  }

  predicate WalkOk(w: Walk) {
    w.Walking? ==>
      && Base(w.part) <= w.spanStart <= At(w) < w.spanEnd
      && (w.phase.Header? ==> w.spanStart == Base(w.part) && w.spanEnd == Base(w.part) + HEADER_LEN)
      && (!w.phase.Header? ==> Base(w.part) + HEADER_LEN <= w.spanStart)
      && (w.phase.SegHeader? ==> w.spanEnd == w.spanStart + SEGMENT_HEADER_LEN)
      && (w.phase.SegData? && w.index == 0 ==>
            w.spanStart == Base(w.part) + DESC_AT && DescLen(w.part) <= w.spanEnd - w.spanStart)
      && (w.phase.SegHeader? && w.index == 0 ==> w.spanStart == Base(w.part) + HEADER_LEN)
      && (w.phase.Checksum? ==> w.spanEnd == w.spanStart + 1)
      && (w.phase.Digest? ==> w.spanEnd == w.spanStart + DIGEST_LEN)
  }

  /** walk_start() */
  function StartWalk(part: Part, limit: nat): (w: Walk)
    ensures WalkOk(w)
  {
    Walking(part, limit, Header, 0, 0, CHECKSUM_SEED, [], Base(part), Base(part) + HEADER_LEN, Texts([], [], []))
  }

  /** set_span() */
  function Span(w: Walk, phase: Phase, len: nat): Walk
    requires w.Walking?
  {
    w.(phase := phase, spanStart := w.spanEnd, spanEnd := w.spanEnd + len)
  }

  function Fault(w: Walk, m: Message): Walk
    requires w.Walking?
  {
    Faulted(m, w.texts)
  }

  /** Where the checksum of an image based at b is whose segments end at q. */
  function ChecksumAt(b: nat, q: nat): nat
    requires b <= q
    ensures q <= ChecksumAt(b, q) < q + 16
  {
    b + ((q - b) / 16 + 1) * 16 - 1
  }

  /** A walk at the end of its span. */
  predicate SpanFull(w: Walk) {
    && w.Walking? && Base(w.part) <= w.spanStart <= w.spanEnd == At(w)
    && (w.phase.Header? ==> w.spanStart == Base(w.part) && |w.img| == HEADER_LEN)
    && (w.phase.SegHeader? ==> w.spanEnd == w.spanStart + SEGMENT_HEADER_LEN)
    && (w.phase.Digest? ==> w.spanEnd == w.spanStart + DIGEST_LEN)
  }

  /** What is wrong with an image header. */
  function HeaderFault(part: Part, hd: seq<Byte>): Option<Message>
    requires |hd| == HEADER_LEN
  {
    if hd[0] != IMAGE_MAGIC then Some(NoImageHeader(part))
    else if FromLe(hd[12..14]) != CHIP_ESP32C6 then Some(OtherChip(part))
    else if hd[1] == 0 || hd[1] as int > MAX_SEGMENTS then Some(SegmentCount)
    else if hd[23] != 1 then Some(NoAppendedDigest)
    else None
  }

  /** One turn of walk_next(): what the span that is complete leads to. */
  function NextSpan(h: Hashes, w: Walk): Walk
    requires SpanFull(w)
  {
    var cap := w.img[w.spanStart - Base(w.part)..];
    match w.phase
    case Header =>
      var m := HeaderFault(w.part, cap);
      if m.Some? then Fault(w, m.value)
      else Span(w.(count := cap[1] as int, index := 0), SegHeader, SEGMENT_HEADER_LEN)
    case SegHeader =>
      var len := FromLe(cap[4..8]);
      var mayOverrun := w.part.Boot? && w.index == 0;
      if len > MAX_BYTES || (!mayOverrun && len > w.limit - w.spanEnd) then Fault(w, SegmentOverruns(w.part))
      else if w.index == 0 && len < DescLen(w.part) then Fault(w, ShortFirstSegment)
      else Span(w, SegData, len)
    case SegData =>
      if w.index + 1 < w.count then Span(w.(index := w.index + 1), SegHeader, SEGMENT_HEADER_LEN)
      else Span(w.(index := w.index + 1), Pad, ChecksumAt(Base(w.part), w.spanEnd) - w.spanEnd)
    case Pad => Span(w, Checksum, 1)
    case Checksum => Span(w, Digest, DIGEST_LEN)
    case Digest =>
      if h.sha(w.img[..w.spanStart - Base(w.part)]) != cap then Fault(w, DigestMismatch(w.part))
      else Done(w.part, w.spanEnd, w.texts)
  }

  function Rank(p: Phase): nat {
    match p case Header => 5 case SegHeader => 4 case SegData => 3 case Pad => 2 case Checksum => 1 case Digest => 0
  }

  /** walk_next(): past every span that is empty. */
  function NextWalk(h: Hashes, w: Walk): Walk
    requires SpanFull(w)
    decreases Rank(w.phase)
  {
    var v := NextSpan(h, w);
    if v.Walking? && v.spanStart == v.spanEnd then NextWalk(h, v) else v
  }

  /** One byte of an image that is not over. */
  function StepWalk(h: Hashes, w: Walk, b: Byte): Walk
    requires WalkOk(w)
  {
    if !w.Walking? then w
    else
      var img := w.img + [b];
      var described := w.phase.SegData? && w.index == 0 && |img| == DESC_AT + DescLen(w.part);
      var (fault, texts) := if described then Describe(w.part, img[DESC_AT..]) else (None, w.texts);
      var v := w.(img := img, texts := texts, checksum := if w.phase.SegData? then Xor(w.checksum, b) else w.checksum);
      if fault.Some? then Fault(v, fault.value)
      else if w.phase.Checksum? && b != w.checksum then Fault(v, ChecksumMismatch(w.part))
      else if At(v) == v.spanEnd then NextWalk(h, v)
      else v
  }

  lemma {:induction false} NextWalkOk(h: Hashes, w: Walk)
    requires SpanFull(w) && Base(w.part) + HEADER_LEN <= w.spanEnd
    requires w.phase.SegHeader? && w.index == 0 ==> w.spanStart == Base(w.part) + HEADER_LEN
    ensures WalkOk(NextWalk(h, w))
    decreases Rank(w.phase)
  {
    var v := NextSpan(h, w);
    if v.Walking? && v.spanStart == v.spanEnd {
      NextWalkOk(h, v);
    }
  }

  lemma StepWalkOk(h: Hashes, w: Walk, b: Byte)
    requires WalkOk(w)
    ensures WalkOk(StepWalk(h, w, b))
  {
    hide NextWalk, Describe, NextSpan;
    if w.Walking? && At(w) + 1 == w.spanEnd {
      var described := w.phase.SegData? && w.index == 0 && |w.img| + 1 == DESC_AT + DescLen(w.part);
      var texts := if described then Describe(w.part, (w.img + [b])[DESC_AT..]).1 else w.texts;
      NextWalkOk(h, w.(img := w.img + [b], texts := texts,
                       checksum := if w.phase.SegData? then Xor(w.checksum, b) else w.checksum));
    }
  }

  /** Any number of bytes. */
  function Feed(h: Hashes, w: Walk, s: seq<Byte>): (v: Walk)
    requires WalkOk(w)
    ensures WalkOk(v)
    decreases |s|
  {
    if s == [] then w
    else
      StepWalkOk(h, w, s[0]);
      Feed(h, StepWalk(h, w, s[0]), s[1..])
  }

  lemma {:induction false} FeedConcat(h: Hashes, w: Walk, a: seq<Byte>, b: seq<Byte>)
    requires WalkOk(w)
    ensures Feed(h, w, a + b) == Feed(h, Feed(h, w, a), b)
    decreases |a|
  {
    hide StepWalk, WalkOk;
    if a == [] {
      assert a + b == b;
    } else {
      StepWalkOk(h, w, a[0]);
      FeedConcat(h, StepWalk(h, w, a[0]), a[1..], b);
      assert (a + b)[1..] == a[1..] + b;
    }
  }

  /** An image that is over, well or badly, stays as it is. */
  lemma {:induction false} FeedOver(h: Hashes, w: Walk, s: seq<Byte>)
    requires !w.Walking?
    ensures Feed(h, w, s) == w
    decreases |s|
  {
    if s != [] {
      FeedOver(h, w, s[1..]);
    }
  }

  // ---- Where a walk stands ------------------------------------------------------------------------

  lemma NextWalkShape(h: Hashes, w: Walk)
    requires SpanFull(w)
    ensures var v := NextWalk(h, w);
            && (v.Done? ==> v.end == At(w))
            && (v.Walking? ==> v.part == w.part && v.img == w.img)
    decreases Rank(w.phase)
  {
    var v := NextSpan(h, w);
    if v.Walking? && v.spanStart == v.spanEnd {
      NextWalkShape(h, v);
    }
  }

  lemma StepWalkShape(h: Hashes, w: Walk, b: Byte)
    requires WalkOk(w) && w.Walking?
    ensures var v := StepWalk(h, w, b);
            && (v.Done? ==> v.end == At(w) + 1)
            && (v.Walking? ==> v.part == w.part && At(v) == At(w) + 1)
  {
    hide NextWalk, NextSpan, Describe;
    if At(w) + 1 == w.spanEnd {
      var described := w.phase.SegData? && w.index == 0 && |w.img| + 1 == DESC_AT + DescLen(w.part);
      var texts := if described then Describe(w.part, (w.img + [b])[DESC_AT..]).1 else w.texts;
      NextWalkShape(h, w.(img := w.img + [b], texts := texts,
                          checksum := if w.phase.SegData? then Xor(w.checksum, b) else w.checksum));
    }
  }

  lemma FeedByte(h: Hashes, w: Walk, s: seq<Byte>, b: Byte)
    requires WalkOk(w)
    ensures Feed(h, w, s + [b]) == StepWalk(h, Feed(h, w, s), b)
  {
    hide StepWalk, WalkOk;
    FeedConcat(h, w, s, [b]);
    assert [b][1..] == [];
    StepWalkOk(h, Feed(h, w, s), b);
  }

  lemma {:induction false} FeedAt(h: Hashes, w: Walk, s: seq<Byte>)
    requires WalkOk(w) && w.Walking?
    ensures var v := Feed(h, w, s);
            && (v.Walking? ==> v.part == w.part && At(v) == At(w) + |s|)
            && (v.Done? ==> At(w) < v.end <= At(w) + |s|)
    decreases |s|
  {
    if s != [] {
      hide StepWalk, WalkOk;
      StepWalkOk(h, w, s[0]);
      StepWalkShape(h, w, s[0]);
      var v := StepWalk(h, w, s[0]);
      if v.Walking? {
        FeedAt(h, v, s[1..]);
      } else {
        FeedOver(h, v, s[1..]);
      }
    }
  }

  // ---- What an image is ----------------------------------------------------------------------------

  function LengthAt(f: seq<Byte>, p: nat): nat
    requires p + SEGMENT_HEADER_LEN <= |f|
  {
    FromLe(f[p + 4..p + 8])
  }

  /** Where n segments end that begin at p; None when one of them runs past lim. */
  function SegmentsEnd(f: seq<Byte>, p: nat, n: nat, lim: nat): (q: Option<nat>)
    requires p <= lim <= |f|
    ensures q.Some? ==> p <= q.value <= lim
    decreases n
  {
    if n == 0 then Some(p)
    else if p + SEGMENT_HEADER_LEN > lim || p + SEGMENT_HEADER_LEN + LengthAt(f, p) > lim then None
    else SegmentsEnd(f, p + SEGMENT_HEADER_LEN + LengthAt(f, p), n - 1, lim)
  }

  /** The exclusive or of all their data. */
  function DataXor(f: seq<Byte>, p: nat, n: nat, lim: nat, seed: Byte): Byte
    requires p <= lim <= |f| && SegmentsEnd(f, p, n, lim).Some?
    decreases n
  {
    if n == 0 then seed
    else
      var q := p + SEGMENT_HEADER_LEN + LengthAt(f, p);
      DataXor(f, q, n - 1, lim, XorAll(seed, f[p + SEGMENT_HEADER_LEN..q]))
  }

  /** What follows segments that end at q: padding, the checksum, the digest, and then e. */
  predicate Tail(h: Hashes, b: nat, f: seq<Byte>, q: nat, lim: nat, x: Byte, e: nat)
    requires b <= q <= lim <= |f|
  {
    var c := ChecksumAt(b, q);
    e == c + 1 + DIGEST_LEN <= lim && f[c] == x && h.sha(f[b..c + 1]) == f[c + 1..e]
  }

  predicate HeaderOk(f: seq<Byte>, b: nat)
    requires b + HEADER_LEN <= |f|
  {
    && f[b] == IMAGE_MAGIC && FromLe(f[b + 12..b + 14]) == CHIP_ESP32C6
    && 1 <= f[b + 1] as int <= MAX_SEGMENTS && f[b + 23] == 1
  }

  /** The image of a part is the bytes from its base to `end`, and fits below lim. */
  predicate IsImage(h: Hashes, part: Part, f: seq<Byte>, lim: nat, end: nat)
    requires lim <= |f|
  {
    var b := Base(part);
    && b + DESC_AT + DescLen(part) <= lim
    && HeaderOk(f, b)
    && DescLen(part) <= LengthAt(f, b + HEADER_LEN)
    && Describe(part, f[b + DESC_AT..b + DESC_AT + DescLen(part)]).0.None?
    && var q := SegmentsEnd(f, b + HEADER_LEN, f[b + 1] as int, lim);
       && q.Some?
       && Tail(h, b, f, q.value, lim, DataXor(f, b + HEADER_LEN, f[b + 1] as int, lim, CHECKSUM_SEED), end)
  }

  // ---- The machine accepts exactly that --------------------------------------------------------------

  lemma FeedSplit(h: Hashes, w: Walk, f: seq<Byte>, p: nat, m: nat, lim: nat)
    requires WalkOk(w) && p <= m <= lim <= |f|
    ensures Feed(h, w, f[p..lim]) == Feed(h, Feed(h, w, f[p..m]), f[m..lim])
  {
    FeedConcat(h, w, f[p..m], f[m..lim]);
    assert f[p..lim] == f[p..m] + f[m..lim];
  }

  predicate Plain(p: Phase) { p.Header? || p.SegHeader? || p.Pad? || p.Digest? }

  /** Bytes of a span that is only collected. */
  lemma {:induction false} PlainFeed(h: Hashes, w: Walk, s: seq<Byte>)
    requires WalkOk(w) && w.Walking? && Plain(w.phase) && s != [] && At(w) + |s| <= w.spanEnd
    ensures var v := w.(img := w.img + s);
            Feed(h, w, s) == if At(w) + |s| == w.spanEnd then NextWalk(h, v) else v
    decreases |s|
  {
    hide NextWalk, NextSpan, Describe;
    if |s| == 1 {
      assert s == [s[0]] && s[1..] == [];
    } else {
      PlainFeed(h, StepWalk(h, w, s[0]), s[1..]);
      assert w.img + [s[0]] + s[1..] == w.img + s;
    }
  }

  /** Bytes of a segment, the description not among them. */
  lemma {:induction false} DataFeed(h: Hashes, w: Walk, s: seq<Byte>)
    requires WalkOk(w) && w.Walking? && w.phase.SegData? && s != [] && At(w) + |s| <= w.spanEnd
    requires w.index > 0 || |w.img| + |s| < DESC_AT + DescLen(w.part) || DESC_AT + DescLen(w.part) <= |w.img|
    ensures var v := w.(img := w.img + s, checksum := XorAll(w.checksum, s));
            Feed(h, w, s) == if At(w) + |s| == w.spanEnd then NextWalk(h, v) else v
    decreases |s|
  {
    hide NextWalk, NextSpan, Describe, Xor;
    if |s| == 1 {
      assert s == [s[0]] && s[1..] == [];
    } else {
      DataFeed(h, StepWalk(h, w, s[0]), s[1..]);
      assert w.img + [s[0]] + s[1..] == w.img + s;
    }
  }

  lemma {:induction false} XorAllConcat(seed: Byte, a: seq<Byte>, b: seq<Byte>)
    ensures XorAll(seed, a + b) == XorAll(XorAll(seed, a), b)
    decreases |a|
  {
    hide Xor;
    if a == [] {
      assert a + b == b;
    } else {
      XorAllConcat(Xor(seed, a[0]), a[1..], b);
      assert (a + b)[1..] == a[1..] + b;
    }
  }

  /** The walk has read f up to p, and nothing else. */
  predicate Reads(w: Walk, f: seq<Byte>, p: nat) {
    w.Walking? && Base(w.part) <= p <= |f| && w.img == f[Base(w.part)..p]
  }

  lemma ReadsOn(w: Walk, f: seq<Byte>, p: nat, m: nat)
    requires Reads(w, f, p) && p <= m <= |f|
    ensures w.img + f[p..m] == f[Base(w.part)..m]
  {
  }

  /** The spans after the last segment; the padding may be none. */
  function AtPad(w: Walk, q: nat): (v: Walk)
    requires w.Walking? && Base(w.part) <= q
    ensures v.Walking?
  {
    w.(index := w.index + 1, phase := Pad, spanStart := q, spanEnd := ChecksumAt(Base(w.part), q))
  }

  function AtChecksum(w: Walk, c: nat): (v: Walk)
    requires w.Walking?
    ensures v.Walking?
  {
    w.(index := w.index + 1, phase := Checksum, spanStart := c, spanEnd := c + 1)
  }

  lemma TailStart(h: Hashes, w: Walk, q: nat)
    requires w.Walking? && w.phase.SegData? && w.index + 1 == w.count && SpanFull(w) && At(w) == q
    ensures NextWalk(h, w) == if ChecksumAt(Base(w.part), q) == q then AtChecksum(w, q) else AtPad(w, q)
  {
    var v := NextSpan(h, w);
    assert v == AtPad(w, q);
    if v.spanStart == v.spanEnd {
      assert NextSpan(h, v) == AtChecksum(w, q);
    }
  }

  /** The end of the last segment. */
  lemma TailAccepted(h: Hashes, w: Walk, f: seq<Byte>, q: nat, lim: nat, e: nat)
    requires w.Walking? && w.phase.SegData? && w.index + 1 == w.count && SpanFull(w) && Reads(w, f, q)
        && q <= lim <= |f|
    requires Base(w.part) + HEADER_LEN <= q
    ensures WalkOk(NextWalk(h, w))
    ensures var v := Feed(h, NextWalk(h, w), f[q..lim]);
            (v.Done? && v.end == e <==> Tail(h, Base(w.part), f, q, lim, w.checksum, e))
                && (v.Done? ==> v.texts == w.texts)
  {
    NextWalkOk(h, w);
    TailStart(h, w, q);
    var c := ChecksumAt(Base(w.part), q);
    if c < lim {
      TailLongEnough(h, w, f, q, lim, e);
    } else if q < lim {
      PadNotDone(h, AtPad(w, q), f, q, lim);
    } else {
      assert f[q..lim] == [];
    }
    hide NextWalk, NextSpan, StepWalk, Feed;
  }

  lemma TailLongEnough(h: Hashes, w: Walk, f: seq<Byte>, q: nat, lim: nat, e: nat)
    requires w.Walking? && w.phase.SegData? && w.index + 1 == w.count && SpanFull(w) && Reads(w, f, q)
    requires Base(w.part) + HEADER_LEN <= q && ChecksumAt(Base(w.part), q) < lim <= |f|
    ensures WalkOk(NextWalk(h, w))
    ensures var v := Feed(h, NextWalk(h, w), f[q..lim]);
            (v.Done? && v.end == e <==> Tail(h, Base(w.part), f, q, lim, w.checksum, e))
                && (v.Done? ==> v.texts == w.texts)
  {
    hide NextWalk, NextSpan, StepWalk, Feed, ChecksumAt;
    NextWalkOk(h, w);
    TailStart(h, w, q);
    var b := Base(w.part);
    var c := ChecksumAt(b, q);
    ReadsOn(w, f, q, c);
    var at := AtChecksum(w, c);
    var chk := at.(img := f[b..c]);
    ChecksumAccepted(h, chk, f, c, lim, e);
    if c > q {
      FeedSplit(h, AtPad(w, q), f, q, c, lim);
      PlainFeed(h, AtPad(w, q), f[q..c]);
      PadToChecksum(h, w, f, q);
    } else {
      assert chk == at;
    }
  }

  lemma PadNotDone(h: Hashes, w: Walk, f: seq<Byte>, q: nat, lim: nat)
    requires WalkOk(w) && w.Walking? && w.phase.Pad? && Reads(w, f, q) && q < lim <= |f| && w.spanStart == q
    requires lim <= w.spanEnd
    ensures !Feed(h, w, f[q..lim]).Done?
  {
    PlainFeed(h, w, f[q..lim]);
  }

  lemma PadToChecksum(h: Hashes, w: Walk, f: seq<Byte>, q: nat)
    requires w.Walking? && Reads(w, f, q) && At(w) == q && Base(w.part) + HEADER_LEN <= q
    requires q < ChecksumAt(Base(w.part), q) <= |f|
    ensures var c := ChecksumAt(Base(w.part), q);
            NextWalk(h, AtPad(w, q).(img := w.img + f[q..c])) == AtChecksum(w, c).(img := w.img + f[q..c])
  {
  }

  lemma ChecksumAccepted(h: Hashes, w: Walk, f: seq<Byte>, c: nat, lim: nat, e: nat)
    requires WalkOk(w) && w.Walking? && w.phase.Checksum? && Reads(w, f, c) && c == w.spanStart < lim <= |f|
    ensures var v := Feed(h, w, f[c..lim]);
            && (v.Done? && v.end == e <==>
                  e == c + 1 + DIGEST_LEN <= lim && f[c] == w.checksum
                  && h.sha(f[Base(w.part)..c + 1]) == f[c + 1..e])
            && (v.Done? ==> v.texts == w.texts)
  {
    var b := Base(w.part);
    FeedSplit(h, w, f, c, c + 1, lim);
    assert f[c..c + 1] == [f[c]] && [f[c]][1..] == [];
    ReadsOn(w, f, c, c + 1);
    var v := StepWalk(h, w, f[c]);
    assert Feed(h, w, f[c..c + 1]) == v;
    if f[c] != w.checksum {
      FeedOver(h, v, f[c + 1..lim]);
    } else {
      var d := w.(img := f[b..c + 1], phase := Digest, spanStart := c + 1, spanEnd := c + 1 + DIGEST_LEN);
      assert v == d;
      DigestAccepted(h, d, f, c + 1, lim, e);
    }
  }

  lemma DigestAccepted(h: Hashes, w: Walk, f: seq<Byte>, p: nat, lim: nat, e: nat)
    requires WalkOk(w) && w.Walking? && w.phase.Digest? && Reads(w, f, p) && p == w.spanStart <= lim <= |f|
    ensures var v := Feed(h, w, f[p..lim]);
            && (v.Done? && v.end == e <==> e == p + DIGEST_LEN <= lim && h.sha(f[Base(w.part)..p]) == f[p..e])
            && (v.Done? ==> v.texts == w.texts)
  {
    var b := Base(w.part);
    var m := p + DIGEST_LEN;
    hide StepWalk;
    if lim < m {
      if p < lim {
        PlainFeed(h, w, f[p..lim]);
      }
    } else {
      FeedSplit(h, w, f, p, m, lim);
      PlainFeed(h, w, f[p..m]);
      ReadsOn(w, f, p, m);
      var full := w.(img := f[b..m]);
      assert full.img[..p - b] == f[b..p] && full.img[p - b..] == f[p..m];
      FeedOver(h, NextWalk(h, full), f[m..lim]);
    }
  }

  /** A segment header read to its end. */
  lemma HeaderRead(h: Hashes, w: Walk, f: seq<Byte>, p: nat)
    requires WalkOk(w) && w.Walking? && w.phase.SegHeader? && Reads(w, f, p) && w.spanStart == p
    requires p + SEGMENT_HEADER_LEN <= |f|
    ensures var m := p + SEGMENT_HEADER_LEN;
            var v := w.(img := f[Base(w.part)..m]);
            SpanFull(v) && v.img[p - Base(w.part)..][4..8] == f[p + 4..p + 8] && Feed(h, w, f[p..m]) == NextWalk(h, v)
  {
    var m := p + SEGMENT_HEADER_LEN;
    PlainFeed(h, w, f[p..m]);
    ReadsOn(w, f, p, m);
    assert f[Base(w.part)..m][p - Base(w.part)..] == f[p..m];
  }

  /** Fewer bytes than a span needs are never the end. */
  lemma ShortHeaderNotDone(h: Hashes, w: Walk, f: seq<Byte>, p: nat, lim: nat)
    requires WalkOk(w) && w.Walking? && Plain(w.phase) && Reads(w, f, p) && p <= lim <= |f| && lim < w.spanEnd
    ensures Feed(h, w, f[p..lim]).Walking?
  {
    if p < lim {
      PlainFeed(h, w, f[p..lim]);
    }
  }

  /** The walk after the data of a segment of which nothing is left. */
  function AtSegmentEnd(w: Walk, f: seq<Byte>, m: nat, q: nat): (d: Walk)
    requires w.Walking? && Base(w.part) <= m <= q <= |f|
    ensures d.Walking?
  {
    w.(phase := SegData, spanStart := m, spanEnd := q, img := f[Base(w.part)..q],
        checksum := XorAll(w.checksum, f[m..q]))
  }

  /** A segment that is not the first, read whole. */
  lemma SegmentRead(h: Hashes, w: Walk, f: seq<Byte>, p: nat, lim: nat)
    requires WalkOk(w) && w.Walking? && w.phase.SegHeader? && Reads(w, f, p) && w.spanStart == p && w.index > 0
    requires p + SEGMENT_HEADER_LEN <= lim <= |f| && lim == w.limit <= MAX_BYTES
    ensures var m := p + SEGMENT_HEADER_LEN;
            var q := m + LengthAt(f, p);
            if q > lim then Feed(h, w, f[p..lim]).Faulted?
            else
              var d := AtSegmentEnd(w, f, m, q);
              && SpanFull(d) && Reads(d, f, q) && WalkOk(NextWalk(h, d))
              && Feed(h, w, f[p..lim]) == Feed(h, NextWalk(h, d), f[q..lim])
  {
    hide NextWalk, NextSpan, Feed, StepWalk, FromLe, XorAll;
    var b := Base(w.part);
    var m := p + SEGMENT_HEADER_LEN;
    var q := m + LengthAt(f, p);
    HeaderRead(h, w, f, p);
    FeedSplit(h, w, f, p, m, lim);
    var full := w.(img := f[b..m]);
    if q > lim {
      SegmentRefused(h, full, m, q);
      FeedOver(h, NextWalk(h, full), f[m..lim]);
    } else {
      SegmentDataRead(h, w, f, m, q, lim);
      SegmentBegins(h, full, m, q);
      if m == q {
        assert AtSegmentEnd(w, f, m, q) == full.(phase := SegData, spanStart := m, spanEnd := q);
      }
    }
  }

  lemma SegmentRefused(h: Hashes, full: Walk, m: nat, q: nat)
    requires SpanFull(full) && full.phase.SegHeader? && full.spanEnd == m && (full.index > 0 || full.part.App?)
    requires FromLe(full.img[full.spanStart - Base(full.part)..][4..8]) == q - m && m <= q && full.limit < q
    ensures NextWalk(h, full).Faulted?
  {
  }

  lemma SegmentBegins(h: Hashes, full: Walk, m: nat, q: nat)
    requires SpanFull(full) && full.phase.SegHeader? && full.spanEnd == m && full.index > 0
    requires FromLe(full.img[full.spanStart - Base(full.part)..][4..8]) == q - m && m <= q <= full.limit <= MAX_BYTES
    ensures var d := full.(phase := SegData, spanStart := m, spanEnd := q);
            NextWalk(h, full) == if m == q then NextWalk(h, d) else d
  {
  }

  lemma SegmentDataRead(h: Hashes, w: Walk, f: seq<Byte>, m: nat, q: nat, lim: nat)
    requires WalkOk(w) && w.Walking? && Base(w.part) + HEADER_LEN <= m <= q <= lim <= |f| && w.index > 0
    ensures var v := w.(phase := SegData, spanStart := m, spanEnd := q, img := f[Base(w.part)..m]);
            var d := AtSegmentEnd(w, f, m, q);
            && SpanFull(d) && Reads(d, f, q) && WalkOk(NextWalk(h, d))
            && (m < q ==> WalkOk(v) && Feed(h, v, f[m..lim]) == Feed(h, NextWalk(h, d), f[q..lim]))
            && (m == q ==> d == v)
  {
    var v := w.(phase := SegData, spanStart := m, spanEnd := q, img := f[Base(w.part)..m]);
    var d := AtSegmentEnd(w, f, m, q);
    hide NextWalk, NextSpan, StepWalk;
    NextWalkOk(h, d);
    if m < q {
      FeedSplit(h, v, f, m, q, lim);
      DataFeed(h, v, f[m..q]);
      ReadsOn(v, f, m, q);
    }
  }

  function AtNextSegment(d: Walk, q: nat): (next: Walk)
    requires d.Walking?
    ensures next.Walking?
  {
    d.(index := d.index + 1, phase := SegHeader, spanStart := q, spanEnd := q + SEGMENT_HEADER_LEN)
  }

  lemma NextSegment(h: Hashes, d: Walk, q: nat)
    requires SpanFull(d) && d.phase.SegData? && d.spanEnd == q && d.index + 1 < d.count
    ensures NextWalk(h, d) == AtNextSegment(d, q)
  {
  }

  /** All segments but the first, and what follows them. */
  lemma {:induction false} SegmentsAccepted(h: Hashes, w: Walk, f: seq<Byte>, p: nat, lim: nat, e: nat)
    requires WalkOk(w) && w.Walking? && w.phase.SegHeader? && Reads(w, f, p) && w.spanStart == p <= lim
    requires 0 < w.index < w.count && lim <= |f| && lim == w.limit <= MAX_BYTES
    ensures var v := Feed(h, w, f[p..lim]);
            var q := SegmentsEnd(f, p, w.count - w.index, lim);
            && (v.Done? && v.end == e <==>
                  q.Some? && Tail(h, Base(w.part), f, q.value, lim,
                      DataXor(f, p, w.count - w.index, lim, w.checksum), e))
            && (v.Done? ==> v.texts == w.texts)
    decreases w.count - w.index
  {
    hide StepWalk, Feed, Tail, NextWalk, NextSpan;
    var m := p + SEGMENT_HEADER_LEN;
    if m > lim {
      ShortHeaderNotDone(h, w, f, p, lim);
    } else {
      SegmentRead(h, w, f, p, lim);
      var q := m + LengthAt(f, p);
      if q <= lim {
        var d := AtSegmentEnd(w, f, m, q);
        if w.index + 1 == w.count {
          TailAccepted(h, d, f, q, lim, e);
          assert SegmentsEnd(f, q, 0, lim) == Some(q);
        } else {
          NextSegment(h, d, q);
          SegmentsAccepted(h, AtNextSegment(d, q), f, q, lim, e);
        }
      }
    }
  }

  // ---- The first segment and the whole image --------------------------------------------------------

  /**
   * A piece of a segment's data, of any length: the description is looked at with the byte that
   * completes it, and what follows in the same piece makes no difference to what it says.
   */
  lemma DataChunk(h: Hashes, w: Walk, p: seq<Byte>)
    requires WalkOk(w) && w.Walking? && w.phase.SegData? && p != [] && At(w) + |p| <= w.spanEnd
    ensures var d := DESC_AT + DescLen(w.part);
            var hit := w.index == 0 && |w.img| < d <= |w.img| + |p|;
            var (fault, texts) := if hit then Describe(w.part, (w.img + p)[DESC_AT..d]) else (None, w.texts);
            var v := w.(img := w.img + p, checksum := XorAll(w.checksum, p), texts := texts);
            Feed(h, w, p) ==
              if fault.Some? then Faulted(fault.value, texts) else if At(w) + |p| == w.spanEnd then NextWalk(h, v)
                  else v
  {
    hide NextWalk, NextSpan, Describe, Xor, StepWalk, Feed;
    var d := DESC_AT + DescLen(w.part);
    if w.index == 0 && |w.img| < d <= |w.img| + |p| {
      var k := d - |w.img| - 1;
      var before := w.(img := w.img + p[..k], checksum := XorAll(w.checksum, p[..k]));
      if k > 0 {
        DataFeed(h, w, p[..k]);
      } else {
        FeedNothing(h, w);
        assert before == w;
      }
      FeedConcat(h, w, p[..k], p[k..]);
      assert p[..k] + p[k..] == p;
      DescribedChunk(h, before, p[k..]);
      XorAllConcat(w.checksum, p[..k], p[k..]);
      assert w.img + p[..k] + p[k..] == w.img + p;
    } else {
      DataFeed(h, w, p);
    }
  }

  lemma FeedNothing(h: Hashes, w: Walk)
    requires WalkOk(w)
    ensures Feed(h, w, []) == w
  {
  }

  /** ... from the byte that completes the description. */
  lemma DescribedChunk(h: Hashes, w: Walk, p: seq<Byte>)
    requires WalkOk(w) && w.Walking? && w.phase.SegData? && p != [] && At(w) + |p| <= w.spanEnd
    requires w.index == 0 && |w.img| + 1 == DESC_AT + DescLen(w.part)
    ensures var (fault, texts) := Describe(w.part, (w.img + p)[DESC_AT..|w.img| + 1]);
            var v := w.(img := w.img + p, checksum := XorAll(w.checksum, p), texts := texts);
            Feed(h, w, p) ==
              if fault.Some? then Faulted(fault.value, texts) else if At(w) + |p| == w.spanEnd then NextWalk(h, v)
                  else v
  {
    hide NextWalk, NextSpan, Describe, Xor;
    assert (w.img + p)[DESC_AT..|w.img| + 1] == (w.img + [p[0]])[DESC_AT..];
    var (fault, texts) := Describe(w.part, (w.img + [p[0]])[DESC_AT..]);
    var rest := p[1..];
    var v := StepWalk(h, w, p[0]);
    assert Feed(h, w, p) == Feed(h, v, rest) by { StepWalkOk(h, w, p[0]); }
    if fault.Some? {
      FeedOver(h, v, rest);
    } else if rest != [] {
      DataFeed(h, v, rest);
      assert w.img + [p[0]] + rest == w.img + p;
    } else {
      assert p == [p[0]];
    }
  }

  /** The first segment refused: not long enough for the description, or past the end. */
  predicate FirstRefused(w: Walk, len: nat)
    requires w.Walking?
  {
    len > MAX_BYTES || (w.part.App? && len > w.limit - w.spanEnd) || len < DescLen(w.part)
  }

  lemma FirstBegins(h: Hashes, full: Walk, m: nat, len: nat)
    requires SpanFull(full) && full.phase.SegHeader? && full.spanEnd == m && full.index == 0
    requires FromLe(full.img[full.spanStart - Base(full.part)..][4..8]) == len
    ensures if FirstRefused(full, len) then NextWalk(h, full).Faulted?
            else NextWalk(h, full) == full.(phase := SegData, spanStart := m, spanEnd := m + len)
  {
  }

  /** From the header of the first segment on. */
  lemma FirstAccepted(h: Hashes, w: Walk, f: seq<Byte>, lim: nat, e: nat)
    requires WalkOk(w) && w.Walking? && w.phase.SegHeader? && w.index == 0 && 0 < w.count
    requires var p := Base(w.part) + HEADER_LEN;
             Reads(w, f, p) && w.spanStart == p <= lim <= |f| && lim == w.limit <= MAX_BYTES
    ensures var p := Base(w.part) + HEADER_LEN;
            var m := p + SEGMENT_HEADER_LEN;
            var y := m + DescLen(w.part);
            var v := Feed(h, w, f[p..lim]);
            && (v.Done? && v.end == e <==>
                  && y <= lim && DescLen(w.part) <= LengthAt(f, p) && Describe(w.part, f[m..y]).0.None?
                  && var q := SegmentsEnd(f, p, w.count, lim);
                     q.Some? && Tail(h, Base(w.part), f, q.value, lim, DataXor(f, p, w.count, lim, w.checksum), e))
            && (v.Done? ==> y <= lim && v.texts == Describe(w.part, f[m..y]).1)
  {
    hide StepWalk, Feed, Tail, Describe, NextSpan, NextWalk;
    var b := Base(w.part);
    var p := b + HEADER_LEN;
    var m := p + SEGMENT_HEADER_LEN;
    if m > lim {
      ShortHeaderNotDone(h, w, f, p, lim);
    } else {
      var len := LengthAt(f, p);
      HeaderRead(h, w, f, p);
      FeedSplit(h, w, f, p, m, lim);
      var full := w.(img := f[b..m]);
      FirstBegins(h, full, m, len);
      if FirstRefused(full, len) {
        FeedOver(h, NextWalk(h, full), f[m..lim]);
      } else {
        FirstDataAccepted(h, full.(phase := SegData, spanStart := m, spanEnd := m + len), f, m, lim, e);
      }
    }
  }

  lemma FirstDataAccepted(h: Hashes, v: Walk, f: seq<Byte>, m: nat, lim: nat, e: nat)
    requires WalkOk(v) && v.Walking? && v.phase.SegData? && v.index == 0 && 0 < v.count
    requires m == Base(v.part) + DESC_AT == v.spanStart && Reads(v, f, m) && m <= lim <= |f|
        && lim == v.limit <= MAX_BYTES
    ensures var y := m + DescLen(v.part);
            var q := v.spanEnd;
            var r := Feed(h, v, f[m..lim]);
            && (r.Done? && r.end == e <==>
                  && q <= lim && Describe(v.part, f[m..y]).0.None?
                  && var q' := SegmentsEnd(f, q, v.count - 1, lim);
                     && q'.Some?
                     && Tail(h, Base(v.part), f, q'.value, lim,
                          DataXor(f, q, v.count - 1, lim, XorAll(v.checksum, f[m..q])), e))
            && (r.Done? ==> y <= lim && r.texts == Describe(v.part, f[m..y]).1)
  {
    hide StepWalk, Feed, Tail, Describe, NextSpan, NextWalk;
    var b := Base(v.part);
    var y := m + DescLen(v.part);
    var q := v.spanEnd;
    if lim < q {
      if m < lim {
        DataChunk(h, v, f[m..lim]);
      } else {
        assert f[m..lim] == [];
        FeedNothing(h, v);
      }
    } else {
      FeedSplit(h, v, f, m, q, lim);
      DataChunk(h, v, f[m..q]);
      ReadsOn(v, f, m, q);
      assert f[b..q][DESC_AT..DESC_AT + DescLen(v.part)] == f[m..y];
      var (fault, texts) := Describe(v.part, f[m..y]);
      if fault.Some? {
        FeedOver(h, Feed(h, v, f[m..q]), f[q..lim]);
      } else {
        var d := v.(img := f[b..q], checksum := XorAll(v.checksum, f[m..q]), texts := texts);
        RestAccepted(h, d, f, q, lim, e);
      }
    }
  }

  /** After the first segment. */
  lemma RestAccepted(h: Hashes, d: Walk, f: seq<Byte>, q: nat, lim: nat, e: nat)
    requires SpanFull(d) && d.phase.SegData? && d.index == 0 && 0 < d.count && Reads(d, f, q)
    requires Base(d.part) + HEADER_LEN <= q <= lim <= |f| && lim == d.limit <= MAX_BYTES
    ensures WalkOk(NextWalk(h, d))
    ensures var r := Feed(h, NextWalk(h, d), f[q..lim]);
            var q' := SegmentsEnd(f, q, d.count - 1, lim);
            && (r.Done? && r.end == e <==>
                  && q'.Some? && Tail(h, Base(d.part), f, q'.value, lim,
                       DataXor(f, q, d.count - 1, lim, d.checksum), e))
            && (r.Done? ==> r.texts == d.texts)
  {
    hide StepWalk, Feed, Tail, NextSpan, NextWalk;
    if d.count == 1 {
      TailAccepted(h, d, f, q, lim, e);
      assert SegmentsEnd(f, q, 0, lim) == Some(q);
    } else {
      NextSegment(h, d, q);
      SegmentsAccepted(h, AtNextSegment(d, q), f, q, lim, e);
    }
  }

  /** From the base on, a walk ends at e exactly if there is an image that ends at e. */
  lemma WalkAcceptsImages(h: Hashes, part: Part, f: seq<Byte>, lim: nat, e: nat)
    requires Base(part) <= lim <= |f| && lim <= MAX_BYTES
    ensures var v := Feed(h, StartWalk(part, lim), f[Base(part)..lim]);
            && (v.Done? && v.end == e <==> IsImage(h, part, f, lim, e))
            && (v.Done? ==>
                  var m := Base(part) + DESC_AT;
                  m + DescLen(part) <= lim && v.texts == Describe(part, f[m..m + DescLen(part)]).1)
  {
    hide StepWalk, Feed, Tail, Describe, NextSpan, NextWalk;
    var b := Base(part);
    var p := b + HEADER_LEN;
    var w := StartWalk(part, lim);
    if lim < p {
      assert f[b..b] == [];
      ShortHeaderNotDone(h, w, f, b, lim);
    } else {
      FeedSplit(h, w, f, b, p, lim);
      PlainFeed(h, w, f[b..p]);
      assert [] + f[b..p] == f[b..p];
      var full := w.(img := f[b..p]);
      ImageHeaderRead(h, full, f);
      if HeaderOk(f, b) {
        var next := full.(count := f[b + 1] as int, phase := SegHeader, spanStart := p,
            spanEnd := p + SEGMENT_HEADER_LEN);
        FirstAccepted(h, next, f, lim, e);
      } else {
        FeedOver(h, NextWalk(h, full), f[p..lim]);
      }
    }
  }

  lemma ImageHeaderRead(h: Hashes, full: Walk, f: seq<Byte>)
    requires SpanFull(full) && full.phase.Header? && full.index == 0
    requires var b := Base(full.part); b + HEADER_LEN <= |f| && full.img == f[b..b + HEADER_LEN]
                                       && full.spanEnd == b + HEADER_LEN
    ensures var b := Base(full.part);
            var p := b + HEADER_LEN;
            if HeaderOk(f, b)
            then NextWalk(h, full) == full.(count := f[b + 1] as int, phase := SegHeader, spanStart := p,
                                            spanEnd := p + SEGMENT_HEADER_LEN)
            else NextWalk(h, full).Faulted?
  {
    HeaderFaultOf(full.part, f, Base(full.part));
    assert full.img[0..] == full.img;
    hide HeaderFault, HeaderOk;
  }

  lemma HeaderFaultOf(part: Part, f: seq<Byte>, b: nat)
    requires b + HEADER_LEN <= |f|
    ensures HeaderFault(part, f[b..b + HEADER_LEN]).None? <==> HeaderOk(f, b)
  {
    hide FromLe;
    var hd := f[b..b + HEADER_LEN];
    assert hd[12..14] == [hd[12], hd[13]] && f[b + 12..b + 14] == [f[b + 12], f[b + 13]];
  }
}
