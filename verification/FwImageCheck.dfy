/** fw_image.c as it runs: a file in pieces of any size, and only what the check needs of them kept. */
module FwImageCheck {
  import opened Bytes
  import opened Options
  import opened EspImage
  import opened FwImage
  import opened FwPieces

  /** copy_text() */
  method CopyText(src: seq<Byte>, allowEmpty: bool) returns (text: Option<seq<Byte>>)
    requires |src| == TEXT_MAX
    ensures text == Text(src, allowEmpty)
  {
    var n := 0;
    while n < TEXT_MAX && src[n] != 0
      invariant n <= TEXT_MAX && TextLen(src, 0) == TextLen(src, n)
      invariant forall i | 0 <= i < n :: Printable(src[i])
    {
      if src[n] < 0x20 || src[n] > 0x7E {
        return None;
      }
      n := n + 1;
    }
    if n == TEXT_MAX || (n == 0 && !allowEmpty) {
      return None;
    }
    return Some(src[..n]);
  }

  /** all_erased() */
  method AllErased(p: seq<Byte>) returns (erased: bool)
    ensures erased == Erased(p)
  {
    var i := 0;
    while i < |p|
      invariant i <= |p| && Erased(p[..i])
    {
      if p[i] != 0xFF {
        return false;
      }
      i := i + 1;
    }
    assert p[..|p|] == p;
    return true;
  }

  /** A walk that ends with a piece of a span ends where the piece does. */
  lemma PieceEnds(h: Hashes, w: Walk, p: seq<Byte>)
    requires WalkOk(w) && w.Walking? && p != [] && At(w) + |p| <= w.spanEnd
    ensures Feed(h, w, p).Done? ==> Feed(h, w, p).end == At(w) + |p|
  {
    hide StepWalk, NextWalk, NextSpan, Describe, Feed;
    var k := |p| - 1;
    assert p == p[..k] + [p[k]];
    FeedByte(h, w, p[..k], p[k]);
    FeedAt(h, w, p[..k]);
    if k > 0 {
      if w.phase.SegData? {
        DataChunk(h, w, p[..k]);
      } else {
        PlainFeed(h, w, p[..k]);
      }
    } else {
      FeedNothing(h, w);
    }
    var v := Feed(h, w, p[..k]);
    if v.Walking? {
      StepWalkShape(h, v, p[k]);
    } else {
      assert !v.Done?;
      FaultedStays(h, v, p[k]);
    }
  }

  lemma FaultedStays(h: Hashes, w: Walk, b: Byte)
    requires w.Faulted?
    ensures StepWalk(h, w, b) == w
  {
  }

  /** memcpy() into a buffer, from index `at` on. */
  method CopyInto(a: array<Byte>, at: nat, p: seq<Byte>)
    requires at + |p| <= a.Length
    modifies a
    ensures a[..at + |p|] == old(a[..at]) + p
  {
    var i := 0;
    while i < |p|
      invariant i <= |p| && a[..at + i] == old(a[..at]) + p[..i]
    {
      a[at + i] := p[i];
      i := i + 1;
    }
    assert p[..|p|] == p;
  }

  /** struct fw_image_walk; `fed` is what the checksum and the digest have seen. */
  class Walker {
    const part: Part
    const limit: nat
    var phase: Phase
    var done: bool
    var segCount: nat
    var segIndex: nat
    var checksum: Byte
    var spanStart: nat
    var spanEnd: nat
    var end: nat
    // What has been collected of a header or digest, and of the description.
    var cap: seq<Byte>
    var desc: seq<Byte>
    var sha: seq<Byte>
    var texts: Texts
    ghost var img: seq<Byte>

    /** What has been read so far, as the byte-by-byte walk remembers it. */
    ghost function View(): Walk
      reads this
    {
      if done then Done(part, end, texts)
      else Walking(part, limit, phase, segCount, segIndex, checksum, img, spanStart, spanEnd, texts)
    }

    ghost predicate Collecting() reads this { phase.Header? || phase.SegHeader? || phase.Digest? }

    /** The two buffers, of 32 and 176 bytes, hold what the rest of the walk needs, and it fits. */
    ghost predicate Kept()
      reads this
    {
      var b := Base(part);
      && |cap| <= 32 && |desc| <= DescLen(part) <= 176
      && b <= spanStart <= b + |img| <= spanEnd
      && sha == (if phase.Digest? then img[..spanStart - b] else img)
      && (Collecting() ==> spanEnd <= spanStart + 32 && cap == img[spanStart - b..])
      && (phase.Header? ==> segIndex == 0)
      && (segIndex == 0 && |img| <= DESC_AT ==> desc == [])
      && (segIndex == 0 && |img| < DESC_AT + DescLen(part) ==> texts == Texts([], [], []))
      && (phase.SegData? && segIndex == 0 ==>
            && spanStart == b + DESC_AT
            && desc == img[DESC_AT..if |img| < DESC_AT + DescLen(part) then |img| else DESC_AT + DescLen(part)])
    }

    ghost predicate Valid()
      reads this
    {
      WalkOk(View()) && (!done ==> Kept())
    }

    constructor (part: Part, limit: nat)
      ensures Valid() && View() == StartWalk(part, limit)
      ensures this.part == part && this.limit == limit
    {
      hide WalkOk;
      this.part, this.limit := part, limit;
      phase, done, segCount, segIndex, checksum := Header, false, 0, 0, CHECKSUM_SEED;
      spanStart, spanEnd, end := Base(part), Base(part) + HEADER_LEN, 0;
      cap, desc := [], [];
      sha, texts, img := [], Texts([], [], []), [];
      new;
      assert View() == StartWalk(part, limit);
    }

    /** set_span() */
    method SetSpan(p: Phase, len: nat)
      modifies `phase, `spanStart, `spanEnd, `cap
      ensures phase == p && spanStart == old(spanEnd) && spanEnd == old(spanEnd) + len && cap == []
      ensures !done ==> View() == Span(old(View()), p, len)
    {
      phase := p;
      spanStart := spanEnd;
      spanEnd := spanStart + len;
      cap := [];
    }

    /** check_description() */
    method CheckDescription() returns (fault: Option<Message>)
      requires |desc| == DescLen(part) && texts == Texts([], [], [])
      modifies `texts
      ensures (fault, texts) == Describe(part, desc)
    {
      if part.Boot? {
        if desc[0] == BOOT_DESC_MAGIC {
          return None;
        }
        return if FromLe(desc[..4]) == APP_DESC_MAGIC then Some(BareApplication) else Some(NoBootDescription);
      }
      if FromLe(desc[..4]) != APP_DESC_MAGIC {
        return Some(NoAppDescription);
      }
      var text := CopyText(desc[16..48], false);
      if text.None? {
        return Some(DescriptionNotText);
      }
      texts := texts.(version := text.value);
      text := CopyText(desc[48..80], false);
      if text.None? {
        return Some(DescriptionNotText);
      }
      texts := texts.(project := text.value);
      text := CopyText(desc[112..144], true);
      if text.None? {
        return Some(DescriptionNotText);
      }
      texts := texts.(idf := text.value);
      return None;
    }

    /** What walk_next() may count on when a span is complete. */
    ghost predicate Ready()
      reads this
    {
      && !done && Kept() && SpanFull(View()) && Base(part) + HEADER_LEN <= spanEnd <= limit
      && (phase.SegHeader? && segIndex == 0 ==> spanStart == Base(part) + HEADER_LEN)
    }

    /** How a turn of walk_next() ends: a fault, the end of the image, or the next span. */
    twostate predicate Turned(h: Hashes, new fault: Option<Message>)
      reads this
    {
      && old(Ready())
      && NextSpan(h, old(View())) == (if fault.Some? then Faulted(fault.value, texts) else View())
      && texts == old(texts) && (fault.Some? ==> !done)
      && (fault.None? && !done ==>
            && Kept() && img == old(img) && spanStart == old(spanEnd)
            && (phase.SegHeader? && segIndex == 0 ==> spanStart == Base(part) + HEADER_LEN)
            && (spanStart == spanEnd ==> Rank(phase) < Rank(old(phase)) && SpanFull(View())))
    }

    static lemma HeaderSpan(h: Hashes, w: Walk)
      requires SpanFull(w) && w.phase.Header?
      ensures w.img[0..] == w.img && w.img[HEADER_LEN..] == []
      ensures var m := HeaderFault(w.part, w.img);
              NextSpan(h, w) == if m.Some? then Fault(w, m.value)
                                else Span(w.(count := w.img[1] as int, index := 0), SegHeader, SEGMENT_HEADER_LEN)
    {
      hide HeaderFault;
      assert w.img[w.spanStart - Base(w.part)..] == w.img;
    }

    method CheckHeader() returns (fault: Option<Message>)
      requires |cap| == HEADER_LEN
      ensures fault == HeaderFault(part, cap)
    {
      if cap[0] != IMAGE_MAGIC { return Some(NoImageHeader(part)); }
      if FromLe(cap[12..14]) != CHIP_ESP32C6 { return Some(OtherChip(part)); }
      if cap[1] == 0 || cap[1] as int > MAX_SEGMENTS { return Some(SegmentCount); }
      if cap[23] != 1 { return Some(NoAppendedDigest); }
      return None;
    }

    /** The counts are known: the first segment header is next. */
    method ToSegments(count: nat)
      requires Ready() && phase.Header? && |img| == HEADER_LEN && img[HEADER_LEN..] == []
      requires spanEnd == Base(part) + HEADER_LEN
      modifies `segCount, `segIndex, `phase, `spanStart, `spanEnd, `cap
      ensures Kept() && View() == Span(old(View()).(count := count, index := 0), SegHeader, SEGMENT_HEADER_LEN)
    {
      hide WalkOk, NextSpan, SpanFull;
      segCount := count;
      segIndex := 0;
      SetSpan(SegHeader, SEGMENT_HEADER_LEN);
    }

    method EndHeader(ghost h: Hashes) returns (fault: Option<Message>)
      requires Ready() && phase.Header?
      modifies this
      ensures Turned(h, fault)
    {
      hide HeaderFault, FromLe, NextSpan, WalkOk;
      HeaderSpan(h, View());
      fault := CheckHeader();
      if fault.None? {
        ToSegments(cap[1] as int);
      }
    }

    method EndSegmentHeader(ghost h: Hashes) returns (fault: Option<Message>)
      requires Ready() && phase.SegHeader?
      modifies this
      ensures Turned(h, fault)
    {
      var len := FromLe(cap[4..8]);
      var mayOverrun := part.Boot? && segIndex == 0;
      // The subtraction of unsigned numbers does not wrap: nothing is read past the limit.
      assert spanEnd <= limit;
      if len > MAX_BYTES || (!mayOverrun && len > limit - spanEnd) { return Some(SegmentOverruns(part)); }
      if segIndex == 0 && len < DescLen(part) { return Some(ShortFirstSegment); }
      SetSpan(SegData, len);
      return None;
    }

    method EndSegment(ghost h: Hashes) returns (fault: Option<Message>)
      requires Ready() && phase.SegData?
      modifies this
      ensures Turned(h, fault)
    {
      segIndex := segIndex + 1;
      if segIndex < segCount {
        SetSpan(SegHeader, SEGMENT_HEADER_LEN);
      } else {
        var rel := spanEnd - Base(part);
        var checksumAt := Base(part) + (rel / 16 + 1) * 16 - 1;
        SetSpan(Pad, checksumAt - spanEnd);
      }
      return None;
    }

    method EndDigest(h: Hashes) returns (fault: Option<Message>)
      requires Ready() && phase.Digest?
      modifies this
      ensures Turned(h, fault)
    {
      if h.sha(sha) != cap { return Some(DigestMismatch(part)); }
      end := spanEnd;
      done := true;
      return None;
    }

    /** One turn of walk_next(). */
    method EndSpan(h: Hashes) returns (fault: Option<Message>)
      requires Ready()
      modifies this
      ensures Turned(h, fault)
    {
      match phase {
        case Header => fault := EndHeader(h);
        case SegHeader => fault := EndSegmentHeader(h);
        case SegData => fault := EndSegment(h);
        case Pad =>
          SetSpan(Checksum, 1);
          fault := None;
        case Checksum =>
          SetSpan(Digest, DIGEST_LEN);
          fault := None;
        case Digest => fault := EndDigest(h);
      }
    }

    /** walk_next(): the span of the phase is complete; the next one that is not empty. */
    method WalkNext(h: Hashes) returns (fault: Option<Message>)
      requires Ready()
      modifies this
      ensures NextWalk(h, old(View())) == if fault.Some? then Faulted(fault.value, texts) else View()
      ensures fault.None? ==> Valid()
      ensures texts == old(texts) && (fault.None? && !done ==> img == old(img))
      ensures fault.Some? ==> !done
    {
      hide NextSpan, WalkOk, Kept;
      NextWalkOk(h, View());
      fault := EndSpan(h);
      while fault.None? && !done && spanStart == spanEnd
        invariant texts == old(texts) && (fault.Some? ==> !done)
        invariant fault.None? && !done ==> Kept() && img == old(img)
        invariant fault.None? && !done && spanStart == spanEnd ==> Ready()
        invariant NextWalk(h, old(View())) ==
            if fault.Some? then Faulted(fault.value, texts)
            else if !done && spanStart == spanEnd then NextWalk(h, View())
            else View()
        decreases if fault.None? && !done && spanStart == spanEnd then Rank(phase) + 1 else 0
      {
        fault := EndSpan(h);
      }
    }

    /** A piece of a span that is collected, padding included. */
    method TakePlain(p: seq<Byte>)
      requires Valid() && !done && Plain(phase) && p != [] && Base(part) + |img| + |p| <= spanEnd
      modifies this
      ensures Kept() && View() == old(View()).(img := old(img) + p)
    {
      hide WalkOk, DescLen;
      ghost var from := spanStart - Base(part);
      assert img[from..] + p == (img + p)[from..] && (phase.Digest? ==> (img + p)[..from] == img[..from]);
      if phase != Digest {
        sha := sha + p;
      }
      if phase != Pad {
        cap := cap + p;
      }
      img := img + p;
    }

    /** The part of a piece that belongs to the description; the description too, once it is complete. */
    method TakeDescription(pos: nat, p: seq<Byte>) returns (fault: Option<Message>)
      requires spanStart == Base(part) + DESC_AT && texts == Texts([], [], [])
      requires pos == Base(part) + |img| && DESC_AT <= |img| < DESC_AT + DescLen(part) && desc == img[DESC_AT..]
      modifies `texts, `desc
      ensures var d := DESC_AT + DescLen(part);
              && (fault, texts) == (if d <= |img| + |p| then Describe(part, (img + p)[DESC_AT..d])
                   else (None, old(texts)))
              && desc == (img + p)[DESC_AT..if |img| + |p| < d then |img| + |p| else d]
    {
      hide Describe;
      var descLen := DescLen(part);
      var into := pos - spanStart;
      var k := if |p| < descLen - into then |p| else descLen - into;
      desc := desc + p[..k];
      assert (img + p)[DESC_AT..DESC_AT + into + k] == img[DESC_AT..] + p[..k];
      fault := None;
      if |desc| == descLen {
        fault := CheckDescription();
      }
    }

    /** A piece of a segment's data. */
    method TakeData(pos: nat, p: seq<Byte>) returns (fault: Option<Message>)
      requires Valid() && !done && phase.SegData? && p != [] && pos == Base(part) + |img| && pos + |p| <= spanEnd
      modifies this
      ensures var d := DESC_AT + DescLen(part);
              var hit := segIndex == 0 && |old(img)| < d <= |old(img)| + |p|;
              (fault, texts) == if hit then Describe(part, (old(img) + p)[DESC_AT..d]) else (None, old(texts))
      ensures View() == old(View()).(img := old(img) + p, checksum := XorAll(old(checksum), p), texts := texts)
      ensures fault.None? ==> Kept()
    {
      hide Describe, Xor;
      fault := None;
      sha := sha + p;
      var i := 0;
      while i < |p|
        invariant i <= |p| && XorAll(old(checksum), p) == XorAll(checksum, p[i..])
        modifies `checksum
      {
        assert p[i..][1..] == p[i + 1..];
        checksum := Xor(checksum, p[i]);
        i := i + 1;
      }
      if segIndex == 0 && |desc| < DescLen(part) {
        fault := TakeDescription(pos, p);
      } else if segIndex == 0 {
        assert (img + p)[DESC_AT..DESC_AT + DescLen(part)] == img[DESC_AT..DESC_AT + DescLen(part)];
      }
      img := img + p;
    }

    /** The piece of the current span that a call brings; the span may end with it. */
    method TakePiece(h: Hashes, pos: nat, p: seq<Byte>) returns (fault: Option<Message>)
      requires Valid() && !done && p != [] && pos == Base(part) + |img| && pos + |p| <= spanEnd && pos + |p| <= limit
      modifies this
      ensures Feed(h, old(View()), p) == if fault.Some? then Faulted(fault.value, texts) else View()
      ensures fault.None? ==> Valid() && (!done ==> img == old(img) + p)
      ensures fault.Some? ==> !done
    {
      hide NextSpan, NextWalk, StepWalk, Describe;
      fault := TakeBytes(h, pos, p);
      if fault.None? && pos + |p| == spanEnd {
        fault := WalkNext(h);
      }
    }

    method TakeChecksum(p: seq<Byte>) returns (fault: Option<Message>)
      requires Valid() && !done && phase.Checksum? && p != [] && Base(part) + |img| + |p| <= spanEnd
      modifies `sha, `img
      ensures fault == if p[0] != checksum then Some(ChecksumMismatch(part)) else None
      ensures Kept() && View() == old(View()).(img := old(img) + p)
    {
      hide DescLen;
      sha := sha + p;
      img := img + p;
      fault := if p[0] != checksum then Some(ChecksumMismatch(part)) else None;
    }

    /** ... short of the turn at the span's end. */
    method TakeBytes(ghost h: Hashes, pos: nat, p: seq<Byte>) returns (fault: Option<Message>)
      requires Valid() && !done && p != [] && pos == Base(part) + |img| && pos + |p| <= spanEnd && pos + |p| <= limit
      modifies this
      ensures fault.None? && pos + |p| == spanEnd ==> Ready()
      ensures Feed(h, old(View()), p) ==
                if fault.Some? then Faulted(fault.value, texts)
                else if pos + |p| == spanEnd then NextWalk(h, View()) else View()
      ensures !done && (fault.None? ==> img == old(img) + p && Kept() && spanEnd == old(spanEnd))
    {
      hide NextSpan, NextWalk, StepWalk, Describe;
      fault := None;
      match phase {
        case SegData =>
          DataChunk(h, View(), p);
          fault := TakeData(pos, p);
        case Checksum =>
          ChecksumByte(h, View(), p);
          fault := TakeChecksum(p);
        case _ =>
          PlainFeed(h, View(), p);
          TakePlain(p);
      }
    }

    static lemma ChecksumByte(h: Hashes, w: Walk, p: seq<Byte>)
      requires WalkOk(w) && w.Walking? && w.phase.Checksum? && p != [] && At(w) + |p| <= w.spanEnd
      ensures Feed(h, w, p) == if p[0] != w.checksum then Faulted(ChecksumMismatch(w.part), w.texts)
                               else NextWalk(h, w.(img := w.img + p))
    {
      assert p == [p[0]] && p[1..] == [];
    }

    /** walk_feed(): how many of the bytes belong to the image. */
    method WalkFeed(h: Hashes, pos: nat, data: seq<Byte>) returns (used: nat, fault: Option<Message>)
      requires Valid() && (!done ==> pos == Base(part) + |img| && pos + |data| <= limit)
      modifies this
      ensures Feed(h, old(View()), data) == if fault.Some? then Faulted(fault.value, texts) else View()
      ensures fault.None? ==> Valid() && (!done ==> img == old(img) + data)
      ensures used <= |data| && (fault.None? && used < |data| ==> done) && (fault.Some? ==> !done)
      ensures fault.None? && done && !old(done) ==> end == pos + used
      ensures old(done) ==> used == 0 && fault.None? && View() == old(View())
    {
      hide NextSpan, NextWalk, StepWalk, Describe, Feed, Kept;
      used, fault := 0, None;
      if done {
        FeedOver(h, View(), data);
      }
      while used < |data| && !done && fault.None?
        invariant used <= |data| && (fault.Some? ==> !done)
        invariant (old(done) ==> used == 0 && fault.None? && View() == old(View()))
        invariant fault.None? ==> Valid() && (!done ==> img == old(img) + data[..used])
        invariant Feed(h, old(View()), data) ==
                  if fault.Some? then Faulted(fault.value, texts) else Feed(h, View(), data[used..])
        invariant fault.None? && done && !old(done) ==> end == pos + used
        decreases |data| - used
      {
        var at := pos + used;
        var n := if |data| - used < spanEnd - at then |data| - used else spanEnd - at;
        var p := data[used..used + n];
        ghost var before := View();
        FeedConcat(h, before, p, data[used + n..]);
        assert data[used..] == p + data[used + n..];
        assert data[..used] + p == data[..used + n];
        PieceEnds(h, before, p);
        fault := TakePiece(h, at, p);
        used := used + n;
        if fault.Some? {
          FeedOver(h, Faulted(fault.value, texts), data[used..]);
        } else if done {
          FeedOver(h, View(), data[used..]);
        }
      }
      if fault.None? {
        if done {
          FeedOver(h, View(), data[used..]);
        } else {
          FeedNothing(h, View());
          assert data[used..] == [] && data[..used] == data;
        }
      }
    }
  }

  /** label_is() */
  method IsLabel(field: seq<Byte>, name: seq<Byte>) returns (same: bool)
    requires |field| == PART_LABEL_LEN && |name| <= PART_LABEL_LEN
    ensures same == LabelIs(field, name)
  {
    if field[..|name|] != name {
      return false;
    }
    var i := |name|;
    while i < PART_LABEL_LEN
      invariant |name| <= i <= PART_LABEL_LEN
      invariant forall x | |name| <= x < i :: field[x] == 0
    {
      if field[i] != 0 {
        return false;
      }
      i := i + 1;
    }
    return true;
  }

  /** match_layout() */
  method MatchLayout(t: seq<Byte>, count: nat) returns (same: bool)
    requires |t| == TABLE_LEN && count <= PART_MAX_ENTRIES
    ensures same == MatchesLayout(t, count)
  {
    hide EntryIs, LabelIs;
    if count != |LAYOUT| {
      return false;
    }
    var i := 0;
    while i < count
      invariant i <= count
      invariant forall x | 0 <= x < i :: EntryIs(Entry(t, x), LAYOUT[x])
    {
      var wanted := IsEntry(Entry(t, i), LAYOUT[i]);
      if !wanted {
        return false;
      }
      i := i + 1;
    }
    return true;
  }

  method IsEntry(e: seq<Byte>, want: LayoutEntry) returns (same: bool)
    requires |e| == PART_ENTRY_LEN && |want.name| <= PART_LABEL_LEN
    ensures same == EntryIs(e, want)
  {
    var named := IsLabel(e[12..28], want.name);
    return e[2] == want.kind && e[3] == want.subtype && FromLe(e[4..8]) == want.offset
        && FromLe(e[8..12]) == want.size && named && FromLe(e[28..32]) == want.flags;
  }

  /** check_table() */
  method CheckPartitions(h: Hashes, table: array<Byte>) returns (r: TableResult)
    requires table.Length == TABLE_LEN
    ensures r == CheckTable(h, table[..], 0, 0, false)
  {
    hide MatchesLayout, Erased, FromLe;
    var t := table[..];
    var k, entries, md5Seen := 0, 0, false;
    while k < PART_MAX_ENTRIES
      invariant entries <= k <= PART_MAX_ENTRIES
      invariant CheckTable(h, t, 0, 0, false) == CheckTable(h, t, k, entries, md5Seen)
    {
      var e := Entry(t, k);
      var magic := FromLe(e[..2]);
      if magic == PART_MAGIC && !md5Seen {
        entries, k := entries + 1, k + 1;
        continue;
      }
      if magic == PART_MAGIC_MD5 && !md5Seen && entries > 0 {
        if h.md5(t[..k * PART_ENTRY_LEN]) != e[16..32] {
          return TableBad(TableMd5Mismatch);
        }
        md5Seen, k := true, k + 1;
        continue;
      }
      var erased := AllErased(e);
      if erased && entries > 0 {
        if !md5Seen {
          return TableBad(NoMd5Record);
        }
        var rest := AllErased(t[k * PART_ENTRY_LEN..]);
        if !rest {
          return TableBad(AfterTableEnd);
        }
        var known := MatchLayout(t, entries);
        return TableOk(known);
      }
      return TableBad(if k == 0 then NoTable else CorruptEntry);
    }
    return TableBad(NoTableEnd);
  }

  /** struct fw_image_check */
  class Checker {
    const fileSize: nat
    var pos: nat
    var fault: Option<Message>
    var layout: Table
    var fileSha: seq<Byte>
    const boot: Walker
    const app: Walker
    const table: array<Byte>
    ghost var fed: seq<Byte>

    /** The check as the byte-by-byte one would have it. */
    ghost function View(): Check
      reads this, boot, app
    {
      if fault.Some? then
        Failed(fileSize, fed, fault.value, app.texts, layout, WalkBytes(Boot, boot.View()), WalkBytes(App, app.View()))
      else Running(fileSize, fed, boot.View(), app.View(), layout)
    }

    ghost function Repr(): set<object>
      reads this
    {
      {this, boot, app, table}
    }

    ghost predicate Shape()
      reads this, boot, app
    {
      && boot != app
      && table.Length == TABLE_LEN && |fed| <= fileSize
      && boot.part == Boot && app.part == App && boot.limit == TABLE_OFFSET && app.limit == fileSize
    }

    /** As long as nothing is wrong, everything is where it should be. */
    ghost predicate Live()
      requires Shape()
      reads this, boot, app, table
    {
      && fault.None? && boot.Valid() && app.Valid() && Placed(View())
      && (TABLE_OFFSET <= |fed| ==> boot.done)
      && (TABLE_OFFSET <= |fed| < TABLE_END ==> table[..|fed| - TABLE_OFFSET] == fed[TABLE_OFFSET..])
    }

    ghost predicate Valid()
      reads this, boot, app, table
    {
      Shape() && pos == |fed| && fileSha == fed && (fault.None? ==> Live()) && CheckOk(View())
    }

    /** fw_image_check_begin() */
    constructor (fileSize: nat)
      ensures Valid() && View() == Begin(fileSize) && fresh(Repr())
    {
      hide Placed, CheckOk, WalkOk, StartWalk, Walker.Valid;
      this.fileSize := fileSize;
      pos, layout, fileSha, fed := 0, Unseen, [], [];
      fault := if fileSize > MAX_BYTES then Some(TooLarge) else None;
      boot := new Walker(Boot, TABLE_OFFSET);
      app := new Walker(App, fileSize);
      table := new Byte[TABLE_LEN](_ => 0);
      new;
      StartPlaced(fileSize);
      assert View() == Begin(fileSize);
    }

    static lemma StartPlaced(size: nat)
      ensures var boot, app := StartWalk(Boot, TABLE_OFFSET), StartWalk(App, size);
              && WalkBytes(Boot, boot) == 0 == WalkBytes(App, app) && app.Walking? && app.texts == NO_TEXTS
              && Placed(Running(size, [], boot, app, Unseen))
    {
    }

    /** A piece that lies below the partition table. */
    method FeedBoot(h: Hashes, at: nat, p: seq<Byte>)
      requires Shape() && Live() && at == |fed| && p != [] && at + |p| <= TABLE_OFFSET && at + |p| <= fileSize
      modifies `fault, `fed, boot
      ensures Shape() && fed == old(fed) + p && (fault.None? ==> Live())
      ensures View() == AfterBoot(old(View()), p, Feed(h, old(boot.View()), p))
    {
      hide Feed, WalkOk, Erased, Placed, AfterBoot, Beyond;
      ghost var c := View();
      BootPlaced(h, c, p);
      var used, f := boot.WalkFeed(h, at, p);
      fed := fed + p;
      if f.Some? {
        fault := f;
        BootFaults(c, p, Faulted(f.value, boot.texts));
        return;
      }
      var erased := AllErased(p[used..]);
      if boot.done {
        BootDone(c, p, boot.View(), used);
      } else {
        BootGoesOn(c, p, boot.View());
      }
      if used < |p| && !erased {
        fault := Some(GapNotErased);
      } else if at + |p| == TABLE_OFFSET && !boot.done {
        fault := Some(BootOverruns);
      }
    }

    /** What AfterBoot() is in each of the three cases. */
    static lemma BootFaults(c: Check, p: seq<Byte>, w: Walk)
      requires c.Running? && w.Faulted?
      ensures AfterBoot(c, p, w) == Failed(c.size, c.fed + p, w.message, c.app.texts, c.table, 0, WalkBytes(App, c.app))
    {
    }

    static lemma BootDone(c: Check, p: seq<Byte>, w: Walk, used: nat)
      requires c.Running? && w.Done? && used <= |p| && (w.end == |c.fed| + used || (used == 0 && w.end <= |c.fed|))
      ensures AfterBoot(c, p, w) ==
        var d := With(c, p, w, c.app); if used < |p| && !Erased(p[used..]) then Fail(d, GapNotErased) else d
    {
      assert Beyond(c, p, w) == p[used..];
    }

    static lemma BootGoesOn(c: Check, p: seq<Byte>, w: Walk)
      requires c.Running? && w.Walking?
      ensures AfterBoot(c, p, w) ==
        var d := With(c, p, w, c.app); if |c.fed| + |p| == TABLE_OFFSET then Fail(d, BootOverruns) else d
    {
    }

    static lemma BootPlaced(h: Hashes, c: Check, p: seq<Byte>)
      requires Placed(c) && c.Running? && p != [] && |c.fed| + |p| <= TABLE_OFFSET
      ensures var w := Feed(h, c.boot, p);
              && !c.boot.Faulted? && (c.boot.Done? ==> c.boot.end <= |c.fed|)
              && (c.boot.Walking? ==> c.boot.part.Boot? && At(c.boot) == |c.fed|)
              && (!w.Faulted? ==> Placed(With(c, p, w, c.app)))
    {
      hide Feed, WalkOk;
      WalkFeeds(h, c.boot, p);
    }

    static lemma WalkFeeds(h: Hashes, w: Walk, p: seq<Byte>)
      requires WalkOk(w)
      ensures var v := Feed(h, w, p);
              && WalkOk(v)
              && (w.Walking? ==>
                    && (v.Walking? ==> v.part == w.part && At(v) == At(w) + |p|)
                    && (v.Done? ==> At(w) < v.end <= At(w) + |p|))
              && (!w.Walking? ==> v == w)
    {
      if w.Walking? {
        FeedAt(h, w, p);
      } else {
        FeedOver(h, w, p);
      }
    }

    /** A piece of the partition table; the table is checked when it is complete. */
    method FeedTable(h: Hashes, at: nat, p: seq<Byte>)
      requires Shape() && Live() && at == |fed| && p != [] && TABLE_OFFSET <= at && at + |p| <= TABLE_END
      requires at + |p| <= fileSize
      modifies `fault, `fed, `layout, table
      ensures Shape() && fed == old(fed) + p && (fault.None? ==> Live())
      ensures View() == InTable(h, With(old(View()), p, old(boot.View()), old(app.View())))
    {
      hide WalkOk, CheckTable;
      CopyInto(table, at - TABLE_OFFSET, p);
      fed := fed + p;
      assert fed[TABLE_OFFSET..] == old(fed)[TABLE_OFFSET..] + p;
      if at + |p| == TABLE_END {
        assert table[..] == table[..at - TABLE_OFFSET + |p|] == fed[TABLE_OFFSET..TABLE_END];
        var r := CheckPartitions(h, table);
        match r
        case TableBad(m) => fault := Some(m);
        case TableOk(known) => layout := if known then Known else Unknown;
      }
    }

    /** A piece of what must be erased. */
    method FeedErased(at: nat, p: seq<Byte>, m: Message)
      requires Shape() && Live() && at == |fed| && p != [] && TABLE_END <= at && at + |p| <= APP_OFFSET
      requires at + |p| <= fileSize
      modifies `fault, `fed
      ensures Shape() && fed == old(fed) + p && (fault.None? ==> Live())
      ensures View() == AfterErased(old(View()), p, m)
    {
      hide WalkOk, Erased;
      var erased := AllErased(p);
      if !erased {
        fault := Some(m);
      }
      fed := fed + p;
    }

    /** A piece of the application. */
    method FeedApp(h: Hashes, at: nat, p: seq<Byte>)
      requires Shape() && Live() && at == |fed| && p != [] && APP_OFFSET <= at && at + |p| <= fileSize
      modifies `fault, `fed, app
      ensures Shape() && fed == old(fed) + p && (fault.None? ==> Live())
      ensures View() == AfterApp(old(View()), p, Feed(h, old(app.View()), p))
    {
      hide Feed, WalkOk;
      WalkFeeds(h, app.View(), p);
      var used, f := app.WalkFeed(h, at, p);
      fed := fed + p;
      fault := f;
      if f.None? && used < |p| {
        fault := Some(BytesFollow);
      }
    }

    /** One turn of the loop of fw_image_check_feed(): as much as lies in one region. */
    method FeedPiece(h: Hashes, at: nat, rest: seq<Byte>) returns (n: nat)
      requires Shape() && Live() && at == |fed| && rest != [] && at + |rest| <= fileSize
      modifies `fault, `fed, `layout, table, boot, app
      ensures Shape() && (fault.None? ==> Live())
      ensures 0 < n <= |rest| && fed == old(fed) + rest[..n]
      ensures CheckOk(old(View())) && View() == FeedAll(h, old(View()), rest[..n])
    {
      hide FeedAll, StepByte, Feed, WalkOk, AfterBoot, AfterErased, AfterApp, InTable;
      ghost var c := View();
      if at < TABLE_OFFSET {
        n := if |rest| < TABLE_OFFSET - at then |rest| else TABLE_OFFSET - at;
        BootPiece(h, c, rest[..n]);
        FeedBoot(h, at, rest[..n]);
      } else if at < TABLE_END {
        n := if |rest| < TABLE_END - at then |rest| else TABLE_END - at;
        TablePiece(h, c, rest[..n]);
        FeedTable(h, at, rest[..n]);
      } else if at < DATA_OFFSET {
        n := if |rest| < DATA_OFFSET - at then |rest| else DATA_OFFSET - at;
        ErasedPiece(h, c, rest[..n]);
        FeedErased(at, rest[..n], AfterTable);
      } else if at < APP_OFFSET {
        n := if |rest| < APP_OFFSET - at then |rest| else APP_OFFSET - at;
        ErasedPiece(h, c, rest[..n]);
        FeedErased(at, rest[..n], DataNotErased);
      } else {
        n := |rest|;
        AppPiece(h, c, rest[..n]);
        FeedApp(h, at, rest[..n]);
      }
    }

    /** The loop of fw_image_check_feed(), over bytes that belong to the file. */
    method FeedFile(h: Hashes, d: seq<Byte>)
      requires Shape() && (fault.None? ==> Live()) && CheckOk(View()) && pos == |fed| && pos + |d| <= fileSize
      modifies `fault, `fed, `layout, table, boot, app
      ensures Shape() && (fault.None? ==> Live()) && CheckOk(View())
      ensures fed == old(fed) + d && View() == FeedAll(h, old(View()), d)
    {
      hide FeedAll, StepByte, CheckOk, Placed, Walker.Valid, Walker.View;
      ghost var c := View();
      var off := 0;
      assert d[0..] == d && fed + d[..0] == fed;
      while off < |d| && fault.None?
        invariant off <= |d| && Shape() && (fault.None? ==> Live())
        invariant fed == old(fed) + d[..off] && CheckOk(View())
        invariant FeedAll(h, c, d) == FeedAll(h, View(), d[off..])
        decreases |d| - off
      {
        ghost var before := View();
        var n := FeedPiece(h, pos + off, d[off..]);
        FeedAllConcat(h, before, d[off..][..n], d[off + n..]);
        Slices(d, off, n);
        FeedAllKeepsOk(h, before, d[off..][..n]);
        off := off + n;
      }
      assert d[..off] + d[off..] == d;
      if fault.Some? {
        FailedPiece(h, View(), d[off..]);
        FeedAllKeepsOk(h, View(), d[off..]);
        fed := fed + d[off..];
      } else {
        NothingFed(h, View(), d[off..]);
      }
    }

    /**
     * fw_image_check_feed(): whatever the pieces of the file are, it is as if its bytes had come
     * one at a time.
     */
    method FeedBytes(h: Hashes, data: seq<Byte>)
      requires Valid()
      modifies Repr()
      ensures Valid() && CheckOk(old(View())) && View() == FeedAll(h, old(View()), data)
    {
      hide FeedAll, StepByte, CheckOk, Placed, Walker.Valid, Walker.View;
      ghost var c := View();
      if pos >= fileSize {
        PastTheEnd(h, c, data);
        return;
      }
      var len := if |data| < fileSize - pos then |data| else fileSize - pos;
      OnlyTheFile(h, c, data, len);
      fileSha := fileSha + data[..len];
      FeedFile(h, data[..len]);
      pos := pos + len;
    }

    static lemma Slices(d: seq<Byte>, off: nat, n: nat)
      requires off + n <= |d|
      ensures d[off..] == d[off..][..n] + d[off + n..] && d[..off] + d[off..][..n] == d[..off + n]
    {
      assert d[off..][..n] == d[off..off + n];
    }

    static lemma FeedAllKeepsOk(h: Hashes, c: Check, s: seq<Byte>)
      requires CheckOk(c)
      ensures CheckOk(FeedAll(h, c, s))
    {
    }

    /** The bytes past the declared size change nothing. */
    static lemma OnlyTheFile(h: Hashes, c: Check, data: seq<Byte>, len: nat)
      requires CheckOk(c) && len <= |data| && (len == |data| || |c.fed| + len == c.size) && |c.fed| + len <= c.size
      ensures FeedAll(h, c, data) == FeedAll(h, c, data[..len])
    {
      hide FeedAll, StepByte, CheckOk;
      FeedAllConcat(h, c, data[..len], data[len..]);
      assert data[..len] + data[len..] == data;
      FedLength(h, c, data[..len]);
      if len < |data| {
        PastTheEnd(h, FeedAll(h, c, data[..len]), data[len..]);
      } else {
        NothingFed(h, FeedAll(h, c, data[..len]), data[len..]);
      }
    }

    /** fw_image_check_end() */
    method Finish(h: Hashes) returns (o: Outcome)
      requires Valid()
      ensures o == End(h, View())
    {
      var verdict := fault;
      if fault.None? {
        if pos < fileSize {
          verdict := Some(TooShort);
        } else if fileSize <= APP_OFFSET {
          verdict := Some(NoApplication);
        } else if !app.done {
          verdict := Some(CutShort);
        }
      }
      var sha := if pos == fileSize then Some(h.sha(fileSha)) else None;
      var bootBytes := if boot.done then boot.end - Base(Boot) else 0;
      var appBytes := if app.done && APP_OFFSET <= app.end then app.end - APP_OFFSET else 0;
      var result := if verdict.None? then Accepted else ResultOf(verdict.value);
      if verdict.None? && layout.Unknown? {
        result, verdict := Incompatible, Some(LayoutUnsupported);
      }
      var known := layout.Known? && (result == Accepted || result == Incompatible);
      return Outcome(result, verdict, Info(app.texts, known, bootBytes, appBytes, sha));
    }
  }

  /** Two ways of cutting a file into pieces, one result. */
  method TwoCuts(h: Hashes, fileSize: nat, a: seq<seq<Byte>>, b: seq<seq<Byte>>) returns (x: Outcome, y: Outcome)
    requires Joined(a) == Joined(b)
    ensures x == y == End(h, FeedAll(h, Begin(fileSize), Joined(a)))
  {
    x := CheckPieces(h, fileSize, a);
    y := CheckPieces(h, fileSize, b);
  }

  function Joined(pieces: seq<seq<Byte>>): seq<Byte> {
    if pieces == [] then [] else pieces[0] + Joined(pieces[1..])
  }

  /** The whole check of a file that comes in pieces. */
  method CheckPieces(h: Hashes, fileSize: nat, pieces: seq<seq<Byte>>) returns (o: Outcome)
    ensures o == End(h, FeedAll(h, Begin(fileSize), Joined(pieces)))
  {
    hide FeedAll, StepByte, CheckOk, Checker.View;
    var c := new Checker(fileSize);
    var i := 0;
    assert pieces[0..] == pieces;
    while i < |pieces|
      invariant i <= |pieces| && c.Valid() && fresh(c.Repr())
      invariant CheckOk(c.View())
      invariant FeedAll(h, Begin(fileSize), Joined(pieces)) == FeedAll(h, c.View(), Joined(pieces[i..]))
    {
      ghost var before := c.View();
      FeedAllConcat(h, before, pieces[i], Joined(pieces[i + 1..]));
      c.FeedBytes(h, pieces[i]);
      assert pieces[i..][1..] == pieces[i + 1..];
      i := i + 1;
    }
    NothingFed(h, c.View(), Joined(pieces[i..]));
    o := c.Finish(h);
  }
}
