/** The log store: two rings, one sequence, producers and readers (log_store.c). */
module LogStore {
  import opened Bytes
  import opened Options
  import opened LogRecords
  import opened ByteRing
  import Utf8
  import LogReading

  /** What a producer hands in; a missing module is a JSON null. */
  datatype Entry = Entry(
    source: nat, level: nat, kind: nat, truncated: bool, generation: nat, uptime: nat,
    name: Option<seq<Byte>>, text: seq<Byte>)

  predicate Acceptable(e: Entry) {
    e.source < SOURCE_COUNT && e.level <= LEVEL_UNKNOWN && e.kind <= KIND_GAP
  }

  /** The widths of the C fields an entry arrives in. */
  predicate Representable(e: Entry) {
    e.generation < TWO_TO_THE_32 && e.uptime < TWO_TO_THE_64
  }

  /** `kept` is what remains of `text` when at most cap bytes are kept of it. */
  ghost predicate CutTo(text: seq<Byte>, cap: nat, kept: seq<Byte>) {
    && kept <= text && |kept| <= cap
    && (|text| <= cap ==> kept == text)
    && (Utf8.WellFormed(text) ==> Utf8.LongestPrefix(text, if |text| <= cap then |text| else cap, |kept|))
  }

  /** r is the record an append of e under a sequence number makes. */
  ghost predicate MadeFrom(e: Entry, seqNo: nat, r: Record) {
    && r.source == e.source && r.level == e.level && r.kind == e.kind
    && r.generation == e.generation && r.uptime == e.uptime && r.seqNo == seqNo
    && r.truncated == (e.truncated || |e.text| > TEXT_MAX)
    && r.hasModule == e.name.Some?
    && CutTo(e.text, TEXT_MAX, r.text)
    && (if e.name.Some? then CutTo(e.name.value, MODULE_MAX, r.name) else r.name == [])
  }

  datatype AppendResult = Stored | Again | Invalid

  /** struct log_store_reader, without its filter's text part. */
  datatype Reader = Reader(sources: LogReading.Sources, stm32: nat, esp32: nat, upper: nat, gap: bool)

  function Encodings(recs: seq<Record>): (blobs: seq<seq<Byte>>)
    requires forall r | r in recs :: ValidRecord(r)
    ensures |blobs| == |recs|
  {
    if recs == [] then [] else Encodings(recs[..|recs| - 1]) + [Encode(recs[|recs| - 1])]
  }

  /** The ring holds the encodings of these records. */
  ghost predicate Mirrors(blobs: seq<seq<Byte>>, recs: seq<Record>) {
    && (forall r | r in recs :: ValidRecord(r))
    && blobs == Encodings(recs)
  }

  lemma MirrorsGrows(blobs: seq<seq<Byte>>, recs: seq<Record>, rec: Record)
    requires Mirrors(blobs, recs) && ValidRecord(rec)
    ensures Mirrors(blobs + [Encode(rec)], recs + [rec])
  {
    assert (recs + [rec])[..|recs|] == recs;
  }

  lemma {:induction false} MirrorsAt(blobs: seq<seq<Byte>>, recs: seq<Record>, i: nat)
    requires Mirrors(blobs, recs) && i < |recs|
    ensures ValidRecord(recs[i]) && blobs[i] == Encode(recs[i])
  {
    if i < |recs| - 1 {
      MirrorsAt(blobs[..|recs| - 1], recs[..|recs| - 1], i);
    }
  }

  method CutText(text: seq<Byte>, cap: nat) returns (kept: seq<Byte>)
    ensures CutTo(text, cap, kept)
  {
    kept := text;
    if |text| > cap {
      var n := Utf8.Cut(text, cap);
      kept := text[..n];
    } else {
      assert text[..|text|] == text;
    }
  }

  /** One source's ring, and the records it was given. */
  class Channel {
    const ring: Ring
    /** Everything ever appended to this source, oldest first. */
    ghost var recs: seq<Record>

    ghost predicate Valid()
      reads this, ring, ring.buf
    {
      ring.Valid() && Mirrors(ring.blobs, recs)
    }

    ghost function View(): LogReading.View
      reads this, ring
    {
      LogReading.View(recs, ring.overwritten)
    }

    constructor (bytes: nat)
      requires RECORD_MAX <= bytes
      ensures Valid() && fresh(ring) && fresh(ring.buf) && View() == LogReading.View([], 0)
    {
      ring := new Ring(bytes);
      recs := [];
    }

    /** Where record i starts; the head of the ring for the record to come. */
    ghost function Start(i: nat): nat
      requires i <= |ring.blobs|
      reads this, ring
    {
      Pos(ring.blobs, i)
    }

    /** The bytes go into the ring; `blob` is what they make up. */
    method Write(rec: Record, ghost blob: seq<Byte>)
      requires ring.Valid() && ValidRecord(rec) && blob == Encode(rec)
      modifies ring, ring.buf
      ensures ring.Valid() && ring.blobs == old(ring.blobs) + [blob]
      ensures old(ring.overwritten) <= ring.overwritten < |ring.blobs|
      ensures old(ring.overwritten) < ring.overwritten ==> ring.head - Start(ring.overwritten - 1) > ring.size
    {
      EncodeIsBlob(rec);
      var total := Total(rec);
      ring.MakeRoom(total);
      ghost var before := ring.blobs;
      ring.Store(Header(rec), rec.name, rec.text, Zeros(Padding(rec)), Trailer(total));
      if old(ring.overwritten) < ring.overwritten {
        PosOfPrefix(before, [blob], ring.overwritten - 1);
        PosOfPrefix(before, [blob], |before|);
      }
    }

    /**
     * The part of log_store_append() that works on one ring: the record is added, and
     * no more of the oldest are let go of than the new one needs the room of.
     */
    method Insert(rec: Record)
      requires Valid() && ValidRecord(rec)
      modifies this, ring, ring.buf
      ensures Valid() && recs == old(recs) + [rec] && |recs| == |ring.blobs|
      ensures old(ring.overwritten) <= ring.overwritten < |recs|
      ensures old(ring.overwritten) < ring.overwritten ==> ring.head - Start(ring.overwritten - 1) > ring.size
    {
      hide Encode, Ring.Valid;
      ghost var before := ring.blobs;
      Write(rec, Encode(rec));
      MirrorsGrows(before, recs, rec);
      recs := recs + [rec];
    }

    /** A record's start is behind the tail exactly when the record is gone. */
    lemma StartOrder(i: nat)
      requires Valid() && i <= |recs|
      ensures |recs| == |ring.blobs| && ring.overwritten <= |recs|
      ensures i < ring.overwritten <==> Start(i) < ring.tail
      ensures i < |recs| <==> Start(i) < ring.head
      ensures Start(ring.overwritten) == ring.tail && Start(|recs|) == ring.head
    {
      if i < ring.overwritten {
        assert Blob(ring.blobs[i]);
        PosGrows(ring.blobs, i, ring.overwritten);
      } else {
        PosGrows(ring.blobs, ring.overwritten, i);
      }
      if i < |recs| {
        assert Blob(ring.blobs[i]);
        PosGrows(ring.blobs, i, |recs|);
      }
    }

    /** What the bytes of record i say, and where its name and text are in them. */
    lemma RecordAt(i: nat)
      requires Valid() && i < |recs|
      ensures |recs| == |ring.blobs|
      ensures Carries(ring.blobs[i], recs[i]) && LengthSane(Total(recs[i]))
    {
      MirrorsAt(ring.blobs, recs, i);
      EncodeCarries(recs[i], ring.blobs[i]);
    }

    /** pos is where record i starts, or the head for the record to come. */
    ghost predicate Stands(pos: nat, i: nat)
      reads this, ring
    {
      i <= |recs| == |ring.blobs| && pos == Start(i)
    }

    /** A step over record i, by the length in its header. */
    lemma StepOver(i: nat, hdr: seq<Byte>)
      requires Valid() && i < |recs| && Describes(hdr, recs[i])
      ensures |recs| == |ring.blobs| && Start(i) + FromLe(hdr[..2]) == Start(i + 1)
    {
      RecordAt(i);
    }

    /** The header of the record that starts at pos, if one does. */
    method ReadHeader(pos: nat, ghost i: nat) returns (hdr: seq<Byte>)
      requires Valid()
      ensures |hdr| == HDR_SIZE
      ensures ring.overwritten <= i < |recs| && Stands(pos, i) ==>
                Describes(hdr, recs[i]) && LengthSane(FromLe(hdr[..2]))
    {
      hdr := ring.GetWithin(pos, HDR_SIZE, i, 0);
      if ring.overwritten <= i < |recs| && Stands(pos, i) {
        RecordAt(i);
        assert hdr == ring.blobs[i][..HDR_SIZE];
      }
    }

    /** A read's look at one ring: where it stands now, and the header of the record there. */
    method Peek(pos: nat, ghost i: nat) returns (at: nat, behind: bool, have: bool, hdr: seq<Byte>)
      requires Valid()
      ensures |hdr| == HDR_SIZE
      ensures Stands(pos, i) ==>
                var k := LogReading.Max(i, ring.overwritten);
                && Stands(at, k)
                && behind == (i < ring.overwritten) && have == (k < |recs|)
                && (have ==> Describes(hdr, recs[k]))
    {
      at, behind, have := pos, false, false;
      hdr := seq(HDR_SIZE, x => 0);
      ghost var k := LogReading.Max(i, ring.overwritten);
      if i <= |recs| {
        StartOrder(i);
        StartOrder(k);
      }
      if at < ring.tail {
        at, behind := ring.tail, true;
      }
      if at >= ring.head {
        at := ring.head;
        return;
      }
      hdr := ReadHeader(at, k);
      if !LengthSane(FromLe(hdr[..2])) {
        at := ring.head;
        return;
      }
      have := true;
    }

    /** copy_record() */
    method CopyRecord(pos: nat, hdr: seq<Byte>, ghost i: nat) returns (rec: Record)
      requires Valid() && |hdr| == HDR_SIZE
      ensures ring.overwritten <= i < |recs| && Stands(pos, i) && Describes(hdr, recs[i]) ==> rec == recs[i]
    {
      var mlen := NameLen(hdr);
      var tlen := TextLen(hdr);
      var name := ring.GetWithin(pos + HDR_SIZE, mlen, i, HDR_SIZE);
      var text := ring.GetWithin(pos + HDR_SIZE + mlen, tlen, i, HDR_SIZE + mlen);
      rec := Decode(hdr, name, text);
      if ring.overwritten <= i < |recs| && Stands(pos, i) && Describes(hdr, recs[i]) {
        RecordAt(i);
        DecodeInverts(recs[i], hdr);
      }
    }

    /** Copy the record a look chose, and step over it. */
    method Take(pos: nat, hdr: seq<Byte>, ghost i: nat) returns (rec: Record, next: nat)
      requires Valid() && |hdr| == HDR_SIZE
      ensures ring.overwritten <= i < |recs| && Stands(pos, i) && Describes(hdr, recs[i]) ==>
                rec == recs[i] && Stands(next, i + 1)
    {
      rec := CopyRecord(pos, hdr, i);
      if ring.overwritten <= i < |recs| && Stands(pos, i) && Describes(hdr, recs[i]) {
        StepOver(i, hdr);
      }
      next := pos + FromLe(hdr[..2]);
    }

    lemma HeadStands()
      requires Valid()
      ensures Stands(ring.head, |recs|) && ring.overwritten <= |recs|
    {
    }

    /** A position from a cursor, brought into what is kept. */
    method Bring(pos: nat) returns (p: nat, behind: bool)
      requires Valid()
      ensures ring.tail <= p <= ring.head && behind == (pos < ring.tail)
      ensures forall i | Stands(pos, i) :: Stands(p, LogReading.Max(i, ring.overwritten))
    {
      p, behind := pos, false;
      if p < ring.tail {
        p, behind := ring.tail, true;
      }
      if p > ring.head {
        p := ring.head;
      }
      PosGrows(ring.blobs, ring.overwritten, |recs|);
      forall i | Stands(pos, i)
        ensures Stands(p, LogReading.Max(i, ring.overwritten))
      {
        StartOrder(i);
      }
    }

    /** The backward search's look at one ring: the record that ends at bp. */
    method PeekBack(bp: nat, ghost i: nat) returns (at: nat, done: bool, start: nat, hdr: seq<Byte>)
      requires Valid() && Stands(bp, i)
      ensures |hdr| == HDR_SIZE && done == (i <= ring.overwritten)
      ensures Stands(at, LogReading.Max(i, ring.overwritten))
      ensures !done ==> Stands(start, i - 1) && Describes(hdr, recs[i - 1])
    {
      at, done, start := bp, true, bp;
      hdr := seq(HDR_SIZE, x => 0);
      StartOrder(i);
      StartOrder(ring.overwritten);
      if bp <= ring.tail {
        at := if bp < ring.tail then ring.tail else bp;
        BehindTail(i);
        return;
      }
      AfterTail(i);
      // The source gives up on this ring at an insane trailer; there is none.
      var len := ReadTrailer(bp, i);
      start, done := bp - len, false;
      hdr := ReadHeader(start, i - 1);
    }

    lemma BehindTail(i: nat)
      requires Valid() && i <= |recs| == |ring.blobs| && Start(i) <= ring.tail
      ensures i <= ring.overwritten
    {
      if i > ring.overwritten {
        AfterTail(i);
      }
    }

    lemma AfterTail(i: nat)
      requires Valid() && ring.overwritten < i <= |recs|
      ensures |recs| == |ring.blobs|
      ensures Start(i) == Start(i - 1) + |ring.blobs[i - 1]| && ring.tail <= Start(i - 1) < Start(i)
    {
      assert Blob(ring.blobs[i - 1]);
      PosGrows(ring.blobs, ring.overwritten, i - 1);
    }

    /** The length in the trailer that ends at bp, which is whole and sane. */
    method ReadTrailer(bp: nat, ghost i: nat) returns (len: nat)
      requires Valid() && ring.overwritten < i && Stands(bp, i)
      ensures len == |ring.blobs[i - 1]| && LengthSane(len)
    {
      hide FromLe, Mirrors;
      ghost var b := ring.blobs[i - 1];
      assert Blob(b);
      var tr := ring.GetWithin(bp - TRAILER_SIZE, TRAILER_SIZE, i - 1, |b| - TRAILER_SIZE);
      TrailerOf(b, tr);
      len := FromLe(tr[..2]);
    }
  }

  class Store {
    const stm32: Channel
    const esp32: Channel
    var ready: bool
    var panicked: bool
    var next: nat

    ghost function Footprint(): set<object>
      reads this
    {
      {this, stm32, stm32.ring, stm32.ring.buf, esp32, esp32.ring, esp32.ring.buf}
    }

    ghost predicate Valid()
      reads Footprint()
    {
      && stm32 != esp32 && stm32.ring != esp32.ring && stm32.ring.buf != esp32.ring.buf
      && stm32.Valid() && esp32.Valid()
      && LogReading.Valid(Log())
    }

    /** What readers are about: the records of both sources, and how many are gone. */
    ghost function Log(): LogReading.Log
      reads Footprint()
    {
      LogReading.Log(stm32.View(), esp32.View(), next)
    }

    /** log_store_init() on freshly declared rings. */
    constructor (stm32Bytes: nat, esp32Bytes: nat)
      requires RECORD_MAX <= stm32Bytes && RECORD_MAX <= esp32Bytes
      ensures Valid() && ready && !panicked
      ensures Log() == LogReading.Log(LogReading.View([], 0), LogReading.View([], 0), 1)
    {
      stm32 := new Channel(stm32Bytes);
      esp32 := new Channel(esp32Bytes);
      ready, panicked, next := true, false, 1;
    }

    static method Make(e: Entry, seqNo: nat) returns (rec: Record)
      requires Acceptable(e) && Representable(e) && seqNo < TWO_TO_THE_64
      ensures MadeFrom(e, seqNo, rec) && ValidRecord(rec)
    {
      var text := CutText(e.text, TEXT_MAX);
      var name := [];
      if e.name.Some? {
        name := CutText(e.name.value, MODULE_MAX);
      }
      rec := Record(e.source, e.level, e.kind, e.truncated || |e.text| > TEXT_MAX, e.name.Some?,
                    e.generation, seqNo, e.uptime, name, text);
    }

    /** log_store_append(), and the step of the readers' world that it is. */
    method Append(e: Entry) returns (rc: AppendResult, ghost step: LogReading.Event)
      requires Valid() && Representable(e) && next < TWO_TO_THE_64
      modifies this, stm32, stm32.ring, stm32.ring.buf, esp32, esp32.ring, esp32.ring.buf
      ensures Valid() && ready == old(ready) && panicked == old(panicked)
      ensures rc == if panicked || !ready then Again else if !Acceptable(e) then Invalid else Stored
      ensures rc != Stored ==> Log() == old(Log())
      ensures rc == Stored ==>
                && step.Append? && step.toEsp32 == (e.source == 1) && MadeFrom(e, old(next), step.rec)
                && LogReading.Enabled(old(Log()), step)
                && Log() == LogReading.AfterAppend(old(Log()), step)
    {
      step := LogReading.LookOnce;
      if panicked || !ready {
        rc := Again;
        return;
      }
      if !Acceptable(e) {
        rc := Invalid;
        return;
      }
      var made := Make(e, next);
      if e.source == 0 {
        step := InsertStm32(made);
      } else {
        step := InsertEsp32(made);
      }
      rc := Stored;
    }

    method InsertStm32(rec: Record) returns (ghost step: LogReading.Event)
      requires Valid() && ValidRecord(rec) && rec.seqNo == next
      modifies this, stm32, stm32.ring, stm32.ring.buf
      ensures Valid() && ready == old(ready) && panicked == old(panicked)
      ensures step == LogReading.Append(false, rec, stm32.ring.overwritten)
      ensures LogReading.Enabled(old(Log()), step) && Log() == LogReading.AfterAppend(old(Log()), step)
    {
      ghost var log := Log();
      stm32.Insert(rec);
      step := LogReading.Append(false, rec, stm32.ring.overwritten);
      next := next + 1;
      assert Log() == LogReading.AfterAppend(log, step);
      LogReading.AppendKeepsValid(log, step);
    }

    method InsertEsp32(rec: Record) returns (ghost step: LogReading.Event)
      requires Valid() && ValidRecord(rec) && rec.seqNo == next
      modifies this, esp32, esp32.ring, esp32.ring.buf
      ensures Valid() && ready == old(ready) && panicked == old(panicked)
      ensures step == LogReading.Append(true, rec, esp32.ring.overwritten)
      ensures LogReading.Enabled(old(Log()), step) && Log() == LogReading.AfterAppend(old(Log()), step)
    {
      ghost var log := Log();
      esp32.Insert(rec);
      step := LogReading.Append(true, rec, esp32.ring.overwritten);
      next := next + 1;
      assert Log() == LogReading.AfterAppend(log, step);
      LogReading.AppendKeepsValid(log, step);
    }

    // ---- Reading ------------------------------------------------------------------

    /** The reader's positions are those of these two records. */
    ghost predicate Stands(r: Reader, at: LogReading.Place)
      reads Footprint()
    {
      stm32.Stands(r.stm32, at.i) && esp32.Stands(r.esp32, at.j) && r.gap == at.gap
    }

    /** Where a look finds the two rings, and the headers of the records there. */
    method PeekBoth(r: Reader, ghost at: LogReading.Place)
      returns (r': Reader, have0: bool, hdr0: seq<Byte>, have1: bool, hdr1: seq<Byte>)
      requires Valid()
      ensures |hdr0| == |hdr1| == HDR_SIZE && r'.sources == r.sources && r'.upper == r.upper
      ensures Stands(r, at) ==>
                var here := LogReading.CatchUp(Log(), r.sources, at);
                && Stands(r', here)
                && have0 == (r.sources.stm32 && here.i < |stm32.recs|)
                && have1 == (r.sources.esp32 && here.j < |esp32.recs|)
                && (have0 ==> Describes(hdr0, stm32.recs[here.i]))
                && (have1 ==> Describes(hdr1, esp32.recs[here.j]))
    {
      hide Channel.Valid, LogReading.Valid, Describes;
      r', have0, have1 := r, false, false;
      hdr0, hdr1 := seq(HDR_SIZE, x => 0), seq(HDR_SIZE, x => 0);
      if r.sources.stm32 {
        var pos, behind;
        pos, behind, have0, hdr0 := stm32.Peek(r.stm32, at.i);
        r' := r'.(stm32 := pos, gap := r'.gap || behind);
      }
      if r.sources.esp32 {
        var pos, behind;
        pos, behind, have1, hdr1 := esp32.Peek(r.esp32, at.j);
        r' := r'.(esp32 := pos, gap := r'.gap || behind);
      }
    }

    /** One locked section of log_store_read(), for a reader that stands anywhere. */
    method LookOnce(r: Reader, ghost at: LogReading.Place) returns (r': Reader, seen: LogReading.Seen)
      requires Valid()
      ensures r'.sources == r.sources && r'.upper == r.upper
      ensures Stands(r, at) ==>
                var (at', found) := LogReading.Look(Log(), r.sources, r.upper, at);
                Stands(r', at') && seen == found
    {
      hide Channel.Valid, LogReading.Valid;
      var here, have0, hdr0, have1, hdr1 := PeekBoth(r, at);
      ghost var k := LogReading.CatchUp(Log(), r.sources, at);
      var seq0, seq1 := FromLe(hdr0[12..20]), FromLe(hdr1[12..20]);
      if Stands(r, at) {
        LogReading.LookIsChoice(Log(), r.sources, r.upper, at, have0, seq0, have1, seq1);
      }
      match LogReading.Choose(have0, seq0, have1, seq1, r.upper)
      case Neither =>
        r', seen := here, LogReading.Nothing;
      case First =>
        var rec, pos := stm32.Take(here.stm32, hdr0, k.i);
        r', seen := here.(stm32 := pos), LogReading.Found(rec);
      case Second =>
        var rec, pos := esp32.Take(here.esp32, hdr1, k.j);
        r', seen := here.(esp32 := pos), LogReading.Found(rec);
    }

    /**
     * log_store_read() with nobody else at the store meanwhile. A filter that selects no
     * source stands at both heads.
     */
    method Read(r: Reader, m: Record -> bool, budget: nat, ghost at: LogReading.Place)
      returns (r': Reader, res: LogReading.ReadResult)
      requires Valid()
      ensures r'.sources == r.sources && r'.upper == r.upper
      ensures !ready ==> r' == r && res == LogReading.End
      ensures ready && !r.sources.stm32 && !r.sources.esp32 ==>
                res == LogReading.End && r' == r.(stm32 := stm32.ring.head, esp32 := esp32.ring.head)
      ensures ready && (r.sources.stm32 || r.sources.esp32) && Stands(r, at) ==>
                var (at', got) := LogReading.Read(Log(), r.sources, r.upper, m, budget, at);
                Stands(r', at') && res == got
    {
      hide Channel.Valid, LogReading.Valid, LogReading.Look, Channel.Stands;
      r', res := r, LogReading.End;
      if !ready {
        return;
      }
      if !r.sources.stm32 && !r.sources.esp32 {
        r' := r.(stm32 := stm32.ring.head, esp32 := esp32.ring.head);
        return;
      }
      var scanned := 0;
      ghost var here := at;
      while scanned < budget
        invariant scanned <= budget
        invariant r'.sources == r.sources && r'.upper == r.upper
        invariant Stands(r, at) ==>
                    && Stands(r', here)
                    && LogReading.Read(Log(), r.sources, r.upper, m, budget - scanned, here)
                       == LogReading.Read(Log(), r.sources, r.upper, m, budget, at)
      {
        ghost var next := LogReading.Look(Log(), r.sources, r.upper, here).0;
        var seen;
        r', seen := LookOnce(r', here);
        if seen.Nothing? {
          res := LogReading.End;
          return;
        }
        scanned := scanned + 1;
        here := next;
        if m(seen.rec) {
          res := LogReading.Rec(seen.rec);
          return;
        }
      }
      res := LogReading.Budget;
    }

    /** log_store_reader_at(): positions from a cursor, brought into what is kept. */
    method ReaderAt(sources: LogReading.Sources, pos0: nat, pos1: nat) returns (r: Reader)
      requires Valid()
      ensures r.sources == sources && r.upper == 0
      ensures stm32.ring.tail <= r.stm32 <= stm32.ring.head && esp32.ring.tail <= r.esp32 <= esp32.ring.head
      ensures r.gap <==> (sources.stm32 && pos0 < stm32.ring.tail) || (sources.esp32 && pos1 < esp32.ring.tail)
      ensures forall at: LogReading.Place | stm32.Stands(pos0, at.i) && esp32.Stands(pos1, at.j) ::
                Stands(r, LogReading.Place(LogReading.Max(at.i, stm32.ring.overwritten),
                                           LogReading.Max(at.j, esp32.ring.overwritten), r.gap))
    {
      var gap := false;
      var p0, behind0 := stm32.Bring(pos0);
      var p1, behind1 := esp32.Bring(pos1);
      gap := (sources.stm32 && behind0) || (sources.esp32 && behind1);
      r := Reader(sources, p0, p1, 0, gap);
    }

    /** One locked section of log_store_reader_tail(): the newest record not walked past yet. */
    method BackOnce(sources: LogReading.Sources, bp0: nat, bp1: nat, ghost at: LogReading.Place)
      returns (bp0': nat, bp1': nat, seen: LogReading.Seen)
      requires Valid() && stm32.Stands(bp0, at.i) && esp32.Stands(bp1, at.j)
      requires stm32.ring.overwritten <= at.i && esp32.ring.overwritten <= at.j
      ensures LogReading.InRange(Log(), at) && seen == LogReading.Newest(Log(), sources, at)
      ensures stm32.Stands(bp0', LogReading.Retreat(Log(), sources, at).i)
      ensures esp32.Stands(bp1', LogReading.Retreat(Log(), sources, at).j)
    {
      hide Channel.Valid, LogReading.Valid, FromLe;
      bp0', bp1' := bp0, bp1;
      var have0, have1 := false, false;
      var start0, start1 := 0, 0;
      var hdr0, hdr1 := seq(HDR_SIZE, x => 0), seq(HDR_SIZE, x => 0);
      if sources.stm32 {
        var done;
        bp0', done, start0, hdr0 := stm32.PeekBack(bp0, at.i);
        have0 := !done;
      }
      if sources.esp32 {
        var done;
        bp1', done, start1, hdr1 := esp32.PeekBack(bp1, at.j);
        have1 := !done;
      }
      if !have0 && !have1 {
        return bp0', bp1', LogReading.Nothing;
      }
      var seq0, seq1 := FromLe(hdr0[12..20]), FromLe(hdr1[12..20]);
      if have1 && (!have0 || seq1 > seq0) {
        var rec := esp32.CopyRecord(start1, hdr1, at.j - 1);
        return bp0', start1, LogReading.Found(rec);
      } else {
        var rec := stm32.CopyRecord(start0, hdr0, at.i - 1);
        return start0, bp1', LogReading.Found(rec);
      }
    }

    /** log_store_reader_tail() with nobody else at the store meanwhile. */
    method ReaderTail(sources: LogReading.Sources, m: Record -> bool, count: nat, budget: nat)
      returns (r: Reader, scanned: nat, ghost found: LogReading.Search)
      requires Valid()
      ensures found == LogReading.Tail(Log(), sources, m, count, budget,
          LogReading.Search(LogReading.Heads(Log()), 0, 0))
      ensures r.sources == sources && r.upper == 0 && Stands(r, found.at) && scanned == found.scanned
    {
      var bp0, bp1 := stm32.ring.head, esp32.ring.head;
      var matched := 0;
      scanned := 0;
      found := LogReading.Search(LogReading.Heads(Log()), 0, 0);
      ghost var start := found;
      stm32.HeadStands();
      esp32.HeadStands();
      hide Channel.Valid, LogReading.Valid, Channel.Stands;
      while matched < count && scanned < budget
        invariant stm32.Stands(bp0, found.at.i) && esp32.Stands(bp1, found.at.j) && !found.at.gap
        invariant stm32.ring.overwritten <= found.at.i && esp32.ring.overwritten <= found.at.j
        invariant LogReading.InRange(Log(), found.at) && found.matched == matched && found.scanned == scanned
        invariant LogReading.Tail(Log(), sources, m, count, budget, found)
               == LogReading.Tail(Log(), sources, m, count, budget, start)
        decreases budget - scanned
      {
        var seen;
        bp0, bp1, seen := BackOnce(sources, bp0, bp1, found.at);
        if seen.Nothing? {
          break;
        }
        found := LogReading.Back(Log(), sources, m, found);
        scanned := scanned + 1;
        if m(seen.rec) {
          matched := matched + 1;
        }
      }
      r := Reader(sources, bp0, bp1, 0, false);
    }
  }
}
