/**
 * The byte ring under a log source: records are runs of bytes at absolute
 * positions, the newest `size` bytes are kept, and whole records leave at the tail.
 */
module ByteRing {
  import opened Bytes
  import opened LogRecords

  // ---- Positions modulo the ring size ---------------------------------------------

  lemma {:induction false} MulMonotone(a: nat, b: nat, n: nat)
    requires a < b
    ensures a * n + n <= b * n
    decreases b - a
  {
    assert b * n == (b - 1) * n + n;
    if a < b - 1 {
      MulMonotone(a, b - 1, n);
    }
  }

  lemma DivModUnique(x: nat, q: nat, r: nat, n: nat)
    requires 0 < n && r < n && x == q * n + r
    ensures x % n == r
  {
    if q < x / n {
      MulMonotone(q, x / n, n);
    } else if q > x / n {
      MulMonotone(x / n, q, n);
    }
  }

  /** Where the byte at position p + i lives, given where the one at p does. */
  lemma ModShift(p: nat, i: nat, n: nat)
    requires 0 < n && i <= n
    ensures (p + i) % n == if p % n + i < n then p % n + i else p % n + i - n
  {
    var q, r := p / n, p % n;
    if r + i < n {
      DivModUnique(p + i, q, r + i, n);
    } else if r + i - n < n {
      assert p + i == (q + 1) * n + (r + i - n);
      DivModUnique(p + i, q + 1, r + i - n, n);
    }
  }

  // ---- Records laid end to end ------------------------------------------------------

  /** The position at which record i starts. */
  function Pos(blobs: seq<seq<Byte>>, i: nat): nat
    requires i <= |blobs|
  {
    if i == 0 then 0 else Pos(blobs, i - 1) + |blobs[i - 1]|
  }

  lemma {:induction false} PosOfPrefix(blobs: seq<seq<Byte>>, more: seq<seq<Byte>>, i: nat)
    requires i <= |blobs|
    ensures Pos(blobs + more, i) == Pos(blobs, i)
  {
    if i > 0 {
      PosOfPrefix(blobs, more, i - 1);
    }
  }

  lemma {:induction false} PosGrows(blobs: seq<seq<Byte>>, i: nat, j: nat)
    requires i <= j <= |blobs|
    requires forall b | b in blobs :: Blob(b)
    ensures Pos(blobs, i) <= Pos(blobs, j)
    ensures i < j ==> Pos(blobs, i) + |blobs[i]| <= Pos(blobs, j)
  {
    if i < j {
      PosGrows(blobs, i, j - 1);
    }
  }

  function Flatten(blobs: seq<seq<Byte>>): seq<Byte> {
    if blobs == [] then [] else blobs[0] + Flatten(blobs[1..])
  }

  datatype Walk = Records(blobs: seq<seq<Byte>>) | Garbage

  /** Reading from the oldest byte on, one header length after the other. */
  function Forwards(b: seq<Byte>): Walk {
    if b == [] then Records([])
    else if |b| < 2 then Garbage
    else
      var len := FromLe(b[..2]);
      if !LengthSane(len) || |b| < len then Garbage
      else
        match Forwards(b[len..])
        case Garbage => Garbage
        case Records(rest) => Records([b[..len]] + rest)
  }

  /** The length of the record b ends with, as its trailer gives it; 0 for no trailer. */
  function LastLength(b: seq<Byte>): (len: nat)
    ensures len <= |b|
  {
    if |b| < 4 || FromLe(b[|b| - 2..]) != TRAILER_MAGIC then 0
    else
      var len := FromLe(b[|b| - 4..|b| - 2]);
      if !LengthSane(len) || |b| < len then 0 else len
  }

  /** Reading from the newest byte back, one trailer after the other. */
  function Backwards(b: seq<Byte>): Walk {
    if b == [] then Records([])
    else if LastLength(b) == 0 then Garbage
    else
      var at := |b| - LastLength(b);
      match Backwards(b[..at])
      case Garbage => Garbage
      case Records(rest) => Records(rest + [b[at..]])
  }

  lemma {:induction false} FlattenLast(blobs: seq<seq<Byte>>, last: seq<Byte>)
    ensures Flatten(blobs + [last]) == Flatten(blobs) + last
  {
    if blobs == [] {
      assert blobs + [last] == [last];
      assert [last][1..] == [];
    } else {
      assert (blobs + [last])[1..] == blobs[1..] + [last];
      FlattenLast(blobs[1..], last);
    }
  }

  lemma {:induction false} ForwardsFindsAll(blobs: seq<seq<Byte>>)
    requires forall b | b in blobs :: Blob(b)
    ensures Forwards(Flatten(blobs)) == Records(blobs)
  {
    if blobs != [] {
      var b := Flatten(blobs);
      assert Blob(blobs[0]);
      assert b[..2] == blobs[0][..2] && b[|blobs[0]|..] == Flatten(blobs[1..]);
      ForwardsFindsAll(blobs[1..]);
      assert b[..|blobs[0]|] == blobs[0];
    }
  }

  lemma {:induction false} BackwardsFindsAll(blobs: seq<seq<Byte>>)
    requires forall b | b in blobs :: Blob(b)
    ensures Backwards(Flatten(blobs)) == Records(blobs)
    decreases |blobs|
  {
    if blobs != [] {
      var front, last := blobs[..|blobs| - 1], blobs[|blobs| - 1];
      assert blobs == front + [last] && Blob(last);
      FlattenLast(front, last);
      BackwardsFindsAll(front);
      BackwardsLast(Flatten(front), last);
    }
  }

  lemma BackwardsLast(b: seq<Byte>, last: seq<Byte>)
    requires Blob(last) && Backwards(b).Records?
    ensures Backwards(b + last) == Records(Backwards(b).blobs + [last])
  {
    var c := b + last;
    LastLengthIs(b, last);
    assert c[..|b|] == b && c[|b|..] == last;
  }

  lemma LastLengthIs(b: seq<Byte>, last: seq<Byte>)
    requires Blob(last)
    ensures LastLength(b + last) == |last|
  {
    SliceBehind(b, last, |last| - 4, |last| - 2);
    SliceBehind(b, last, |last| - 2, |last|);
    assert (b + last)[|b + last| - 2..] == last[|last| - 2..];
  }

  lemma SliceBehind(b: seq<Byte>, s: seq<Byte>, i: nat, j: nat)
    requires i <= j <= |s|
    ensures (b + s)[|b| + i..|b| + j] == s[i..j]
  {
  }

  class Ring {
    const size: nat
    const buf: array<Byte>
    var head: nat
    var tail: nat
    var records: nat
    var appended: nat
    var overwritten: nat
    /** Everything ever appended, oldest first. */
    ghost var blobs: seq<seq<Byte>>

    ghost predicate Valid()
      reads this, buf
    {
      && Counted()
      && (forall i | overwritten <= i < |blobs| :: Stored(i))
    }

    /** The counters and positions agree with the list of appended records. */
    ghost predicate Counted()
      reads this
    {
      && RECORD_MAX <= size == buf.Length
      && appended == |blobs| == overwritten + records
      && (forall b | b in blobs :: Blob(b))
      && head == Pos(blobs, |blobs|)
      && tail == Pos(blobs, overwritten)
      && head - tail <= size
    }

    /** The byte the ring holds for position p. */
    ghost function At(p: nat): Byte
      requires size == buf.Length > 0
      reads this, buf
    {
      buf[p % size]
    }

    ghost predicate Stored(i: nat)
      requires size == buf.Length > 0
      requires i < |blobs|
      reads this, buf
    {
      forall k | 0 <= k < |blobs[i]| :: At(Pos(blobs, i) + k) == blobs[i][k]
    }

    constructor (size: nat)
      requires RECORD_MAX <= size
      ensures Valid() && fresh(buf) && blobs == [] && this.size == size
    {
      this.size := size;
      buf := new Byte[size](i => 0);
      head, tail, records, appended, overwritten := 0, 0, 0, 0, 0;
      blobs := [];
    }

    /** ring_get() */
    method Get(abs: nat, n: nat) returns (out: seq<Byte>)
      requires n <= size == buf.Length && size > 0
      ensures |out| == n
      ensures forall k | 0 <= k < n :: out[k] == At(abs + k)
    {
      var off := abs % size;
      var first := if n < size - off then n else size - off;
      out := buf[off..off + first];
      if n > first {
        out := out + buf[..n - first];
      }
      forall k | 0 <= k < n
        ensures out[k] == At(abs + k)
      {
        ModShift(abs, k, size);
      }
    }

    /** ring_put() */
    method Put(abs: nat, src: seq<Byte>)
      requires |src| <= size == buf.Length && size > 0
      modifies buf
      ensures forall k | 0 <= k < |src| :: At(abs + k) == src[k]
      ensures forall p: nat | p < abs && abs + |src| <= p + size :: At(p) == old(At(p))
    {
      var off := abs % size;
      var first := if |src| < size - off then |src| else size - off;
      forall i | 0 <= i < first {
        buf[off + i] := src[i];
      }
      if |src| > first {
        forall i | 0 <= i < |src| - first {
          buf[i] := src[first + i];
        }
      }
      forall k | 0 <= k < |src|
        ensures At(abs + k) == src[k]
      {
        ModShift(abs, k, size);
      }
      forall p: nat | p < abs && abs + |src| <= p + size
        ensures At(p) == old(At(p))
      {
        ModShift(p, abs - p, size);
      }
    }

    /** The length the oldest record gives for itself. */
    method OldestLength() returns (len: nat)
      requires Valid() && records > 0
      ensures len == |blobs[overwritten]| && LengthSane(len)
    {
      assert Blob(blobs[overwritten]) && Stored(overwritten);
      var lb := Get(tail, 2);
      assert lb == blobs[overwritten][..2];
      len := FromLe(lb);
    }

    lemma NotEmpty()
      requires Valid() && head > tail
      ensures records > 0
      ensures Pos(blobs, overwritten) + |blobs[overwritten]| <= head
    {
      if records > 0 {
        PosGrows(blobs, overwritten, |blobs|);
      }
    }

    /**
     * The eviction loop of log_store_append(): push out the oldest records, and
     * only as many of them as it takes for `total` more bytes to fit. The source
     * starts the ring over when a length it reads here is insane; none ever is.
     */
    method MakeRoom(total: nat)
      requires Valid() && LengthSane(total)
      modifies `tail, `records, `overwritten
      ensures Valid()
      ensures old(overwritten) <= overwritten && head + total - tail <= size
      ensures old(overwritten) < overwritten ==> head + total - Pos(blobs, overwritten - 1) > size
    {
      while head + total - tail > size
        invariant Valid() && old(overwritten) <= overwritten
        invariant old(overwritten) < overwritten ==> head + total - Pos(blobs, overwritten - 1) > size
        decreases records
      {
        NotEmpty();
        var len := OldestLength();
        label before:
        tail := tail + len;
        records := records - 1;
        overwritten := overwritten + 1;
        forall i | overwritten <= i < |blobs|
          ensures Stored(i)
        {
          assert old@before(Stored(i));
        }
      }
    }

    ghost predicate Written(from: nat, bytes: seq<Byte>)
      requires size == buf.Length > 0
      reads this, buf
    {
      forall k | 0 <= k < |bytes| :: At(from + k) == bytes[k]
    }

    /** One ring_put() of an append: it continues what was written past the head, and no more. */
    method Extend(ghost done: seq<Byte>, pos: nat, src: seq<Byte>)
      requires Valid() && Written(head, done) && pos == head + |done|
      requires pos + |src| <= tail + size
      modifies buf
      ensures Valid() && Written(head, done + src)
    {
      PosGrows(blobs, overwritten, |blobs|);
      Put(pos, src);
      forall i | overwritten <= i < |blobs|
        ensures Stored(i)
      {
        PosGrows(blobs, overwritten, i);
        PosGrows(blobs, i, |blobs|);
        assert old(Stored(i));
        forall k | 0 <= k < |blobs[i]|
          ensures At(Pos(blobs, i) + k) == blobs[i][k]
        {
          assert At(Pos(blobs, i) + k) == old(At(Pos(blobs, i) + k));
        }
      }
      forall k | 0 <= k < |done + src|
        ensures At(head + k) == (done + src)[k]
      {
        if k < |done| {
          assert At(head + k) == old(At(head + k));
        } else {
          assert At(pos + (k - |done|)) == src[k - |done|];
        }
      }
    }

    /** The copying half of log_store_append(), once there is room. */
    method Store(hdr: seq<Byte>, name: seq<Byte>, text: seq<Byte>, zeros: seq<Byte>, trailer: seq<Byte>)
      requires Valid() && Blob(hdr + name + text + zeros + trailer)
      requires head + |hdr + name + text + zeros + trailer| <= tail + size
      modifies this, buf
      ensures Valid()
      ensures blobs == old(blobs) + [hdr + name + text + zeros + trailer]
      ensures overwritten == old(overwritten)
    {
      var total := |hdr| + |name| + |text| + |zeros| + |trailer|;
      var pos := head;
      Extend([], pos, hdr);
      pos := pos + |hdr|;
      assert [] + hdr == hdr;
      Extend(hdr, pos, name);
      pos := pos + |name|;
      Extend(hdr + name, pos, text);
      pos := pos + |text|;
      Extend(hdr + name + text, pos, zeros);
      Extend(hdr + name + text + zeros, head + total - |trailer|, trailer);

      Commit(hdr + name + text + zeros + trailer, total);
    }

    /** The bytes past the head become a record. */
    method Commit(ghost blob: seq<Byte>, total: nat)
      requires Valid() && Blob(blob) && Written(head, blob) && |blob| == total
      requires head + total <= tail + size
      modifies this
      ensures Valid()
      ensures blobs == old(blobs) + [blob] && overwritten == old(overwritten)
    {
      PosOfPrefix(blobs, [blob], |blobs|);
      PosOfPrefix(blobs, [blob], overwritten);
      forall i | overwritten <= i < |blobs|
        ensures Pos(blobs + [blob], i) == Pos(blobs, i) && Stored(i)
      {
        PosOfPrefix(blobs, [blob], i);
      }
      blobs := blobs + [blob];
      head := head + total;
      records := records + 1;
      appended := appended + 1;
      forall i | overwritten <= i < |blobs|
        ensures Stored(i)
      {
        if i < |blobs| - 1 {
          assert old(Stored(i));
          assert blobs[i] == old(blobs)[i];
        }
      }
    }

    /** Bytes read from inside a kept record are that record's. */
    lemma SliceOf(i: nat, from: nat, out: seq<Byte>)
      requires Valid() && overwritten <= i < |blobs| && from + |out| <= |blobs[i]|
      requires forall k | 0 <= k < |out| :: out[k] == At(Pos(blobs, i) + from + k)
      ensures out == blobs[i][from..from + |out|]
    {
      assert Stored(i);
      forall k | 0 <= k < |out|
        ensures out[k] == blobs[i][from + k]
      {
        assert At(Pos(blobs, i) + (from + k)) == blobs[i][from + k];
      }
    }

    /** ring_get() from inside a kept record. */
    method GetWithin(pos: nat, n: nat, ghost i: nat, ghost from: nat) returns (out: seq<Byte>)
      requires Valid() && n <= size
      ensures |out| == n
      ensures overwritten <= i < |blobs| && pos == Pos(blobs, i) + from && from + n <= |blobs[i]| ==>
                out == blobs[i][from..from + n]
    {
      out := Get(pos, n);
      if overwritten <= i < |blobs| && pos == Pos(blobs, i) + from && from + n <= |blobs[i]| {
        SliceOf(i, from, out);
      }
    }

    /** From record i on, the ring holds the records end to end. */
    lemma {:induction false} LiveFrom(i: nat)
      requires Valid() && overwritten <= i <= |blobs|
      ensures Written(Pos(blobs, i), Flatten(blobs[i..]))
      ensures Pos(blobs, i) + |Flatten(blobs[i..])| == head
      decreases |blobs| - i
    {
      if i == |blobs| {
        assert blobs[i..] == [];
      } else {
        LiveFrom(i + 1);
        assert Stored(i) && blobs[i..][1..] == blobs[i + 1..];
        var p, rest := Pos(blobs, i + 1), Flatten(blobs[i + 1..]);
        assert Flatten(blobs[i..]) == blobs[i] + rest;
        forall k | 0 <= k < |blobs[i] + rest|
          ensures At(Pos(blobs, i) + k) == (blobs[i] + rest)[k]
        {
          if k >= |blobs[i]| {
            assert At(p + (k - |blobs[i]|)) == rest[k - |blobs[i]|];
          }
        }
      }
    }

    /**
     * The bytes of [tail, head) read the same from both ends: as the records that
     * were appended last, in order, none missing and none cut.
     */
    lemma BothWalksAgree()
      requires Valid()
      ensures var live := Flatten(blobs[overwritten..]);
              && Written(tail, live) && |live| == head - tail
              && Forwards(live) == Backwards(live) == Records(blobs[overwritten..])
      ensures appended == overwritten + records && |blobs[overwritten..]| == records
    {
      LiveFrom(overwritten);
      ForwardsFindsAll(blobs[overwritten..]);
      BackwardsFindsAll(blobs[overwritten..]);
    }
  }
}
