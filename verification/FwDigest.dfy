/** The check of a full-flash file with the digest of RFC 1321 in the place of "some digest". */
module FwDigest {
  import opened Bytes
  import opened EspImage
  import opened FwImage
  import opened FwGrammar
  import Md5

  function WithMd5(sha: seq<Byte> -> seq<Byte>): Hashes { Hashes(sha, s => Md5.Digest(s)) }

  /** Where the record behind n entries has its digest, and what it is the digest of. */
  ghost predicate RecordHoldsMd5(f: seq<Byte>, n: nat) {
    var at := TABLE_OFFSET + n * PART_ENTRY_LEN;
    at + PART_ENTRY_LEN <= |f| && f[at + 16..at + 32] == Md5.Digest(f[TABLE_OFFSET..at])
  }

  lemma ImageHoldsMd5(sha: seq<Byte> -> seq<Byte>, f: seq<Byte>, e: nat, n: nat)
    requires FlashImage(WithMd5(sha), f, e, n)
    ensures RecordHoldsMd5(f, n)
  {
    hide IsImage, Md5.Digest;
    var t := f[TABLE_OFFSET..TABLE_END];
    var at := TABLE_OFFSET + n * PART_ENTRY_LEN;
    var k := n * PART_ENTRY_LEN;
    assert (n + 1) * PART_ENTRY_LEN == k + PART_ENTRY_LEN <= TABLE_LEN;
    Inside(f, TABLE_OFFSET, TABLE_END, k, PART_ENTRY_LEN);
    assert Entry(t, n)[16..32] == f[at + 16..at + 32];
    assert t[..n * PART_ENTRY_LEN] == f[TABLE_OFFSET..at];
  }

  lemma Inside(f: seq<Byte>, a: nat, b: nat, k: nat, n: nat)
    requires a + k + n <= b <= |f|
    ensures f[a..b][k..k + n] == f[a + k..a + k + n]
  {
    var s, t := f[a..b][k..k + n], f[a + k..a + k + n];
    assert |s| == n == |t|;
    forall i | 0 <= i < n
      ensures s[i] == t[i]
    {
      assert s[i] == f[a..b][k + i] == f[a + (k + i)];
      assert t[i] == f[a + k + i];
    }
  }

  /** The files that pass, but perhaps for their layout, are the images whose table carries its MD5. */
  lemma AcceptsExactlyMd5Images(sha: seq<Byte> -> seq<Byte>, f: seq<Byte>)
    ensures var h := WithMd5(sha);
            var r := End(h, FeedAll(h, Begin(|f|), f)).result;
            (r.Accepted? || r.Incompatible?) <==> exists e, n :: FlashImage(h, f, e, n) && RecordHoldsMd5(f, n)
  {
    hide FlashImage, RecordHoldsMd5, FeedAll, End, Begin;
    var h := WithMd5(sha);
    AcceptsExactlyImages(h, f);
    forall e, n | FlashImage(h, f, e, n)
      ensures RecordHoldsMd5(f, n)
    {
      ImageHoldsMd5(sha, f, e, n);
    }
  }
}
