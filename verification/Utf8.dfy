/** Well-formed UTF-8: Table 3-7 in section 3.9 of the Unicode Standard. */
module Utf8 {
  import opened Bytes

  predicate Continuation(b: Byte) { 0x80 <= b <= 0xBF }

  /** The range of the second byte after each lead byte. */
  predicate SecondOk(lead: Byte, b: Byte) {
    if lead == 0xE0 then 0xA0 <= b <= 0xBF
    else if lead == 0xED then 0x80 <= b <= 0x9F
    else if lead == 0xF0 then 0x90 <= b <= 0xBF
    else if lead == 0xF4 then 0x80 <= b <= 0x8F
    else Continuation(b)
  }

  /** How many bytes a well-formed code point has that starts with b; 0 when none does. */
  function Need(b: Byte): nat {
    if b < 0x80 then 1
    else if 0xC2 <= b <= 0xDF then 2
    else if 0xE0 <= b <= 0xEF then 3
    else if 0xF0 <= b <= 0xF4 then 4
    else 0
  }

  /** c is one well-formed code point, whole. */
  predicate CodePoint(c: seq<Byte>) {
    && 1 <= |c| <= 4
    && |c| == Need(c[0])
    && (|c| >= 2 ==> SecondOk(c[0], c[1]))
    && (forall i | 2 <= i < |c| :: Continuation(c[i]))
  }

  /** The length of the code point s starts with; 0 when s starts with none. */
  function First(s: seq<Byte>): (n: nat)
    ensures n <= |s|
    ensures n > 0 ==> CodePoint(s[..n])
  {
    if s == [] then 0
    else
      var n := Need(s[0]);
      if n <= |s| && CodePoint(s[..n]) then n else 0
  }

  predicate WellFormed(s: seq<Byte>) {
    s == [] || (First(s) > 0 && WellFormed(s[First(s)..]))
  }

  lemma FirstOf(c: seq<Byte>, rest: seq<Byte>)
    requires CodePoint(c)
    ensures First(c + rest) == |c|
  {
    assert (c + rest)[..|c|] == c;
    assert (c + rest)[0] == c[0];
  }

  lemma {:induction false} Concat(a: seq<Byte>, b: seq<Byte>)
    requires WellFormed(a)
    ensures WellFormed(a + b) <==> WellFormed(b)
    decreases |a|
  {
    if a == [] {
      assert a + b == b;
    } else {
      var n := First(a);
      var c := a[..n];
      FirstOf(c, a[n..] + b);
      assert a + b == c + (a[n..] + b);
      assert (a + b)[n..] == a[n..] + b;
      Concat(a[n..], b);
    }
  }

  lemma OneCodePoint(c: seq<Byte>)
    requires CodePoint(c)
    ensures WellFormed(c)
  {
    FirstOf(c, []);
    assert c + [] == c;
    assert c[|c|..] == [];
  }

  /** A proper, non-empty prefix of a code point is not well-formed. */
  lemma ProperPrefix(c: seq<Byte>, k: nat)
    requires CodePoint(c) && 0 < k < |c|
    ensures !WellFormed(c[..k])
  {
    assert c[..k][0] == c[0];
  }

  /** The start of the code point that holds byte k - 1. */
  function StartBefore(s: seq<Byte>, k: nat): (i: nat)
    requires WellFormed(s) && 0 < k <= |s|
    ensures i < k
    decreases |s|
  {
    var n := First(s);
    if k <= n then 0 else n + StartBefore(s[n..], k - n)
  }

  /** i is where a code point of s starts, and the ones before it are whole. */
  ghost predicate Boundary(s: seq<Byte>, i: nat) {
    i <= |s| && WellFormed(s[..i]) && WellFormed(s[i..])
  }

  lemma {:induction false} StartBeforeIs(s: seq<Byte>, k: nat)
    requires WellFormed(s) && 0 < k <= |s|
    ensures Boundary(s, StartBefore(s, k))
    ensures k <= StartBefore(s, k) + First(s[StartBefore(s, k)..])
    decreases |s|
  {
    var n := First(s);
    if k <= n {
      assert s[0..] == s;
    } else {
      var t := s[n..];
      var j := StartBefore(t, k - n);
      StartBeforeIs(t, k - n);
      Deeper(s, j);
    }
  }

  /** A boundary after the first code point, seen from the start. */
  lemma Deeper(s: seq<Byte>, j: nat)
    requires First(s) > 0 && Boundary(s[First(s)..], j)
    ensures Boundary(s, First(s) + j)
    ensures s[First(s)..][j..] == s[First(s) + j..]
  {
    var n := First(s);
    OneCodePoint(s[..n]);
    Concat(s[..n], s[n..][..j]);
    assert s[..n + j] == s[..n] + s[n..][..j];
  }

  /** s[..k] is the longest well-formed prefix of s that has at most cap bytes. */
  ghost predicate LongestPrefix(s: seq<Byte>, cap: nat, k: nat) {
    && k <= cap && k <= |s|
    && WellFormed(s[..k])
    && (forall j | k < j <= cap && j <= |s| :: !WellFormed(s[..j]))
  }

  /** A prefix that ends inside a code point is not well-formed. */
  lemma InsideIsNotWellFormed(s: seq<Byte>, i: nat, j: nat)
    requires i < j <= |s| && j < i + First(s[i..])
    requires WellFormed(s[..i])
    ensures !WellFormed(s[..j])
  {
    var c := s[i..][..First(s[i..])];
    assert s[..j] == s[..i] + c[..j - i];
    Concat(s[..i], c[..j - i]);
    ProperPrefix(c, j - i);
  }

  lemma WholeCodePoint(s: seq<Byte>, i: nat)
    requires i <= |s| && First(s[i..]) > 0
    requires WellFormed(s[..i])
    ensures WellFormed(s[..i + First(s[i..])])
  {
    var c := s[i..][..First(s[i..])];
    assert s[..i + |c|] == s[..i] + c;
    OneCodePoint(c);
    Concat(s[..i], c);
  }

  lemma NoneInside(s: seq<Byte>, i: nat, cap: nat)
    requires i < cap <= |s| && cap < i + First(s[i..])
    requires WellFormed(s[..i])
    ensures LongestPrefix(s, cap, i)
  {
    forall j | i < j <= cap && j <= |s|
      ensures !WellFormed(s[..j])
    {
      InsideIsNotWellFormed(s, i, j);
    }
  }

  /** The answer log_store_utf8_cut() has to find. */
  function CutAt(s: seq<Byte>, cap: nat): nat
    requires WellFormed(s) && 0 < cap <= |s|
  {
    var i := StartBefore(s, cap);
    if cap == i + First(s[i..]) then cap else i
  }

  lemma CutIsLongest(s: seq<Byte>, cap: nat)
    requires WellFormed(s) && 0 < cap <= |s|
    ensures LongestPrefix(s, cap, CutAt(s, cap))
  {
    StartBeforeIs(s, cap);
    var i := StartBefore(s, cap);
    if cap == i + First(s[i..]) {
      WholeCodePoint(s, i);
    } else {
      NoneInside(s, i, cap);
    }
  }

  /** What the backward look sees: a lead byte, then continuation bytes only. */
  lemma BytesOfCodePoint(s: seq<Byte>, i: nat)
    requires i < |s| && First(s[i..]) > 0
    ensures !Continuation(s[i]) && Need(s[i]) == First(s[i..])
    ensures forall j | i < j < i + First(s[i..]) :: Continuation(s[j])
  {
    var c := s[i..][..First(s[i..])];
    assert s[i] == c[0];
    forall j | i < j < i + |c|
      ensures Continuation(s[j])
    {
      assert s[j] == c[j - i];
    }
  }

  /** What the backward look comes upon, and what it has to answer. */
  ghost predicate CutFacts(s: seq<Byte>, n: nat, i: nat) {
    && i < n <= |s|
    && Need(s[i]) >= n - i
    && !Continuation(s[i])
    && (forall j | i < j < n :: Continuation(s[j]))
    && LongestPrefix(s, n, if Need(s[i]) == n - i then n else i)
  }

  lemma CutFactsHold(s: seq<Byte>, n: nat)
    requires WellFormed(s) && 0 < n <= |s|
    ensures CutFacts(s, n, StartBefore(s, n))
  {
    CutIsLongest(s, n);
    StartBeforeIs(s, n);
    BytesOfCodePoint(s, StartBefore(s, n));
  }

  /**
   * log_store_utf8_cut(): look back from the cut for the lead byte of the last
   * character and drop that character when the cut goes through it.
   */
  method Cut(text: seq<Byte>, cap: nat) returns (n: nat)
    ensures n <= cap && n <= |text| && (cap <= n + 3 || |text| <= n + 3)
    ensures WellFormed(text) ==> LongestPrefix(text, cap, n)
  {
    n := if |text| < cap then |text| else cap;
    ghost var i := -1;
    if n == 0 {
      assert text[..0] == [];
    } else if WellFormed(text) {
      CutFactsHold(text, n);
      i := StartBefore(text, n);
    }
    var back := 1;
    while back <= 4 && back <= n
      invariant 1 <= back <= n + 1
      invariant i >= 0 ==> CutFacts(text, n, i) && i <= n - back
    {
      var c := text[n - back];
      if Continuation(c) {
        back := back + 1;
        continue;
      }
      var need := if c < 0x80 then 1
                  else if 0xC0 <= c < 0xE0 then 2
                  else if 0xE0 <= c < 0xF0 then 3
                  else if 0xF0 <= c < 0xF8 then 4
                  else 1;
      n := if back < need then n - back else n;
      return;
    }
  }
}
