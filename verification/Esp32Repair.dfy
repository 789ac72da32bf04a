/**
 * What a line says, defined on the whole of it: every character of section 3.9 of the Unicode
 * Standard is kept, every maximal run of what is none becomes one U+FFFD.
 */
module Esp32Repair {
  import opened Bytes
  import opened Utf8
  import opened Esp32Lines

  /** s begins with a character that may stand in a line. */
  predicate Good(s: seq<Byte>) { First(s) > 0 && (Plain(s[0]) || s[0] >= 0x80) }

  /** The longest beginning of a character that s begins with, known up to k. */
  function Longest(s: seq<Byte>, k: nat): (n: nat)
    requires k <= |s| && Begun(s[..k])
    ensures k <= n <= |s| && Begun(s[..n]) && (n < |s| ==> !Begun(s[..n + 1]))
    decreases |s| - k
  {
    if k < |s| && Begun(s[..k + 1]) then Longest(s, k + 1) else k
  }

  /** The maximal subpart that is replaced where s does not begin with a character. */
  function Subpart(s: seq<Byte>): (n: nat)
    requires s != []
    ensures 0 < n <= |s|
  {
    if Begun(s[..1]) then Longest(s, 1) else 1
  }

  /** `rep` says that a replacement stands in front already. */
  function Repair(s: seq<Byte>, rep: bool): seq<Byte>
    decreases |s|
  {
    if s == [] then []
    else if Good(s) then s[..First(s)] + Repair(s[First(s)..], false)
    else (if rep then [] else REPLACEMENT) + Repair(s[Subpart(s)..], true)
  }

  predicate NoControl(s: seq<Byte>) { forall i | 0 <= i < |s| :: s[i] != CR && s[i] != LF && s[i] != ESC }

  /** Between two characters of a line that is being collected. */
  predicate Idle(a: Asm) { AsmOk(a) && !a.discarding && a.pending == [] && a.escape.NoEscape? }

  function FeedAll(a: Asm, s: seq<Byte>): (b: Asm)
    requires AsmOk(a)
    ensures AsmOk(b)
    decreases |s|
  {
    if s == [] then a
    else
      StepKeeps(a, Fed(s[0]));
      FeedAll(FeedByte(a, s[0]), s[1..])
  }

  lemma {:induction false} FeedConcat(a: Asm, s: seq<Byte>, t: seq<Byte>)
    requires AsmOk(a)
    ensures FeedAll(a, s + t) == FeedAll(FeedAll(a, s), t)
    decreases |s|
  {
    hide Clean, FeedByte;
    if s == [] {
      assert s + t == t;
    } else {
      StepKeeps(a, Fed(s[0]));
      FeedConcat(FeedByte(a, s[0]), s[1..], t);
      assert (s + t)[1..] == s[1..] + t;
    }
  }

  lemma FeedFirst(a: Asm, s: seq<Byte>)
    requires AsmOk(a) && s != []
    ensures AsmOk(FeedByte(a, s[0])) && FeedAll(a, s) == FeedAll(FeedByte(a, s[0]), s[1..])
  {
    hide Sound, FeedByte;
    StepKeeps(a, Fed(s[0]));
  }

  /** A plain byte that fits, and does not complete a banner within the line. */
  lemma FeedPlain(a: Asm, b: Byte)
    requires Idle(a) && Plain(b) && b != ESC && |a.line| + 1 <= TEXT_MAX && BannerFirst(a.line + [b])
    ensures var c := FeedByte(a, b);
            && Idle(c) && c.line == a.line + [b] && !c.lastRep && !c.afterCr
            && c.truncated == a.truncated && c.emitted == a.emitted
  {
    hide Banner, Clean, EndsWith;
    var m := Matched(a.match_, b);
    StepKeeps(a, Fed(b));
    if m == BANNER_LEN {
      MatchedIsTail(a.(afterCr := false), b);
      CompletedInFront(a.line, b);
      assert Banner()[BANNER_LEN - 1..] == [b];
    }
  }

  lemma CompletedInFront(s: seq<Byte>, b: Byte)
    requires EndsWith(s, Banner()[..BANNER_LEN - 1]) && b == Banner()[BANNER_LEN - 1] && BannerFirst(s + [b])
    ensures |s| == BANNER_LEN - 1
  {
    hide Banner;
    OneMore(s, b, BANNER_LEN);
    assert Banner()[..BANNER_LEN] == Banner();
    assert (s + [b])[..|s| + 1] == s + [b];
  }

  /** The beginning of a character. */
  lemma {:induction false} FeedBegun(a: Asm, p: seq<Byte>)
    requires Idle(a) && Begun(p) && NoControl(p)
    ensures FeedAll(a, p) == a.(pending := p, match_ := 0, afterCr := false)
    decreases |p|
  {
    hide AsmOk, Clean;
    var k := |p| - 1;
    var q, b := p[..k], p[k];
    assert p == q + [b];
    FeedConcat(a, q, [b]);
    if k == 0 {
      assert q == [];
      FeedFirst(a, [b]);
    } else {
      BegunShorter(p);
      FeedBegun(a, q);
      FeedFirst(FeedAll(a, q), [b]);
      assert Continues(q, b);
    }
  }

  lemma BegunShorter(p: seq<Byte>)
    requires Begun(p) && |p| > 1
    ensures Begun(p[..|p| - 1])
  {
  }

  /** A character of more than one byte, whole. */
  lemma FeedCharacter(a: Asm, c: seq<Byte>)
    requires Idle(a) && CodePoint(c) && |c| >= 2 && NoControl(c) && |a.line| + |c| <= TEXT_MAX
    ensures var d := FeedAll(a, c);
            && Idle(d) && d.line == a.line + c && !d.lastRep && !d.afterCr
            && d.truncated == a.truncated && d.emitted == a.emitted
  {
    hide AsmOk, Clean;
    var k := |c| - 1;
    var p, b := c[..k], c[k];
    assert c == p + [b] && Begun(p) && Continues(p, b);
    FeedConcat(a, p, [b]);
    FeedBegun(a, p);
    FeedFirst(FeedAll(a, p), [b]);
  }

  /** What is given up becomes one replacement, or joins the one before. */
  lemma Replaced(a: Asm)
    requires Idle(a) && |a.line| + (if a.lastRep then 0 else |REPLACEMENT|) <= TEXT_MAX
    ensures var c := AppendReplacement(a.(match_ := 0));
            && Idle(c) && c.line == a.line + (if a.lastRep then [] else REPLACEMENT) && c.lastRep
            && c.afterCr == a.afterCr && c.truncated == a.truncated && c.emitted == a.emitted
  {
    hide Clean, Ends, Banner;
    ReplacementKeeps(a.(match_ := 0));
  }

  /** The byte after a maximal subpart finds it given up. */
  lemma FeedBreaks(a: Asm, b: Byte)
    requires AsmOk(a) && a.pending != [] && a.escape.NoEscape? && !a.afterCr && !Continues(a.pending, b)
    ensures AsmOk(Abandon(a)) && FeedByte(a, b) == FeedByte(Abandon(a), b)
  {
    hide Clean, Ends, Banner;
    AbandonKeeps(a);
  }

  /** A line ended: it goes out, unless there is nothing in it. */
  lemma FeedEnd(a: Asm)
    requires Idle(a) && !a.afterCr
    ensures FeedAll(a, [LF]).emitted == a.emitted + (if a.line == [] then [] else [Line(a.line, a.truncated)])
  {
    hide AsmOk, Clean;
    FeedFirst(a, [LF]);
  }

  /** The line that the rest of the bytes makes of what there is. */
  function Out(a: Asm, s: seq<Byte>): seq<Byte> { a.line + Repair(s, a.lastRep) }

  /** It fits, and has no banner but in front. */
  predicate Fits(a: Asm, s: seq<Byte>) { |Out(a, s)| <= TEXT_MAX && BannerFirst(Out(a, s)) }

  lemma BannerFirstPrefix(s: seq<Byte>, t: seq<Byte>)
    requires BannerFirst(s + t)
    ensures BannerFirst(s)
  {
    hide Banner, EndsWith;
    forall n | BANNER_LEN < n <= |s|
      ensures !EndsWith(s[..n], Banner())
    {
      assert (s + t)[..n] == s[..n];
    }
  }

  lemma GoodStep(a: Asm, s: seq<Byte>)
    requires Idle(a) && s != [] && Good(s) && NoControl(s) && Fits(a, s)
    ensures var n := First(s);
            var c := FeedAll(a, s[..n]);
            && Idle(c) && !c.afterCr && Out(c, s[n..]) == Out(a, s)
            && c.truncated == a.truncated && c.emitted == a.emitted
  {
    var n := First(s);
    var c := s[..n];
    assert Out(a, s) == (a.line + c) + Repair(s[n..], false);
    BannerFirstPrefix(a.line + c, Repair(s[n..], false));
    hide AsmOk, Clean, Repair, BannerFirst, FeedAll;
    if n == 1 {
      assert c == [s[0]] && c[1..] == [];
      FeedFirst(a, c);
      FeedPlain(a, s[0]);
      FeedNone(FeedByte(a, s[0]));
    } else {
      FeedCharacter(a, c);
    }
  }

  lemma FeedNone(a: Asm)
    requires AsmOk(a)
    ensures FeedAll(a, []) == a
  {
  }

  /** A maximal subpart and whatever comes after it, were it the end of the line. */
  lemma BadStep(a: Asm, s: seq<Byte>, rest: seq<Byte>)
    requires Idle(a) && s != [] && !Good(s) && NoControl(s) && Fits(a, s) && rest == s[Subpart(s)..] + [LF]
    ensures var c := AppendReplacement(a.(match_ := 0, afterCr := false));
            && Idle(c) && !c.afterCr && Out(c, s[Subpart(s)..]) == Out(a, s)
            && c.truncated == a.truncated && c.emitted == a.emitted
            && FeedAll(a, s + [LF]) == FeedAll(c, rest)
  {
    hide Fits, Out, Good, NoControl;
    BadOut(a, s);
    BadFeed(a, s, rest);
  }

  lemma BadOut(a: Asm, s: seq<Byte>)
    requires Idle(a) && s != [] && !Good(s) && Fits(a, s)
    ensures var c := AppendReplacement(a.(match_ := 0, afterCr := false));
            && Idle(c) && !c.afterCr && Out(c, s[Subpart(s)..]) == Out(a, s)
            && c.truncated == a.truncated && c.emitted == a.emitted
  {
    hide Good, AsmOk, Clean;
    var k := Subpart(s);
    var mark := if a.lastRep then [] else REPLACEMENT;
    assert Out(a, s) == (a.line + mark) + Repair(s[k..], true);
    IdleAnyway(a);
    Replaced(a.(afterCr := false));
  }

  lemma IdleAnyway(a: Asm)
    requires Idle(a)
    ensures Idle(a.(afterCr := false))
  {
  }

  lemma BadFeed(a: Asm, s: seq<Byte>, rest: seq<Byte>)
    requires Idle(a) && s != [] && !Good(s) && NoControl(s) && rest == s[Subpart(s)..] + [LF]
    requires AsmOk(AppendReplacement(a.(match_ := 0, afterCr := false)))
    ensures FeedAll(a, s + [LF]) == FeedAll(AppendReplacement(a.(match_ := 0, afterCr := false)), rest)
  {
    hide Good, NoControl, AppendReplacement, Clean;
    var k := Subpart(s);
    assert s + [LF] == s[..k] + rest;
    FeedConcat(a, s[..k], rest);
    if Begun(s[..1]) {
      BrokenOff(a, s, rest);
    } else {
      assert s[..1] == [s[0]] && [s[0]][1..] == [];
      FeedFirst(a, s[..1]);
      NeverBegun(a, s);
      FeedNone(FeedByte(a, s[0]));
    }
  }

  lemma NeverBegun(a: Asm, s: seq<Byte>)
    requires Idle(a) && s != [] && !Good(s) && NoControl(s) && !Begun(s[..1])
    ensures FeedByte(a, s[0]) == AppendReplacement(a.(match_ := 0, afterCr := false))
  {
    hide AsmOk, Clean;
    assert s[..1] == [s[0]];
    PlainIsGood(s);
  }

  lemma PlainIsGood(s: seq<Byte>)
    requires s != []
    ensures Plain(s[0]) ==> Good(s)
  {
    assert |s[..1]| == 1;
  }

  lemma BrokenOff(a: Asm, s: seq<Byte>, rest: seq<Byte>)
    requires Idle(a) && s != [] && !Good(s) && NoControl(s) && Begun(s[..1]) && rest == s[Subpart(s)..] + [LF]
    ensures var c := AppendReplacement(a.(match_ := 0, afterCr := false));
            AsmOk(FeedAll(a, s[..Subpart(s)])) && AsmOk(c)
                && FeedAll(FeedAll(a, s[..Subpart(s)]), rest) == FeedAll(c, rest)
  {
    var k := Subpart(s);
    var p := s[..k];
    FeedBegun(a, p);
    var f := FeedAll(a, p);
    SubpartBreaks(s);
    FeedBreaks(f, rest[0]);
    FeedFirst(f, rest);
    FeedFirst(Abandon(f), rest);
    Asis(a, p);
  }

  lemma Asis(a: Asm, p: seq<Byte>)
    requires p != [] && a.pending == []
    ensures Abandon(a.(pending := p, match_ := 0, afterCr := false)) == AppendReplacement(a.(match_ := 0,
        afterCr := false))
  {
  }

  /** The byte after a maximal subpart does not go on with it. */
  lemma SubpartBreaks(s: seq<Byte>)
    requires s != [] && !Good(s) && Begun(s[..1])
    ensures var k := Subpart(s); k < |s| ==> !Continues(s[..k], s[k])
    ensures var k := Subpart(s); Begun(s[..k]) && !Continues(s[..k], LF)
  {
    var k := Subpart(s);
    if k < |s| {
      assert s[..k + 1] == s[..k] + [s[k]];
      BegunGoesOn(s[..k], s[k]);
      WholeIsGood(s, k + 1);
    }
  }

  lemma BegunGoesOn(p: seq<Byte>, b: Byte)
    requires Begun(p)
    ensures Continues(p, b) ==> Begun(p + [b]) || CodePoint(p + [b])
  {
  }

  lemma WholeIsGood(s: seq<Byte>, n: nat)
    requires 0 < n <= |s| && s[0] >= 0x80
    ensures CodePoint(s[..n]) ==> Good(s)
  {
  }

  /**
   * The bytes of a line, without escapes and line ends, come out as the repaired line as soon as
   * the line ends, as long as that line fits and no banner cuts it.
   */
  lemma {:induction false} LineComesOut(a: Asm, s: seq<Byte>)
    requires Idle(a) && NoControl(s) && Fits(a, s) && (s == [] ==> !a.afterCr)
    ensures FeedAll(a, s + [LF]).emitted
            == a.emitted + (if Out(a, s) == [] then [] else [Line(Out(a, s), a.truncated)])
    decreases |s|
  {
    hide AsmOk, Clean, Repair, BannerFirst, FeedAll, Good, Subpart, First;
    if s == [] {
      assert s + [LF] == [LF];
      NothingOut(a);
      FeedEnd(a);
    } else if Good(s) {
      var n := First(s);
      FirstIsSome(s);
      GoodStep(a, s);
      FeedConcat(a, s[..n], s[n..] + [LF]);
      assert s + [LF] == s[..n] + (s[n..] + [LF]);
      LineComesOut(FeedAll(a, s[..n]), s[n..]);
    } else {
      var k := Subpart(s);
      BadStep(a, s, s[k..] + [LF]);
      LineComesOut(AppendReplacement(a.(match_ := 0, afterCr := false)), s[k..]);
    }
  }

  lemma NothingOut(a: Asm)
    ensures Out(a, []) == a.line
  {
  }

  lemma FirstIsSome(s: seq<Byte>)
    requires s != [] && Good(s)
    ensures 0 < First(s) <= |s| && CodePoint(s[..First(s)])
  {
  }

  // ---- Lines that need no repair -------------------------------------------------------------------

  lemma {:induction false} CleanStays(s: seq<Byte>, rep: bool)
    requires WellFormed(s) && Tidy(s)
    ensures Repair(s, rep) == s && NoControl(s)
    decreases |s|
  {
    if s != [] {
      var n := First(s);
      assert s == s[..n] + s[n..];
      assert s[0] == TAB || (s[0] >= 0x20 && s[0] != 0x7F);
      CleanStays(s[n..], false);
    }
  }

  /** A line that is clean already comes out byte for byte. */
  lemma CleanComesOut(s: seq<Byte>)
    requires Clean(s) && s != []
    ensures FeedAll(INIT, s + [LF]).emitted == [Line(s, false)]
  {
    InitOk();
    CleanStays(s, false);
    assert INIT.line + s == s && INIT.emitted + [Line(s, false)] == [Line(s, false)];
    LineComesOut(INIT, s);
  }

  /** So what came out once comes out the same a second time. */
  lemma SecondTimeTheSame(run: seq<Event>, i: nat)
    requires i < |Stream(run).emitted|
    ensures var s := Stream(run).emitted[i].bytes; FeedAll(INIT, s + [LF]).emitted == [Line(s, false)]
  {
    EveryLineIsClean(run, i);
    CleanComesOut(Stream(run).emitted[i].bytes);
  }

  /** What is repaired is text. */
  lemma {:induction false} RepairedIsText(s: seq<Byte>, rep: bool)
    requires NoControl(s)
    ensures WellFormed(Repair(s, rep)) && Tidy(Repair(s, rep))
    decreases |s|
  {
    hide WellFormed, First, CodePoint, Subpart;
    if s == [] {
      NothingIsClean();
    } else if Good(s) {
      FirstIsSome(s);
      var n := First(s);
      RepairedIsText(s[n..], false);
      TidyCharacter(s[..n]);
      Joined(s[..n], Repair(s[n..], false));
    } else {
      var rest := Repair(s[Subpart(s)..], true);
      RepairedIsText(s[Subpart(s)..], true);
      ReplacementIsForeign();
      Joined(REPLACEMENT, rest);
      assert [] + rest == rest;
    }
  }

  lemma Joined(c: seq<Byte>, rest: seq<Byte>)
    requires CodePoint(c) && Tidy(c) && WellFormed(rest) && Tidy(rest)
    ensures WellFormed(c + rest) && Tidy(c + rest)
  {
    OneCodePoint(c);
    Concat(c, rest);
  }

  lemma TidyCharacter(c: seq<Byte>)
    requires CodePoint(c) && (Plain(c[0]) || c[0] >= 0x80)
    ensures Tidy(c)
  {
  }
}
