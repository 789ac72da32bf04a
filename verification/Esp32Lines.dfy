/** Bytes from the coprocessor's UART made into log lines (esp32_log_source.c), one byte a step. */
module Esp32Lines {
  import opened Bytes
  import opened Utf8
  import LogRecords

  const TEXT_MAX: nat := LogRecords.TEXT_MAX
  const CSI_MAX: nat := 32
  const TAB: Byte := 9
  const LF: Byte := 10
  const CR: Byte := 13
  const ESC: Byte := 0x1B

  /** U+FFFD */
  const REPLACEMENT: seq<Byte> := [0xEF, 0xBF, 0xBD]

  const BANNER_LEN: nat := 8

  /** "ESP-ROM:". Its first letter is nowhere else in it, so it never overlaps itself. */
  function Banner(): (s: seq<Byte>)
    ensures |s| == BANNER_LEN
    ensures forall i | 0 <= i < BANNER_LEN :: Plain(s[i]) && (s[i] == 58 <==> i == BANNER_LEN - 1)
                                              && (s[i] == s[0] <==> i == 0)
  {
    [69, 83, 80, 45, 82, 79, 77, 58]
  }

  datatype Line = Line(bytes: seq<Byte>, truncated: bool)

  datatype Escape = NoEscape | AfterEsc | Csi(len: nat)

  /** struct esp32_log_assembler; `pending` is the character being collected, `emitted` what went out. */
  datatype Asm = Asm(
    line: seq<Byte>, truncated: bool, discarding: bool, lastRep: bool, afterCr: bool,
    pending: seq<Byte>, escape: Escape, match_: nat, emitted: seq<Line>)

  // ---- The line --------------------------------------------------------------------------------

  function Clear(a: Asm): Asm { a.(line := [], truncated := false, lastRep := false, pending := []) }

  function Emit(a: Asm): Asm { a.(emitted := a.emitted + [Line(a.line, a.truncated)]) }

  /** append(): the bytes of one character, or the end of a line that has become too long. */
  function Append(a: Asm, c: seq<Byte>): Asm {
    if a.discarding then a
    else if |a.line| + |c| > TEXT_MAX then Clear(Emit(a.(truncated := true))).(discarding := true)
    else a.(line := a.line + c)
  }

  function AppendChar(a: Asm, c: seq<Byte>): Asm { Append(a, c).(lastRep := false) }

  function AppendReplacement(a: Asm): Asm {
    if a.lastRep then a else Append(a, REPLACEMENT).(lastRep := true)
  }

  /** abandon_sequence() */
  function Abandon(a: Asm): Asm { if a.pending == [] then a else AppendReplacement(a.(pending := [])) }

  function EndLine(a0: Asm): Asm {
    var a := Abandon(a0).(escape := NoEscape, match_ := 0);
    Clear(if !a.discarding && a.line != [] then Emit(a) else a).(discarding := false)
  }

  // ---- The ROM banner --------------------------------------------------------------------------

  predicate EndsWith(s: seq<Byte>, t: seq<Byte>) { |t| <= |s| && s[|s| - |t|..] == t }

  /** banner_completed(): how much of the banner the text ends with once c has come; all of it is 8. */
  function Matched(m: nat, c: Byte): (k: nat)
    requires m < BANNER_LEN
    ensures k <= BANNER_LEN
  {
    if c == Banner()[m] then m + 1 else if c == Banner()[0] then 1 else 0
  }

  /** start_banner_line() */
  function StartBannerLine(a: Asm): Asm {
    var head := BANNER_LEN - 1;
    var isTail := !a.discarding && EndsWith(a.line, Banner()[..head]);
    if isTail && |a.line| == head then AppendChar(a, Banner()[head..])
    else
      var b := if isTail then a.(line := a.line[..|a.line| - head]) else a;
      var e := if !b.discarding && b.line != [] then Emit(b) else b;
      AppendChar(Clear(e).(discarding := false), Banner())
  }

  // ---- Bytes -----------------------------------------------------------------------------------

  /** Tab and the printable characters of ASCII. */
  predicate Plain(b: Byte) { b == TAB || 0x20 <= b < 0x7F }

  /** b goes on with the character that has been begun. */
  predicate Continues(p: seq<Byte>, b: Byte)
    requires p != []
  {
    if |p| == 1 then SecondOk(p[0], b) else Continuation(b)
  }

  /** A byte that does not go on with anything. */
  function FreshByte(a: Asm, b: Byte): Asm
    requires a.match_ < BANNER_LEN
  {
    if Plain(b) then
      var m := Matched(a.match_, b);
      if m == BANNER_LEN then StartBannerLine(a.(match_ := 0)) else AppendChar(a.(match_ := m), [b])
    else
      var c := a.(match_ := 0);
      if b >= 0x80 && Need(b) >= 2 then c.(pending := [b]) else AppendReplacement(c)
  }

  /** text_byte() */
  function TextByte(a: Asm, b: Byte): Asm
    requires a.match_ < BANNER_LEN
  {
    if a.pending != [] && Continues(a.pending, b) then
      var p := a.pending + [b];
      if |p| == Need(p[0]) then AppendChar(a, p).(pending := []) else a.(pending := p)
    else FreshByte(Abandon(a), b)
  }

  /** feed_byte() */
  function FeedByte(a0: Asm, b: Byte): Asm
    requires a0.match_ < BANNER_LEN
  {
    var a := a0.(afterCr := false);
    if b == CR then EndLine(a).(afterCr := true)
    else if b == LF then if a0.afterCr then a else EndLine(a)
    else
      match a.escape
      case AfterEsc =>
        if b == 91 then a.(escape := Csi(0))
        else if 0x20 <= b < 0x7F then a.(escape := NoEscape)
        else Visible(a.(escape := NoEscape), b)
      case Csi(n) =>
        if 0x40 <= b <= 0x7E then a.(escape := NoEscape)
        else if 0x20 <= b <= 0x3F && n + 1 <= CSI_MAX then a.(escape := Csi(n + 1))
        else Visible(a.(escape := NoEscape), b)
      case NoEscape => Visible(a, b)
  }

  /** A byte outside an escape sequence. */
  function Visible(a: Asm, b: Byte): Asm
    requires a.match_ < BANNER_LEN
  {
    if b == ESC then Abandon(a).(escape := AfterEsc) else TextByte(a, b)
  }

  /** esp32_log_init() */
  const INIT: Asm := Asm([], false, false, false, false, [], NoEscape, 0, [])

  datatype Event = Fed(b: Byte) | Flush | Overflow | Reset

  /** Besides bytes: a flush, by itself or after a silence; bytes lost on the way; a reset. */
  function Step(a: Asm, e: Event): Asm
    requires a.match_ < BANNER_LEN
  {
    match e
    case Fed(b) => FeedByte(a, b)
    case Flush => EndLine(a).(afterCr := false)
    case Overflow =>
      var c := a.(escape := NoEscape, pending := [], afterCr := false, match_ := 0);
      if c.discarding then c else AppendReplacement(c).(truncated := true)
    case Reset => Clear(a).(discarding := false, escape := NoEscape, afterCr := false, match_ := 0)
  }

  // ---- What a line is ---------------------------------------------------------------------------

  /** No control byte but tab. */
  predicate Tidy(s: seq<Byte>) { forall i | 0 <= i < |s| :: s[i] == TAB || (s[i] >= 0x20 && s[i] != 0x7F) }

  /** The banner is nowhere but where the line starts. */
  predicate BannerFirst(s: seq<Byte>) {
    forall n | BANNER_LEN < n <= |s| :: !EndsWith(s[..n], Banner())
  }

  predicate Clean(s: seq<Byte>) { WellFormed(s) && Tidy(s) && BannerFirst(s) && |s| <= TEXT_MAX }

  /** A character begun and not finished. */
  predicate Begun(p: seq<Byte>) {
    && p != [] && 2 <= Need(p[0]) && |p| < Need(p[0])
    && (|p| >= 2 ==> SecondOk(p[0], p[1]))
    && (forall i | 2 <= i < |p| :: Continuation(p[i]))
  }

  /** m is how much of the banner the line ends with. */
  predicate Ends(s: seq<Byte>, m: nat) {
    forall k | 1 <= k < BANNER_LEN :: EndsWith(s, Banner()[..k]) <==> m == k
  }

  /** Whatever the match: the line and what went out are clean. */
  predicate Sound(a: Asm) {
    && Clean(a.line) && a.match_ < BANNER_LEN
    && (a.discarding ==> a.line == [])
    && (!a.discarding && a.lastRep ==> EndsWith(a.line, REPLACEMENT))
    && (forall i | 0 <= i < |a.emitted| :: a.emitted[i].bytes != [] && Clean(a.emitted[i].bytes))
  }

  predicate AsmOk(a: Asm) {
    && Sound(a)
    && (a.pending != [] ==> Begun(a.pending) && a.match_ == 0)
    && (!a.discarding && a.pending == [] ==> Ends(a.line, a.match_))
  }

  // ---- Every step keeps it ------------------------------------------------------------------------

  /** c may come at the end of a line: a whole character, and not one of the banner's. */
  predicate Foreign(c: seq<Byte>) { CodePoint(c) && Tidy(c) && c[|c| - 1] >= 0x80 }

  lemma CodePointKeepsText(s: seq<Byte>, c: seq<Byte>)
    requires WellFormed(s) && Tidy(s) && CodePoint(c) && Tidy(c)
    ensures WellFormed(s + c) && Tidy(s + c)
  {
    hide Banner;
    OneCodePoint(c);
    Concat(s, c);
  }

  /** The last byte of s + c is c's. */
  lemma EndsWithLast(s: seq<Byte>, t: seq<Byte>)
    requires t != [] && EndsWith(s, t)
    ensures s[|s| - 1] == t[|t| - 1]
  {
    hide Banner;
    assert s[|s| - |t|..][|t| - 1] == t[|t| - 1];
  }

  lemma ForeignEnds(s: seq<Byte>)
    requires s != [] && s[|s| - 1] >= 0x80
    ensures Ends(s, 0)
  {
    hide Banner;
    forall k | 1 <= k < BANNER_LEN
      ensures !EndsWith(s, Banner()[..k])
    {
      if EndsWith(s, Banner()[..k]) {
        EndsWithLast(s, Banner()[..k]);
      }
    }
  }

  /** A longer line without the banner, as long as it does not end with it. */
  lemma BannerFirstLonger(s: seq<Byte>, c: seq<Byte>)
    requires BannerFirst(s) && c != []
    requires forall n | 1 <= n <= |c| && |s| + n > BANNER_LEN :: !EndsWith(s + c[..n], Banner())
    ensures BannerFirst(s + c)
  {
    hide Banner;
    var t := s + c;
    forall n | BANNER_LEN < n <= |t|
      ensures !EndsWith(t[..n], Banner())
    {
      assert t[..n] == if n <= |s| then s[..n] else s + c[..n - |s|];
    }
  }

  lemma ForeignKeepsBannerFirst(s: seq<Byte>, c: seq<Byte>)
    requires BannerFirst(s) && c != [] && forall i | 0 <= i < |c| :: c[i] >= 0x80
    ensures BannerFirst(s + c)
  {
    hide Banner;
    forall n | 1 <= n <= |c| && |s| + n > BANNER_LEN
      ensures !EndsWith(s + c[..n], Banner())
    {
      if EndsWith(s + c[..n], Banner()) {
        EndsWithLast(s + c[..n], Banner());
      }
    }
    BannerFirstLonger(s, c);
  }

  /** One more plain byte: the match goes on as banner_completed() says. */
  lemma PlainEnds(s: seq<Byte>, m: nat, b: Byte)
    requires Ends(s, m) && m < BANNER_LEN
    ensures forall k | 1 <= k < BANNER_LEN :: EndsWith(s + [b], Banner()[..k]) <==> Matched(m, b) == k
    ensures m + 1 == BANNER_LEN && Matched(m, b) == BANNER_LEN <==> EndsWith(s + [b], Banner())
  {
    hide Banner;
    forall k | 1 <= k <= BANNER_LEN
      ensures EndsWith(s + [b], Banner()[..k]) <==> b == Banner()[k - 1] && (k == 1 || m == k - 1)
    {
      OneMore(s, b, k);
    }
    assert Banner()[..BANNER_LEN] == Banner();
  }

  lemma OneMore(s: seq<Byte>, b: Byte, k: nat)
    requires 1 <= k <= BANNER_LEN
    ensures EndsWith(s + [b], Banner()[..k]) <==> b == Banner()[k - 1] && EndsWith(s, Banner()[..k - 1])
  {
    hide Banner;
    var t := Banner()[..k];
    assert t == Banner()[..k - 1] + [Banner()[k - 1]];
    if |s| + 1 >= k {
      assert (s + [b])[|s| + 1 - k..] == s[|s| - (k - 1)..] + [b];
      if s[|s| - (k - 1)..] + [b] == t {
        assert (s[|s| - (k - 1)..] + [b])[..k - 1] == Banner()[..k - 1];
        assert (s[|s| - (k - 1)..] + [b])[k - 1] == b;
      }
    }
  }

  /** A line cut short keeps what it was. */
  lemma Shorter(s: seq<Byte>, n: nat)
    requires BannerFirst(s) && Tidy(s) && n <= |s|
    ensures BannerFirst(s[..n]) && Tidy(s[..n])
  {
    hide Banner;
    assert forall k | 0 <= k <= n :: s[..n][..k] == s[..k];
  }

  /** Nothing of the banner is at its end. */
  lemma BannerEnds(k: nat)
    requires 1 <= k < BANNER_LEN
    ensures !EndsWith(Banner(), Banner()[..k])
  {
    hide Banner;
    if EndsWith(Banner(), Banner()[..k]) {
      EndsWithLast(Banner(), Banner()[..k]);
    }
  }

  /** The banner is a line. */
  lemma BannerIsText()
    ensures Clean(Banner()) && Ends(Banner(), 0)
  {
    hide Banner, WellFormed, EndsWith;
    AsciiIsText(Banner());
    forall k | 1 <= k < BANNER_LEN
      ensures !EndsWith(Banner(), Banner()[..k])
    {
      BannerEnds(k);
    }
  }

  lemma {:induction false} AsciiIsText(s: seq<Byte>)
    requires forall i | 0 <= i < |s| :: s[i] < 0x80
    ensures WellFormed(s)
    decreases |s|
  {
    if s != [] {
      assert CodePoint(s[..1]);
      AsciiIsText(s[1..]);
    }
  }

  lemma NothingIsClean()
    ensures Clean([]) && Ends([], 0)
  {
    hide Banner;
  }

  lemma ForeignBytes(c: seq<Byte>)
    requires Foreign(c)
    ensures c != [] && forall i | 0 <= i < |c| :: c[i] >= 0x80
  {
  }

  lemma ReplacementIsForeign()
    ensures Foreign(REPLACEMENT)
  {
  }

  /** A character that is not plain. */
  lemma AppendKeeps(a: Asm, c: seq<Byte>, lastRep: bool)
    requires Sound(a) && a.pending == [] && a.match_ == 0 && Foreign(c) && (lastRep ==> c == REPLACEMENT)
    ensures var b := Append(a, c).(lastRep := lastRep); AsmOk(b) && b.pending == [] && b.match_ == 0
  {
    hide Banner, WellFormed, Tidy, BannerFirst, Ends, Foreign, CodePoint;
    if !a.discarding && |a.line| + |c| <= TEXT_MAX {
      ForeignIsText(a.line, c);
      assert (a.line + c)[|a.line|..] == c;
    } else {
      NothingIsClean();
      ForeignLength(c);
    }
  }

  lemma ForeignLength(c: seq<Byte>)
    requires Foreign(c)
    ensures 1 <= |c| <= 4
  {
  }

  lemma ForeignIsText(s: seq<Byte>, c: seq<Byte>)
    requires WellFormed(s) && Tidy(s) && BannerFirst(s) && Foreign(c)
    ensures WellFormed(s + c) && Tidy(s + c) && BannerFirst(s + c) && Ends(s + c, 0)
  {
    hide Banner;
    CodePointKeepsText(s, c);
    ForeignBytes(c);
    ForeignKeepsBannerFirst(s, c);
    assert (s + c)[|s + c| - 1] == c[|c| - 1];
    ForeignEnds(s + c);
  }

  /** append_replacement(), once the match is over. */
  lemma ReplacementKeeps(a: Asm)
    requires Sound(a) && a.pending == [] && a.match_ == 0
    ensures var b := AppendReplacement(a); AsmOk(b) && b.pending == [] && b.match_ == 0
  {
    hide Banner, Clean, Ends, Foreign;
    if a.lastRep {
      if !a.discarding {
        EndsWithLast(a.line, REPLACEMENT);
        ForeignEnds(a.line);
      }
    } else {
      ReplacementIsForeign();
      AppendKeeps(a, REPLACEMENT, true);
    }
  }

  lemma AbandonKeeps(a: Asm)
    requires AsmOk(a)
    ensures AsmOk(Abandon(a)) && Abandon(a).pending == []
  {
    hide Banner, Clean, Ends;
    if a.pending != [] {
      ReplacementKeeps(a.(pending := []));
    }
  }

  /** A plain byte that does not complete the banner. */
  lemma PlainKeeps(a: Asm, b: Byte)
    requires AsmOk(a) && a.pending == [] && Plain(b) && Matched(a.match_, b) < BANNER_LEN
    ensures var c := AppendChar(a.(match_ := Matched(a.match_, b)), [b]); AsmOk(c) && c.pending == []
  {
    hide Banner, WellFormed, BannerFirst, Ends, Tidy;
    if !a.discarding && |a.line| + 1 <= TEXT_MAX {
      PlainIsText(a.line, a.match_, b);
    } else {
      NothingIsClean();
    }
  }

  lemma PlainIsText(s: seq<Byte>, m: nat, b: Byte)
    requires WellFormed(s) && Tidy(s) && BannerFirst(s) && m < BANNER_LEN && Ends(s, m) && Plain(b)
    requires Matched(m, b) < BANNER_LEN
    ensures WellFormed(s + [b]) && Tidy(s + [b]) && BannerFirst(s + [b]) && Ends(s + [b], Matched(m, b))
  {
    hide Banner;
    CodePointKeepsText(s, [b]);
    PlainEnds(s, m, b);
    assert [b][..1] == [b];
    BannerFirstLonger(s, [b]);
  }

  lemma FirstIsBefore(s: seq<Byte>, b: Byte)
    requires s != [] && b < 0x80 && First(s + [b]) > 0
    ensures First(s + [b]) <= |s|
  {
    var n := First(s + [b]);
    var c := (s + [b])[..n];
    assert CodePoint(c) && (n >= 2 ==> c[n - 1] >= 0x80);
    assert c[n - 1] == (s + [b])[n - 1];
  }

  lemma {:induction false} DropAscii(s: seq<Byte>, b: Byte)
    requires WellFormed(s + [b]) && b < 0x80
    ensures WellFormed(s)
    decreases |s|
  {
    if s != [] {
      var t := s + [b];
      var n := First(t);
      FirstIsBefore(s, b);
      assert t[..n] == s[..n] && t[n..] == s[n..] + [b];
      DropAscii(s[n..], b);
    }
  }

  lemma {:induction false} DropAsciiTail(s: seq<Byte>, t: seq<Byte>)
    requires WellFormed(s + t) && forall i | 0 <= i < |t| :: t[i] < 0x80
    ensures WellFormed(s)
    decreases |t|
  {
    if t == [] {
      assert s + t == s;
    } else {
      var k := |t| - 1;
      assert s + t == s + t[..k] + [t[k]];
      DropAscii(s + t[..k], t[k]);
      DropAsciiTail(s, t[..k]);
    }
  }

  /** The line that a banner cuts. */
  lemma CutByBanner(s: seq<Byte>)
    requires Clean(s) && EndsWith(s, Banner()[..BANNER_LEN - 1])
    ensures Clean(s[..|s| - (BANNER_LEN - 1)])
    ensures |s| == BANNER_LEN - 1 ==> s + Banner()[BANNER_LEN - 1..] == Banner()
  {
    hide Banner;
    var n := |s| - (BANNER_LEN - 1);
    assert s == s[..n] + Banner()[..BANNER_LEN - 1];
    DropAsciiTail(s[..n], Banner()[..BANNER_LEN - 1]);
    Shorter(s, n);
    assert Banner() == Banner()[..BANNER_LEN - 1] + Banner()[BANNER_LEN - 1..];
  }

  lemma BannerKeeps(a: Asm, b: Byte)
    requires AsmOk(a) && a.pending == [] && Matched(a.match_, b) == BANNER_LEN
    ensures var c := StartBannerLine(a.(match_ := 0)); AsmOk(c) && c.pending == [] && c.match_ == 0
  {
    hide Banner, Clean, EndsWith, Ends, StartBannerLine, Matched;
    MatchedIsTail(a, b);
    if !a.discarding {
      CutByBanner(a.line);
    }
    StartedLine(a.(match_ := 0));
  }

  lemma MatchedIsTail(a: Asm, b: Byte)
    requires AsmOk(a) && a.pending == [] && Matched(a.match_, b) == BANNER_LEN
    ensures a.match_ == BANNER_LEN - 1 && b == Banner()[BANNER_LEN - 1]
    ensures !a.discarding ==> EndsWith(a.line, Banner()[..BANNER_LEN - 1])
  {
    hide Banner;
  }

  /** start_banner_line() leaves the banner, whole, at the start of a line. */
  lemma StartedLine(a: Asm)
    requires Sound(a) && a.match_ == 0 && a.pending == []
    requires !a.discarding ==> EndsWith(a.line, Banner()[..BANNER_LEN - 1])
                               && Clean(a.line[..|a.line| - (BANNER_LEN - 1)])
    requires !a.discarding && |a.line| == BANNER_LEN - 1 ==> a.line + Banner()[BANNER_LEN - 1..] == Banner()
    ensures var c := StartBannerLine(a); AsmOk(c) && c.pending == [] && c.match_ == 0 && c.line == Banner()
                                         && !c.discarding
  {
    hide Banner;
    BannerIsText();
    hide Clean, Ends, EndsWith;
    assert BANNER_LEN <= TEXT_MAX && [] + Banner() == Banner();
  }

  lemma FreshByteKeeps(a: Asm, b: Byte)
    requires AsmOk(a) && a.pending == []
    ensures AsmOk(FreshByte(a, b))
  {
    hide Banner, Clean, Ends, StartBannerLine, AppendChar, AppendReplacement, Matched;
    if Plain(b) {
      if Matched(a.match_, b) == BANNER_LEN {
        BannerKeeps(a, b);
      } else {
        PlainKeeps(a, b);
      }
    } else if !(b >= 0x80 && Need(b) >= 2) {
      ReplacementKeeps(a.(match_ := 0));
    }
  }

  lemma TextByteKeeps(a: Asm, b: Byte)
    requires AsmOk(a)
    ensures AsmOk(TextByte(a, b))
  {
    hide Banner, Clean, Ends, FreshByte, Abandon;
    if a.pending != [] && Continues(a.pending, b) {
      var p := a.pending + [b];
      if |p| == Need(p[0]) {
        CharacterDone(a.pending, b);
        AppendKeeps(a.(pending := []), p, false);
      }
    } else {
      AbandonKeeps(a);
      FreshByteKeeps(Abandon(a), b);
    }
  }

  lemma CharacterDone(p: seq<Byte>, b: Byte)
    requires Begun(p) && Continues(p, b) && |p| + 1 == Need(p[0])
    ensures Foreign(p + [b])
  {
  }

  lemma EndLineKeeps(a: Asm)
    requires AsmOk(a)
    ensures var b := EndLine(a); AsmOk(b) && b.line == [] && b.pending == [] && !b.discarding && b.match_ == 0
  {
    hide Banner, Clean, Ends, Abandon;
    AbandonKeeps(a);
    NothingIsClean();
  }

  lemma VisibleKeeps(a: Asm, b: Byte)
    requires AsmOk(a)
    ensures AsmOk(Visible(a, b))
  {
    hide Banner, Clean, Ends, Abandon, TextByte;
    if b == ESC {
      AbandonKeeps(a);
    } else {
      TextByteKeeps(a, b);
    }
  }

  lemma StepKeeps(a: Asm, e: Event)
    requires AsmOk(a)
    ensures AsmOk(Step(a, e))
  {
    hide Banner, Clean, Ends, EndLine, Visible, AppendReplacement;
    NothingIsClean();
    match e
    case Fed(b) =>
      EndLineKeeps(a.(afterCr := false));
      VisibleKeeps(a.(afterCr := false), b);
      VisibleKeeps(a.(afterCr := false, escape := NoEscape), b);
    case Flush => EndLineKeeps(a);
    case Overflow =>
      var c := a.(escape := NoEscape, pending := [], afterCr := false, match_ := 0);
      if !c.discarding {
        ReplacementKeeps(c);
      }
    case Reset =>
  }

  // ---- Whole streams ------------------------------------------------------------------------------

  function Run(a: Asm, run: seq<Event>): (b: Asm)
    requires AsmOk(a)
    ensures AsmOk(b)
    decreases |run|
  {
    if run == [] then a
    else
      StepKeeps(a, run[0]);
      Run(Step(a, run[0]), run[1..])
  }

  lemma InitOk()
    ensures AsmOk(INIT)
  {
    hide Banner;
  }

  /** Everything that happens after esp32_log_init(). */
  function Stream(run: seq<Event>): (a: Asm)
    ensures AsmOk(a)
  {
    InitOk();
    Run(INIT, run)
  }

  /**
   * Whatever the bytes are, and whenever lines are flushed, bytes lost and the assembler reset:
   * every line that goes out is text, of a length that fits, and has the banner only in front.
   */
  lemma EveryLineIsClean(run: seq<Event>, i: nat)
    requires i < |Stream(run).emitted|
    ensures var s := Stream(run).emitted[i].bytes;
            && s != [] && |s| <= TEXT_MAX && WellFormed(s) && Tidy(s)
            && (forall n | BANNER_LEN < n <= |s| :: !EndsWith(s[..n], Banner()))
  {
    hide Banner, Stream;
    assert Clean(Stream(run).emitted[i].bytes);
  }
}
