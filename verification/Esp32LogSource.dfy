/** esp32_log_source.c as it runs: one assembler updated in place, and the ESP-IDF prefix of its lines. */
module Esp32LogSource {
  import opened Bytes
  import opened Options
  import opened Utf8
  import opened Esp32Lines
  import opened Esp32Repair
  import LogRecords

  datatype Level = Error | Warning | Info | Debug

  datatype Idf = Idf(level: Level, tag: seq<Byte>, text: seq<Byte>)

  function LevelOf(c: Byte): Option<Level> {
    if c == 69 then Some(Error)
    else if c == 87 then Some(Warning)
    else if c == 73 then Some(Info)
    else if c == 68 || c == 86 then Some(Debug)
    else None
  }

  predicate Digit(c: Byte) { 48 <= c <= 57 }

  predicate TimeChar(c: Byte) { Digit(c) || c == 58 || c == 46 }

  predicate IsTime(t: seq<Byte>) { t != [] && Digit(t[0]) && forall i | 0 <= i < |t| :: TimeChar(t[i]) }

  predicate IsTag(t: seq<Byte>) { 1 <= |t| <= LogRecords.MODULE_MAX && forall i | 0 <= i < |t| :: t[i] != 58 }

  /** `L (time) tag: text`, or `L (time) tag:` when there is no text after the tag. */
  function Written(l: Byte, time: seq<Byte>, tag: seq<Byte>, text: Option<seq<Byte>>): seq<Byte> {
    [l, 32, 40] + time + [41, 32] + tag + [58] + (if text.Some? then [32] + text.value else [])
  }

  /** s is an ESP-IDF line that says r. */
  ghost predicate Says(s: seq<Byte>, r: Idf, l: Byte, time: seq<Byte>, text: Option<seq<Byte>>) {
    && s == Written(l, time, r.tag, text) && LevelOf(l) == Some(r.level)
    && IsTime(time) && IsTag(r.tag) && r.text == (if text.Some? then text.value else [])
  }

  /** Where the time goes to. */
  function TimeEnd(s: seq<Byte>, i: nat): (k: nat)
    requires i <= |s|
    ensures i <= k <= |s|
    decreases |s| - i
  {
    if i == |s| || !TimeChar(s[i]) then i else TimeEnd(s, i + 1)
  }

  /** Where the next colon is. */
  function ColonAt(s: seq<Byte>, i: nat): (k: nat)
    requires i <= |s|
    ensures i <= k <= |s|
    decreases |s| - i
  {
    if i == |s| || s[i] == 58 then i else ColonAt(s, i + 1)
  }

  lemma {:induction false} TimeEndFacts(s: seq<Byte>, i: nat)
    requires i <= |s|
    ensures var k := TimeEnd(s, i); (forall x | i <= x < k :: TimeChar(s[x])) && (k < |s| ==> !TimeChar(s[k]))
    decreases |s| - i
  {
    if i < |s| && TimeChar(s[i]) {
      TimeEndFacts(s, i + 1);
    }
  }

  lemma {:induction false} ColonAtFacts(s: seq<Byte>, i: nat)
    requires i <= |s|
    ensures var k := ColonAt(s, i); (forall x | i <= x < k :: s[x] != 58) && (k < |s| ==> s[k] == 58)
    decreases |s| - i
  {
    if i < |s| && s[i] != 58 {
      ColonAtFacts(s, i + 1);
    }
  }

  /** parse_esp_idf() */
  function Parsed(s: seq<Byte>): Option<Idf> {
    if |s| < 7 || LevelOf(s[0]).None? || s[1] != 32 || s[2] != 40 || !Digit(s[3]) then None
    else
      var i := TimeEnd(s, 4);
      if i + 1 >= |s| || s[i] != 41 || s[i + 1] != 32 then None
      else
        var j := ColonAt(s, i + 2);
        if j >= |s| || j == i + 2 || j - (i + 2) > LogRecords.MODULE_MAX then None
        else if j + 1 < |s| && s[j + 1] != 32 then None
        else Some(Idf(LevelOf(s[0]).value, s[i + 2..j], if j + 1 < |s| then s[j + 2..] else []))
  }

  method ParseEspIdf(s: seq<Byte>) returns (r: Option<Idf>)
    ensures r == Parsed(s)
  {
    hide LevelOf;
    if |s| < 7 {
      return None;
    }
    var level := LevelOf(s[0]);
    if level.None? || s[1] != 32 || s[2] != 40 || s[3] < 48 || s[3] > 57 {
      return None;
    }
    var i := 4;
    while i < |s| && TimeChar(s[i])
      invariant 4 <= i <= |s| && TimeEnd(s, 4) == TimeEnd(s, i)
    {
      i := i + 1;
    }
    if i + 1 >= |s| || s[i] != 41 || s[i + 1] != 32 {
      return None;
    }
    var tagStart := i + 2;
    i := tagStart;
    while i < |s| && s[i] != 58
      invariant tagStart <= i <= |s| && ColonAt(s, tagStart) == ColonAt(s, i)
    {
      i := i + 1;
    }
    if i >= |s| || i == tagStart || i - tagStart > LogRecords.MODULE_MAX {
      return None;
    }
    if i + 1 < |s| && s[i + 1] != 32 {
      return None;
    }
    return Some(Idf(level.value, s[tagStart..i], if i + 1 < |s| then s[i + 2..] else []));
  }

  /** A line taken apart where the parser looks, and put together again. */
  lemma PutTogether(s: seq<Byte>, i: nat, j: nat)
    requires 3 <= i && i + 2 <= j < |s| && s[1] == 32 && s[2] == 40 && s[i] == 41 && s[i + 1] == 32 && s[j] == 58
    ensures s == [s[0], 32, 40] + s[3..i] + [41, 32] + s[i + 2..j] + [58] + s[j + 1..]
  {
    assert s[..i] == [s[0], 32, 40] + s[3..i];
    assert s[..i + 2] == s[..i] + [41, 32];
    assert s[..j] == s[..i + 2] + s[i + 2..j];
    assert s[..j + 1] == s[..j] + [58];
    assert s == s[..j + 1] + s[j + 1..];
  }

  /** What is parsed was written so. */
  lemma ParsedWasWritten(s: seq<Byte>) returns (time: seq<Byte>, text: Option<seq<Byte>>)
    requires Parsed(s).Some?
    ensures Says(s, Parsed(s).value, s[0], time, text)
  {
    hide LevelOf;
    var i := TimeEnd(s, 4);
    var j := ColonAt(s, i + 2);
    TimeEndFacts(s, 4);
    ColonAtFacts(s, i + 2);
    PutTogether(s, i, j);
    time := s[3..i];
    text := if j + 1 < |s| then Some(s[j + 2..]) else None;
    TimeIs(s, i);
    assert s[j + 1..] == if text.Some? then [32] + text.value else [];
    TagIs(s, i + 2, j);
  }

  lemma TimeIs(s: seq<Byte>, i: nat)
    requires 4 <= i <= |s| && Digit(s[3]) && forall x | 4 <= x < i :: TimeChar(s[x])
    ensures IsTime(s[3..i])
  {
    forall x | 0 <= x < i - 3
      ensures TimeChar(s[3..i][x])
    {
      assert s[3..i][x] == s[x + 3];
    }
  }

  lemma TagIs(s: seq<Byte>, i: nat, j: nat)
    requires i < j <= |s| && j - i <= LogRecords.MODULE_MAX && forall x | i <= x < j :: s[x] != 58
    ensures IsTag(s[i..j])
  {
  }

  lemma TimeEndIs(s: seq<Byte>, i: nat, k: nat)
    requires i <= k < |s| && !TimeChar(s[k]) && forall x | i <= x < k :: TimeChar(s[x])
    ensures TimeEnd(s, i) == k
  {
    TimeEndFacts(s, i);
  }

  lemma ColonAtIs(s: seq<Byte>, i: nat, k: nat)
    requires i <= k < |s| && s[k] == 58 && forall x | i <= x < k :: s[x] != 58
    ensures ColonAt(s, i) == k
  {
    ColonAtFacts(s, i);
  }

  /** Where the parts of a written line are. */
  lemma WrittenAt(l: Byte, time: seq<Byte>, tag: seq<Byte>, text: Option<seq<Byte>>)
    requires time != []
    ensures var s := Written(l, time, tag, text);
            var i := 3 + |time|;
            var j := i + 2 + |tag|;
            && j < |s| && s[0] == l && s[1] == 32 && s[2] == 40 && s[3] == time[0]
            && s[3..i] == time && s[i] == 41 && s[i + 1] == 32 && s[i + 2..j] == tag && s[j] == 58
            && (if text.Some? then j + 1 < |s| && s[j + 1] == 32 && s[j + 2..] == text.value else |s| == j + 1)
  {
    var s := Written(l, time, tag, text);
    var i := 3 + |time|;
    var j := i + 2 + |tag|;
    var tail := if text.Some? then [32] + text.value else [];
    assert s == [l, 32, 40] + (time + ([41, 32] + (tag + ([58] + tail))));
  }

  /** And every line so written is parsed as what it says. */
  lemma WrittenIsParsed(s: seq<Byte>, r: Idf, l: Byte, time: seq<Byte>, text: Option<seq<Byte>>)
    requires Says(s, r, l, time, text)
    ensures Parsed(s) == Some(r)
  {
    hide LevelOf, Written, TimeEnd, ColonAt;
    WrittenAt(l, time, r.tag, text);
    WrittenEnds(s, r, l, time, text);
  }

  /** The parser stops where the parts end. */
  lemma WrittenEnds(s: seq<Byte>, r: Idf, l: Byte, time: seq<Byte>, text: Option<seq<Byte>>)
    requires Says(s, r, l, time, text)
    ensures TimeEnd(s, 4) == 3 + |time| && ColonAt(s, 5 + |time|) == 5 + |time| + |r.tag|
  {
    hide LevelOf, Written, Parsed;
    var i := 3 + |time|;
    var j := i + 2 + |r.tag|;
    WrittenAt(l, time, r.tag, text);
    assert forall x | 3 <= x < i :: s[x] == s[3..i][x - 3];
    assert forall x | i + 2 <= x < j :: s[x] == s[i + 2..j][x - (i + 2)];
    TimeEndIs(s, 4, i);
    ColonAtIs(s, i + 2, j);
  }

  /** The tag and the text of a clean line are text themselves. */
  lemma PartsAreText(s: seq<Byte>)
    requires WellFormed(s) && Parsed(s).Some?
    ensures WellFormed(Parsed(s).value.tag) && WellFormed(Parsed(s).value.text)
  {
    hide Parsed, WellFormed;
    var time, text := ParsedWasWritten(s);
    WrittenIsText(s[0], time, Parsed(s).value.tag, text);
    if text.None? {
      AsciiIsText([]);
    }
  }

  lemma WrittenIsText(l: Byte, time: seq<Byte>, tag: seq<Byte>, text: Option<seq<Byte>>)
    requires WellFormed(Written(l, time, tag, text)) && LevelOf(l).Some? && IsTime(time)
    ensures WellFormed(tag) && (text.Some? ==> WellFormed(text.value))
  {
    var head := [l, 32, 40] + time + [41, 32];
    var tail := if text.Some? then [32] + text.value else [];
    assert Written(l, time, tag, text) == head + (tag + ([58] + tail));
    hide WellFormed, Written;
    HeadIsAscii(l, time);
    AsciiIsText(head);
    Concat(head, tag + ([58] + tail));
    TagIsText(tag, tail);
    Concat(tag, [58] + tail);
    AsciiIsText([58]);
    Concat([58], tail);
    AsciiIsText([32]);
    if text.Some? {
      Concat([32], text.value);
    }
  }

  lemma HeadIsAscii(l: Byte, time: seq<Byte>)
    requires LevelOf(l).Some? && IsTime(time)
    ensures var s := [l, 32, 40] + time + [41, 32]; forall i | 0 <= i < |s| :: s[i] < 0x80
  {
    assert forall i | 0 <= i < |time| :: TimeChar(time[i]);
  }

  /** Text in front of a byte of ASCII ends there. */
  lemma {:induction false} TagIsText(t: seq<Byte>, tail: seq<Byte>)
    requires WellFormed(t + ([58] + tail))
    ensures WellFormed(t)
    decreases |t|
  {
    if t != [] {
      var s := t + ([58] + tail);
      var n := First(s);
      assert s[..n][0] == s[0];
      FirstStopsBefore(t, tail);
      assert s[..n] == t[..n] && s[n..] == t[n..] + ([58] + tail);
      TagIsText(t[n..], tail);
    }
  }

  lemma FirstStopsBefore(t: seq<Byte>, tail: seq<Byte>)
    requires t != [] && First(t + ([58] + tail)) > 0
    ensures First(t + ([58] + tail)) <= |t|
  {
    var s := t + ([58] + tail);
    var c := s[..First(s)];
    assert CodePoint(c) && forall i | 1 <= i < |c| :: c[i] >= 0x80;
    assert s[|t|] == 58;
    assert forall i | 0 <= i < |c| :: c[i] == s[i];
  }

  // ---- The assembler -------------------------------------------------------------------------------

  /** What the callback is given. */
  datatype Record = Record(level: Option<Level>, tag: Option<seq<Byte>>, text: seq<Byte>, truncated: bool, banner: bool)

  function RecordOf(l: Line): Record {
    var p := Parsed(l.bytes);
    Record(if p.Some? then Some(p.value.level) else None, if p.Some? then Some(p.value.tag) else None,
           if p.Some? then p.value.text else l.bytes, l.truncated, |l.bytes| >= BANNER_LEN
               && l.bytes[..BANNER_LEN] == Banner())
  }

  class Assembler {
    var line: seq<Byte>
    var truncated: bool
    var discarding: bool
    var lastWasReplacement: bool
    var afterCr: bool
    var pending: seq<Byte>
    var escape: Escape
    var bannerMatch: nat
    var hasPartial: bool
    var lastByte: int
    const idleFlush: nat
    var records: seq<Record>
    ghost var emitted: seq<Line>

    ghost function View(): Asm
      reads this
    {
      Asm(line, truncated, discarding, lastWasReplacement, afterCr, pending, escape, bannerMatch, emitted)
    }

    /** The line always fits its buffer, and every line that went out has its record. */
    ghost predicate Valid()
      reads this
    {
      && AsmOk(View())
      && |records| == |emitted| && (forall i | 0 <= i < |emitted| :: records[i] == RecordOf(emitted[i]))
    }

    ghost predicate Recorded()
      reads this
    {
      |records| == |emitted| && (forall i | 0 <= i < |emitted| :: records[i] == RecordOf(emitted[i]))
          && bannerMatch < BANNER_LEN
    }

    constructor (idleFlush: nat)
      ensures Valid() && View() == INIT
    {
      InitOk();
      this.idleFlush := idleFlush;
      line, truncated, discarding, lastWasReplacement, afterCr := [], false, false, false, false;
      pending, escape, bannerMatch, hasPartial, lastByte := [], NoEscape, 0, false, 0;
      records, emitted := [], [];
    }

    method ClearLine()
      modifies this
      ensures View() == Clear(old(View())) && (old(Recorded()) ==> Recorded())
    {
      line, truncated, lastWasReplacement, pending := [], false, false, [];
    }

    method EmitLine()
      requires Recorded()
      modifies `records, `emitted
      ensures View() == Emit(old(View())) && Recorded()
    {
      var isBanner := |line| >= BANNER_LEN && line[..BANNER_LEN] == Banner();
      var p := ParseEspIdf(line);
      var record := Record(None, None, line, truncated, isBanner);
      if p.Some? {
        record := Record(Some(p.value.level), Some(p.value.tag), p.value.text, truncated, isBanner);
      }
      records := records + [record];
      emitted := emitted + [Line(line, truncated)];
    }

    method AppendBytes(bytes: seq<Byte>)
      requires Recorded()
      modifies this
      ensures View() == Append(old(View()), bytes) && Recorded()
    {
      if discarding {
        return;
      }
      if |line| + |bytes| > TEXT_MAX {
        truncated := true;
        EmitLine();
        ClearLine();
        discarding := true;
        return;
      }
      line := line + bytes;
    }

    method Character(bytes: seq<Byte>)
      requires Recorded()
      modifies this
      ensures View() == AppendChar(old(View()), bytes) && Recorded()
    {
      AppendBytes(bytes);
      lastWasReplacement := false;
    }

    method Replacement()
      requires Recorded()
      modifies this
      ensures View() == AppendReplacement(old(View())) && Recorded()
    {
      if lastWasReplacement {
        return;
      }
      AppendBytes(REPLACEMENT);
      lastWasReplacement := true;
    }

    method AbandonSequence()
      requires Recorded()
      modifies this
      ensures View() == Abandon(old(View())) && Recorded()
    {
      if |pending| > 0 {
        pending := [];
        Replacement();
      }
    }

    method LineEnd()
      requires Recorded()
      modifies this
      ensures View() == EndLine(old(View())) && Recorded() && !hasPartial
    {
      AbandonSequence();
      escape := NoEscape;
      bannerMatch := 0;
      if !discarding && |line| > 0 {
        EmitLine();
      }
      ClearLine();
      discarding := false;
      hasPartial := false;
    }

    /** start_banner_line() */
    method BannerLine()
      requires Recorded()
      modifies this
      ensures View() == StartBannerLine(old(View())) && Recorded()
    {
      var head := BANNER_LEN - 1;
      var tailIsBanner := !discarding && |line| >= head && line[|line| - head..] == Banner()[..head];
      if tailIsBanner && |line| == head {
        Character(Banner()[head..]);
        return;
      }
      if tailIsBanner {
        line := line[..|line| - head];
      }
      if !discarding && |line| > 0 {
        EmitLine();
      }
      ClearLine();
      discarding := false;
      Character(Banner());
    }

    /** text_byte() */
    method Text(b: Byte)
      requires Recorded()
      modifies this
      ensures View() == TextByte(old(View()), b) && Recorded()
    {
      hide Banner, StartBannerLine, AppendReplacement, RecordOf;
      if |pending| > 0 {
        var ok := if |pending| == 1 then SecondOk(pending[0], b) else 0x80 <= b <= 0xBF;
        if ok {
          pending := pending + [b];
          if |pending| == Need(pending[0]) {
            Character(pending);
            pending := [];
          }
          return;
        }
        AbandonSequence();
      }
      if b == TAB || 0x20 <= b < 0x7F {
        bannerMatch := Matched(bannerMatch, b);
        if bannerMatch == BANNER_LEN {
          bannerMatch := 0;
          BannerLine();
          return;
        }
        Character([b]);
        return;
      }
      bannerMatch := 0;
      if b < 0x80 {
        Replacement();
      } else if 0xC2 <= b <= 0xDF || 0xE0 <= b <= 0xEF || 0xF0 <= b <= 0xF4 {
        pending := [b];
      } else {
        Replacement();
      }
    }

    /** feed_byte() */
    method OneByte(b: Byte)
      requires Recorded()
      modifies this
      ensures View() == FeedByte(old(View()), b) && Recorded()
    {
      hide Banner, EndLine, TextByte, Abandon, RecordOf;
      var wasCr := afterCr;
      afterCr := false;
      if b == CR {
        LineEnd();
        afterCr := true;
        return;
      }
      if b == LF {
        if !wasCr {
          LineEnd();
        }
        return;
      }
      if escape.AfterEsc? {
        if b == 91 {
          escape := Csi(0);
          return;
        }
        escape := NoEscape;
        if 0x20 <= b < 0x7F {
          return;
        }
      } else if escape.Csi? {
        if 0x40 <= b <= 0x7E {
          escape := NoEscape;
          return;
        }
        if 0x20 <= b <= 0x3F && escape.len + 1 <= CSI_MAX {
          escape := Csi(escape.len + 1);
          return;
        }
        escape := NoEscape;
      }
      if b == ESC {
        AbandonSequence();
        escape := AfterEsc;
        return;
      }
      Text(b);
    }

    /** esp32_log_feed(): the same lines, however the bytes are cut into calls. */
    method Feed(data: seq<Byte>, now: int)
      requires Valid()
      modifies this
      ensures Valid() && View() == FeedAll(old(View()), data)
      ensures data != [] ==> lastByte == now
    {
      hide AsmOk, FeedByte, RecordOf;
      if |data| == 0 {
        return;
      }
      var i := 0;
      assert data[0..] == data;
      while i < |data|
        invariant i <= |data| && Valid()
        invariant FeedAll(old(View()), data) == FeedAll(View(), data[i..])
      {
        FeedFirst(View(), data[i..]);
        assert data[i..][0] == data[i] && data[i..][1..] == data[i + 1..];
        MatchIsShort(View());
        OneByte(data[i]);
        i := i + 1;
      }
      FeedNone(View());
      lastByte := now;
      hasPartial := |line| > 0 || |pending| > 0 || discarding || !escape.NoEscape?;
    }

    static lemma MatchIsShort(a: Asm)
      requires AsmOk(a)
      ensures a.match_ < BANNER_LEN
    {
    }

    /** esp32_log_poll(): after a silence the line that is there goes out. */
    method Poll(now: int)
      requires Valid()
      modifies this
      ensures Valid()
      ensures View() == if old(hasPartial) && now - old(lastByte) >= idleFlush then Step(old(View()), Flush)
          else old(View())
    {
      hide AsmOk, EndLine, RecordOf;
      if !hasPartial || now - lastByte < idleFlush {
        return;
      }
      FlushLine();
    }

    /** esp32_log_flush() */
    method FlushLine()
      requires Valid()
      modifies this
      ensures Valid() && View() == Step(old(View()), Flush)
    {
      hide AsmOk, EndLine, RecordOf;
      MatchIsShort(View());
      StepKeeps(View(), Flush);
      LineEnd();
      afterCr := false;
    }

    /** esp32_log_note_overflow() */
    method NoteOverflow()
      requires Valid()
      modifies this
      ensures Valid() && View() == Step(old(View()), Overflow)
    {
      hide AsmOk, AppendReplacement, RecordOf;
      MatchIsShort(View());
      StepKeeps(View(), Overflow);
      escape, pending, afterCr, bannerMatch := NoEscape, [], false, 0;
      if discarding {
        return;
      }
      Replacement();
      truncated := true;
      hasPartial := true;
    }

    /** esp32_log_reset() */
    method ResetLine()
      requires Valid()
      modifies this
      ensures Valid() && View() == Step(old(View()), Reset)
    {
      hide AsmOk, RecordOf;
      MatchIsShort(View());
      StepKeeps(View(), Reset);
      ClearLine();
      discarding, escape, afterCr, bannerMatch, hasPartial := false, NoEscape, false, 0, false;
    }
  }
}
