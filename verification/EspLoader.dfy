/** A flashing session over the serial loader (esp_loader_adapter.c): re-blocking, padding, handing back. */
module EspLoader {
  import opened Bytes

  const BLOCK: nat := 1024

  // ---- What is sent --------------------------------------------------------------------------------

  /** The bytes in blocks, as the ROM takes them. */
  function Blocks(s: seq<Byte>): seq<seq<Byte>>
    decreases |s|
  {
    if s == [] then [] else if |s| <= BLOCK then [s] else [s[..BLOCK]] + Blocks(s[BLOCK..])
  }

  function Joined(bs: seq<seq<Byte>>): seq<Byte> {
    if bs == [] then [] else Joined(bs[..|bs| - 1]) + bs[|bs| - 1]
  }

  /** All full but the last, which is not empty. */
  predicate IsBlocking(bs: seq<seq<Byte>>) {
    && (forall i | 0 <= i < |bs| - 1 :: |bs[i]| == BLOCK)
    && (bs != [] ==> 0 < |bs[|bs| - 1]| <= BLOCK)
  }

  predicate AllFull(bs: seq<seq<Byte>>) { forall i | 0 <= i < |bs| :: |bs[i]| == BLOCK }

  lemma {:induction false} JoinedCons(b: seq<Byte>, bs: seq<seq<Byte>>)
    ensures Joined([b] + bs) == b + Joined(bs)
    decreases |bs|
  {
    if bs != [] {
      var n := |bs| - 1;
      assert ([b] + bs)[..n + 1] == [b] + bs[..n];
      JoinedCons(b, bs[..n]);
    } else {
      assert [b] + bs == [b] && [b][..0] == [];
    }
  }

  /** Cutting a file into blocks loses nothing, and there is one way to do it. */
  lemma {:induction false} OneWayToBlock(bs: seq<seq<Byte>>, s: seq<Byte>)
    ensures bs == Blocks(s) <==> IsBlocking(bs) && Joined(bs) == s
    decreases |s|
  {
    if s == [] {
      EmptyJoin(bs);
    } else if bs != [] {
      var rest := bs[1..];
      assert bs == [bs[0]] + rest;
      JoinedCons(bs[0], rest);
      if rest == [] {
        assert Joined(rest) == [];
        SingleBlock(bs, s);
      } else if |s| > BLOCK {
        OneWayToBlock(rest, s[BLOCK..]);
        if IsBlocking(bs) && Joined(bs) == s {
          assert |bs[0]| == BLOCK && s[..BLOCK] == bs[0] && s[BLOCK..] == Joined(rest);
          TailBlocks(bs);
        }
        if bs == Blocks(s) {
          assert rest == Blocks(s[BLOCK..]);
          TailBlocks(bs);
          assert s == s[..BLOCK] + s[BLOCK..];
        }
      } else if IsBlocking(bs) && Joined(bs) == s {
        TailBlocks(bs);
        EmptyJoin(rest);
      }
    }
  }

  lemma TailBlocks(bs: seq<seq<Byte>>)
    requires |bs| > 1
    ensures IsBlocking(bs) <==> |bs[0]| == BLOCK && IsBlocking(bs[1..])
  {
    var rest := bs[1..];
    assert rest[|rest| - 1] == bs[|bs| - 1];
    assert forall i | 0 <= i < |rest| :: rest[i] == bs[i + 1];
    if |bs[0]| == BLOCK && IsBlocking(rest) {
      forall i | 0 <= i < |bs| - 1
        ensures |bs[i]| == BLOCK
      {
        if i > 0 {
          assert bs[i] == rest[i - 1];
        }
      }
    }
  }

  lemma EmptyJoin(bs: seq<seq<Byte>>)
    ensures IsBlocking(bs) && Joined(bs) == [] ==> bs == []
  {
  }

  lemma SingleBlock(bs: seq<seq<Byte>>, s: seq<Byte>)
    requires |bs| == 1 && s != []
    ensures bs == Blocks(s) <==> IsBlocking(bs) && Joined(bs) == s
  {
    assert bs[..0] == [] && Joined(bs) == [] + bs[0] == bs[0];
    assert bs == [bs[0]];
    if |s| > BLOCK {
      assert |Blocks(s)| == 1 + |Blocks(s[BLOCK..])|;
    }
  }

  /** ROUND_UP(size, 4), in 32 bits. */
  function Rounded(size: nat): nat { (size + 3) % TWO_TO_THE_32 / 4 * 4 }

  /** `rounded - announced`, in 32 bits. */
  function PadLength(size: nat): (n: nat)
    requires size < TWO_TO_THE_32
    ensures n < 4 && (size + n) % 4 == 0
  {
    PadLengthIs(size);
    (Rounded(size) + TWO_TO_THE_32 - size) % TWO_TO_THE_32
  }

  lemma PadLengthIs(size: nat)
    requires size < TWO_TO_THE_32
    ensures var n := (Rounded(size) + TWO_TO_THE_32 - size) % TWO_TO_THE_32; n < 4 && (size + n) % 4 == 0
    ensures size <= TWO_TO_THE_32 - 4 ==> Rounded(size) == (size + 3) / 4 * 4
    ensures size > TWO_TO_THE_32 - 4 ==> Rounded(size) == 0
  {
    if size <= TWO_TO_THE_32 - 4 {
      assert (size + 3) % TWO_TO_THE_32 == size + 3;
      var n := Rounded(size) - size;
      assert 0 <= n < 4;
      assert (n + TWO_TO_THE_32) % TWO_TO_THE_32 == n;
    } else {
      assert (size + 3) % TWO_TO_THE_32 == size + 3 - TWO_TO_THE_32 < 4;
    }
  }

  const PAD: seq<Byte> := [0xFF, 0xFF, 0xFF]

  /** The image as it is on the flash. */
  function Padded(s: seq<Byte>): seq<Byte>
    requires |s| < TWO_TO_THE_32
  {
    s + PAD[..PadLength(|s|)]
  }

  /** What the ROM was told to expect is what it is sent, exactly unless the rounding overflows. */
  lemma AnnouncedIsSent(s: seq<Byte>)
    requires |s| < TWO_TO_THE_32
    ensures Rounded(|s|) == |Padded(s)| <==> |s| <= TWO_TO_THE_32 - 4
    ensures |Padded(s)| % 4 == 0 && |Padded(s)| < |s| + 4 && Padded(s)[..|s|] == s
    ensures forall i | |s| <= i < |Padded(s)| :: Padded(s)[i] == 0xFF
  {
    PadLengthIs(|s|);
  }

  // ---- Who has the coprocessor -----------------------------------------------------------------------

  /** The calls that reach the library and the coprocessor manager; `ok` where the session depends on it. */
  datatype Call =
    | TakeUart(taken: bool)
    | PortInit(ok: bool)
    | Connect
    | GetTarget
    | ChangeRate
    | FlashStart(size: nat, ok: bool)
    | FlashWrite(data: seq<Byte>, ok: bool)
    | FlashFinish
    | ResetTarget
    | PortDeinit
    | LinesIdle
    | ConsoleRestore
    | ModeConsole

  /** Who may call what: the port is up only while the UART is taken, and goes before the console is back. */
  datatype Hold = Free | Taken | Up(writing: bool) | WasReset | Idle | Restored | Wrong

  function Step(h: Hold, c: Call): Hold {
    match (h, c)
    case (Free, TakeUart(taken)) => if taken then Taken else Free
    case (Taken, PortInit(ok)) => if ok then Up(false) else Taken
    case (Up(w), Connect) => if w then Wrong else h
    case (Up(w), GetTarget) => if w then Wrong else h
    case (Up(w), ChangeRate) => if w then Wrong else h
    case (Up(w), FlashStart(_, ok)) => if w then Wrong else Up(ok)
    case (Up(w), FlashWrite(_, ok)) => if w then Up(ok) else Wrong
    case (Up(w), FlashFinish) => if w then Up(false) else Wrong
    case (Up(_), ResetTarget) => WasReset
    case (WasReset, PortDeinit) => Taken
    case (Taken, LinesIdle) => Idle
    case (Idle, ConsoleRestore) => Restored
    case (Restored, ModeConsole) => Free
    case (_, _) => Wrong
  }

  function After(calls: seq<Call>): Hold {
    if calls == [] then Free else Step(After(calls[..|calls| - 1]), calls[|calls| - 1])
  }

  function Count(calls: seq<Call>, p: Call -> bool): nat {
    if calls == [] then 0
    else Count(calls[..|calls| - 1], p) + (if p(calls[|calls| - 1]) then 1 else 0)
  }

  function Takes(calls: seq<Call>): nat { Count(calls, (c: Call) => c.TakeUart? && c.taken) }
  function GivesBack(calls: seq<Call>): nat { Count(calls, (c: Call) => c.ModeConsole?) }
  function Inits(calls: seq<Call>): nat { Count(calls, (c: Call) => c.PortInit? && c.ok) }
  function Deinits(calls: seq<Call>): nat { Count(calls, (c: Call) => c.PortDeinit?) }

  /** Calls in the right order: every UART that was taken was handed back once, but for one still held. */
  lemma {:induction false} TakenIsGivenBack(calls: seq<Call>)
    requires After(calls) != Wrong
    ensures Takes(calls) == GivesBack(calls) + if After(calls).Free? then 0 else 1
    ensures Inits(calls) == Deinits(calls) + if After(calls).Up? || After(calls).WasReset? then 1 else 0
    decreases |calls|
  {
    if calls != [] {
      TakenIsGivenBack(calls[..|calls| - 1]);
    }
  }

  /** The write the ROM is in: how many bytes it was told to expect, and the blocks it has taken. */
  datatype Flash = Flash(expected: nat, taken: seq<seq<Byte>>)

  function FlashStep(f: Flash, c: Call): Flash {
    match c
    case FlashStart(size, ok) => if ok then Flash(size, []) else f
    case FlashWrite(data, ok) => if ok then f.(taken := f.taken + [data]) else f
    case _ => f
  }

  function OnFlash(calls: seq<Call>): Flash {
    if calls == [] then Flash(0, []) else FlashStep(OnFlash(calls[..|calls| - 1]), calls[|calls| - 1])
  }

  lemma AfterOne(calls: seq<Call>, c: Call)
    ensures After(calls + [c]) == Step(After(calls), c)
    ensures OnFlash(calls + [c]) == FlashStep(OnFlash(calls), c)
  {
    assert (calls + [c])[..|calls|] == calls;
  }

  // ---- The session ---------------------------------------------------------------------------------

  datatype Rc = Ok | NotPermitted | BadArgument | Busy | IoError | WrongChip

  /** What set_mode(FLASHING) says. */
  datatype ModeRc = ModeOk | ModeBusy | ModeTimedOut | ModeFailed

  class Adapter {
    var session: bool
    var portUp: bool
    var writing: bool
    var announced: nat
    var rounded: nat
    var accepted: nat
    const block: array<Byte>
    var fill: nat

    // Every call, the blocks of this write and the bytes they were made of: for the proofs only.
    ghost var calls: seq<Call>
    ghost var sent: seq<seq<Byte>>
    ghost var given: seq<Byte>

    ghost predicate Holds()
      reads this
    {
      && block.Length == BLOCK
      && After(calls) == (if !session then Free else if portUp then Up(writing) else Taken)
      && (portUp ==> session) && (writing ==> portUp)
    }

    /** What has been sent and what waits in the block are what has been given. */
    ghost predicate Streams()
      reads this, block
    {
      && block.Length == BLOCK && fill < BLOCK && AllFull(sent) && Joined(sent) + block[..fill] == given
      && announced < TWO_TO_THE_32 && rounded == Rounded(announced) && OnFlash(calls) == Flash(rounded, sent)
    }

    ghost predicate Valid()
      reads this, block
    {
      && Holds() && (session ==> portUp)
      && (writing ==> Streams() && |given| == accepted <= announced)
    }

    constructor ()
      ensures Valid() && !session && calls == [] && fresh(block)
    {
      session, portUp, writing := false, false, false;
      announced, rounded, accepted, fill := 0, 0, 0, 0;
      block := new Byte[BLOCK](_ => 0);
      calls, sent, given := [], [], [];
    }

    ghost method Called(c: Call)
      modifies `calls
      ensures calls == old(calls) + [c] && After(calls) == Step(After(old(calls)), c)
      ensures OnFlash(calls) == FlashStep(OnFlash(old(calls)), c)
    {
      calls := calls + [c];
      AfterOne(old(calls), c);
    }

    /** Normal boot needs the library's port, so the reset comes first. */
    method PortDown()
      requires After(calls).Up?
      modifies `portUp, `calls
      ensures !portUp && After(calls).Taken? && old(calls) <= calls && OnFlash(calls) == OnFlash(old(calls))
    {
      hide After, OnFlash;
      Called(ResetTarget);
      Called(PortDeinit);
      portUp := false;
    }

    /** teardown(): whatever failed before, all of it, in this order. */
    method Teardown(idle: int, restore: int, mode: int) returns (first: int)
      requires session && block.Length == BLOCK && (if portUp then After(calls).Up? else After(calls).Taken?)
      modifies `session, `portUp, `writing, `calls
      ensures Valid() && !session && old(calls) <= calls && OnFlash(calls) == OnFlash(old(calls))
      ensures first == if idle != 0 then idle else if restore != 0 then restore else mode
    {
      hide After, OnFlash, Streams;
      if portUp {
        PortDown();
      }
      assert After(calls).Taken?;
      first := 0;
      Called(LinesIdle);
      if idle != 0 && first == 0 {
        first := idle;
      }
      Called(ConsoleRestore);
      if restore != 0 && first == 0 {
        first := restore;
      }
      Called(ModeConsole);
      if mode != 0 && first == 0 {
        first := mode;
      }
      session := false;
      writing := false;
    }

    /** esp_loader_adapter_open(): a session, or everything as it was before it. */
    method Open(mode: ModeRc, portInit: bool, connect: bool, chipIsC6: bool, highBaud: bool,
        changeRate: bool) returns (rc: Rc)
      requires Valid()
      modifies this
      ensures Valid() && old(calls) <= calls
      ensures session == (rc.Ok? || old(session))
      ensures rc.Ok? ==> !writing && mode.ModeOk? && portInit && connect && chipIsC6 && (highBaud ==> changeRate)
      ensures old(session) ==> rc == Busy && calls == old(calls) && writing == old(writing) && given == old(given)
    {
      hide After, OnFlash, Streams;
      if session {
        return Busy;
      }
      Called(TakeUart(mode.ModeOk? || mode.ModeFailed?));
      if mode.ModeBusy? {
        return Busy;
      }
      if mode.ModeTimedOut? {
        return IoError;
      }
      session := true;
      if mode.ModeFailed? {
        var _ := Teardown(0, 0, 0);
        return IoError;
      }
      Called(PortInit(portInit));
      if !portInit {
        var _ := Teardown(0, 0, 0);
        return IoError;
      }
      portUp := true;
      Called(Connect);
      if !connect {
        var _ := Teardown(0, 0, 0);
        return IoError;
      }
      Called(GetTarget);
      if !chipIsC6 {
        var _ := Teardown(0, 0, 0);
        return WrongChip;
      }
      if highBaud {
        Called(ChangeRate);
        if !changeRate {
          var _ := Teardown(0, 0, 0);
          return IoError;
        }
      }
      rc := Ok;
    }

    /** esp_loader_adapter_begin() */
    method Begin(size: nat, started: bool) returns (rc: Rc)
      requires Valid() && size < TWO_TO_THE_32
      modifies this
      ensures Valid() && old(calls) <= calls
      ensures rc.Ok? ==> writing && announced == size && given == [] && sent == []
      ensures rc.Ok? <==> old(session) && !old(writing) && size > 0 && started
      ensures session == (old(session) && !rc.IoError?)
    {
      hide After, OnFlash;
      if !session || writing {
        return NotPermitted;
      }
      if size == 0 {
        return BadArgument;
      }
      rounded := Rounded(size);
      Called(FlashStart(rounded, started));
      if !started {
        var _ := Teardown(0, 0, 0);
        return IoError;
      }
      writing := true;
      announced := size;
      accepted := 0;
      fill := 0;
      sent, given := [], [];
      assert block[..0] == [];
      rc := Ok;
    }

    /** send_block(): the first n bytes of the block go out, or the session is over. */
    method SendBlock(n: nat, written: bool) returns (rc: Rc)
      requires Holds() && writing && n <= BLOCK
      modifies `session, `portUp, `writing, `calls, `fill, `sent
      ensures Holds() && fill == 0 && old(calls) <= calls
      ensures if written then
                && rc.Ok? && writing && session && portUp && sent == old(sent) + [block[..n]]
                && OnFlash(calls) == FlashStep(OnFlash(old(calls)), FlashWrite(block[..n], true))
              else rc == IoError && !session && Valid() && sent == old(sent)
    {
      Called(FlashWrite(block[..n], written));
      fill := 0;
      if !written {
        var _ := Teardown(0, 0, 0);
        return IoError;
      }
      sent := sent + [block[..n]];
      rc := Ok;
    }

    /** memcpy() and memset() into the block. */
    method Fill(data: seq<Byte>)
      requires block.Length == BLOCK && fill + |data| <= BLOCK
      modifies block, `fill
      ensures fill == old(fill) + |data| && block[..fill] == old(block[..fill]) + data
    {
      var i := 0;
      while i < |data|
        modifies block
        invariant i <= |data|
        invariant block[..fill] == old(block[..fill])
        invariant block[fill..fill + i] == data[..i]
      {
        block[fill + i] := data[i];
        i := i + 1;
      }
      assert block[..fill + |data|] == block[..fill] + block[fill..fill + |data|];
      fill := fill + |data|;
    }

    /** What still fits the block; a full one goes out. */
    method TakePiece(p: seq<Byte>, written: bool) returns (rc: Rc)
      requires Holds() && writing && Streams() && fill + |p| <= BLOCK
      modifies `session, `portUp, `writing, `calls, `fill, `sent, `given, block
      ensures old(calls) <= calls
      ensures rc.Ok? ==> Holds() && writing && Streams() && given == old(given) + p
      ensures !rc.Ok? ==> rc.IoError? && Valid() && !session
    {
      hide After, OnFlash, Rounded;
      Fill(p);
      given := given + p;
      assert Joined(sent) + block[..fill] == given;
      if fill == BLOCK {
        ghost var was := sent;
        rc := SendBlock(BLOCK, written);
        if !rc.Ok? {
          return;
        }
        assert sent[..|was|] == was;
        assert block[..0] == [];
      }
      rc := Ok;
    }

    /** esp_loader_adapter_write(): `written` says how each block that goes out fares. */
    method Write(data: seq<Byte>, written: seq<bool>) returns (rc: Rc)
      requires Valid()
      modifies this, block
      ensures Valid() && old(calls) <= calls
      ensures rc.Ok? ==> writing && session && given == old(given) + data && announced == old(announced)
      ensures rc.NotPermitted? <==> !old(writing)
      ensures rc.BadArgument? <==> old(writing) && |data| > old(announced) - |old(given)|
      ensures rc.NotPermitted? || rc.BadArgument? ==> calls == old(calls) && given == old(given)
                                                      && writing == old(writing) && session == old(session)
      ensures rc.Ok? || rc.NotPermitted? || rc.BadArgument? || (rc.IoError? && !session)
    {
      hide After, OnFlash, Joined, AllFull;
      if !writing {
        return NotPermitted;
      }
      if |data| > announced - accepted {
        return BadArgument;
      }
      accepted := accepted + |data|;
      var done, k := 0, 0;
      while done < |data|
        invariant done <= |data|
        invariant Holds() && writing && session && portUp && Streams() && old(calls) <= calls
        invariant given == old(given) + data[..done]
        invariant accepted == |old(given)| + |data| <= announced && announced == old(announced)
      {
        var n := if |data| - done < BLOCK - fill then |data| - done else BLOCK - fill;
        rc := TakePiece(data[done..done + n], if k < |written| then written[k] else true);
        if !rc.Ok? {
          return;
        }
        assert data[..done + n] == data[..done] + data[done..done + n];
        k := if fill == 0 then k + 1 else k;
        done := done + n;
      }
      rc := Ok;
    }

    /** esp_loader_adapter_finish(): a success is the whole image on the flash, padded, in its one blocking. */
    method Finish(written: bool, confirmed: bool) returns (rc: Rc)
      requires Valid()
      modifies this, block
      ensures Valid() && old(calls) <= calls
      ensures rc.Ok? ==> session && !writing && |given| == announced < TWO_TO_THE_32
      ensures rc.Ok? ==> OnFlash(calls) == Flash(Rounded(announced), Blocks(Padded(given)))
      ensures given == old(given) && announced == old(announced)
      ensures rc.NotPermitted? <==> !old(writing)
      ensures rc.BadArgument? <==> old(writing) && |old(given)| != old(announced)
      ensures rc.NotPermitted? || rc.BadArgument? ==> calls == old(calls) && writing == old(writing)
                                                      && session == old(session)
      ensures rc.Ok? || rc.NotPermitted? || rc.BadArgument? || (rc.IoError? && !session)
    {
      hide After, OnFlash, Blocks, Rounded, AllFull;
      if !writing {
        return NotPermitted;
      }
      if accepted != announced {
        return BadArgument;
      }
      ghost var was, waiting := sent, block[..fill];
      var pad := PadLength(announced);
      PadFits();
      Fill(PAD[..pad]);
      if fill > 0 {
        ghost var last := block[..fill];
        rc := SendBlock(fill, written);
        if !rc.Ok? {
          return;
        }
        LastBlock(was, last, given);
      } else {
        assert was == sent && waiting == [];
        NoLastBlock(was, given);
      }
      writing := false;
      Called(FlashFinish);
      if !confirmed {
        var _ := Teardown(0, 0, 0);
        return IoError;
      }
      rc := Ok;
    }

    /** What waits is a multiple of four short of the padding, so the padding fits the block. */
    lemma PadFits()
      requires Streams() && |given| == announced
      ensures fill + PadLength(announced) <= BLOCK
    {
      FullLength(sent);
    }

    /** esp_loader_adapter_close() */
    method Close(idle: int, restore: int, mode: int) returns (rc: int)
      requires Valid()
      modifies `session, `portUp, `writing, `calls
      ensures Valid() && !session && old(calls) <= calls && OnFlash(calls) == OnFlash(old(calls))
      ensures !old(session) ==> rc == 0 && calls == old(calls)
    {
      if !session {
        return 0;
      }
      rc := Teardown(idle, restore, mode);
    }
  }

  lemma {:induction false} FullLength(bs: seq<seq<Byte>>)
    requires AllFull(bs)
    ensures |Joined(bs)| % 4 == 0
    decreases |bs|
  {
    if bs != [] {
      FullLength(bs[..|bs| - 1]);
    }
  }

  lemma LastBlock(was: seq<seq<Byte>>, last: seq<Byte>, given: seq<Byte>)
    requires AllFull(was) && 0 < |last| <= BLOCK && |given| < TWO_TO_THE_32
    requires Joined(was) + last == Padded(given)
    ensures was + [last] == Blocks(Padded(given))
  {
    assert (was + [last])[..|was|] == was;
    OneWayToBlock(was + [last], Padded(given));
  }

  lemma NoLastBlock(was: seq<seq<Byte>>, given: seq<Byte>)
    requires AllFull(was) && |given| < TWO_TO_THE_32 && Joined(was) == given && PadLength(|given|) == 0
    ensures was == Blocks(Padded(given))
  {
    OneWayToBlock(was, Padded(given));
    assert Padded(given) == given;
  }
}
