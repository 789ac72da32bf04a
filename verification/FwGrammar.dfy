/** The files the check accepts, described without reading them byte by byte. */
module FwGrammar {
  import opened Bytes
  import opened Options
  import opened EspImage
  import opened FwImage
  import opened FwPieces

  /**
   * A bootloader of e bytes, an erased gap, a partition table of n entries, an erased data area,
   * and an application that ends with the file, below ota_1.
   */
  ghost predicate FlashImage(h: Hashes, f: seq<Byte>, e: nat, n: nat) {
    && APP_OFFSET < |f| <= MAX_BYTES
    && IsImage(h, Boot, f, TABLE_OFFSET, e) && e <= TABLE_OFFSET && Erased(f[e..TABLE_OFFSET])
    && IsTable(h, f[TABLE_OFFSET..TABLE_END], n)
    && Erased(f[TABLE_END..APP_OFFSET])
    && IsImage(h, App, f, |f|, |f|)
  }

  // ---- The check after x bytes of f ---------------------------------------------------------------

  function Min(a: nat, b: nat): nat { if a < b then a else b }

  function BootAt(h: Hashes, f: seq<Byte>, x: nat): (w: Walk)
    requires x <= |f|
    ensures WalkOk(w)
  {
    Feed(h, StartWalk(Boot, TABLE_OFFSET), f[..Min(x, TABLE_OFFSET)])
  }

  function AppAt(h: Hashes, f: seq<Byte>, x: nat): (w: Walk)
    requires x <= |f|
    ensures WalkOk(w)
  {
    Feed(h, StartWalk(App, |f|), if x <= APP_OFFSET then [] else f[APP_OFFSET..x])
  }

  function TableAt(h: Hashes, f: seq<Byte>, x: nat): Table
    requires x <= |f|
  {
    if x < TABLE_END then Unseen
    else
      match CheckTable(h, f[TABLE_OFFSET..TABLE_END], 0, 0, false)
      case TableBad(_) => Unseen
      case TableOk(known) => if known then Known else Unknown
  }

  predicate BootGood(h: Hashes, f: seq<Byte>, x: nat)
    requires x <= |f|
  {
    var w := BootAt(h, f, x);
    var y := Min(x, TABLE_OFFSET);
    && !w.Faulted?
    && (w.Done? ==> w.end <= y && Erased(f[w.end..y]))
    && (TABLE_OFFSET <= x ==> w.Done?)
  }

  predicate TableGood(h: Hashes, f: seq<Byte>, x: nat)
    requires x <= |f|
  {
    TABLE_END <= x ==>
      && CheckTable(h, f[TABLE_OFFSET..TABLE_END], 0, 0, false).TableOk?
      && Erased(f[TABLE_END..Min(x, APP_OFFSET)])
  }

  predicate AppGood(h: Hashes, f: seq<Byte>, x: nat)
    requires x <= |f|
  {
    APP_OFFSET < x ==>
      var w := AppAt(h, f, x);
      !w.Faulted? && (w.Done? ==> w.end == x)
  }

  predicate Good(h: Hashes, f: seq<Byte>, x: nat)
    requires x <= |f|
  {
    BootGood(h, f, x) && TableGood(h, f, x) && AppGood(h, f, x)
  }

  function StateAt(h: Hashes, f: seq<Byte>, x: nat): Check
    requires x <= |f|
  {
    Running(|f|, f[..x], BootAt(h, f, x), AppAt(h, f, x), TableAt(h, f, x))
  }

  // ---- One byte more -----------------------------------------------------------------------------

  lemma BootAtNext(h: Hashes, f: seq<Byte>, x: nat)
    requires x < |f|
    ensures BootAt(h, f, x + 1) == if x < TABLE_OFFSET then StepWalk(h, BootAt(h, f, x), f[x]) else BootAt(h, f, x)
    ensures x <= TABLE_OFFSET && BootAt(h, f, x).Walking? ==> BootAt(h, f, x).part.Boot? && At(BootAt(h, f, x)) == x
    ensures BootAt(h, f, x).Done? ==> 0 < BootAt(h, f, x).end <= Min(x, TABLE_OFFSET)
  {
    hide Feed, StepWalk, WalkOk;
    var w := StartWalk(Boot, TABLE_OFFSET);
    FeedAt(h, w, f[..Min(x, TABLE_OFFSET)]);
    if x < TABLE_OFFSET {
      FeedByte(h, w, f[..x], f[x]);
      assert f[..x + 1] == f[..x] + [f[x]];
    }
  }

  lemma AppAtNext(h: Hashes, f: seq<Byte>, x: nat)
    requires x < |f|
    ensures AppAt(h, f, x + 1) == if APP_OFFSET <= x then StepWalk(h, AppAt(h, f, x), f[x]) else AppAt(h, f, x)
    ensures APP_OFFSET <= x && AppAt(h, f, x).Walking? ==> AppAt(h, f, x).part.App? && At(AppAt(h, f, x)) == x
    ensures APP_OFFSET <= x && AppAt(h, f, x).Done? ==> APP_OFFSET < AppAt(h, f, x).end <= x
  {
    hide Feed, StepWalk, WalkOk;
    var w := StartWalk(App, |f|);
    if APP_OFFSET <= x {
      FeedAt(h, w, f[APP_OFFSET..x]);
      FeedByte(h, w, f[APP_OFFSET..x], f[x]);
      assert f[APP_OFFSET..x + 1] == f[APP_OFFSET..x] + [f[x]];
      assert f[APP_OFFSET..APP_OFFSET] == [];
    }
  }

  lemma ErasedByte(f: seq<Byte>, p: nat, x: nat)
    requires p <= x < |f|
    ensures Erased(f[p..x + 1]) <==> Erased(f[p..x]) && f[x] == 0xFF
  {
    assert f[p..x + 1] == f[p..x] + [f[x]];
    if Erased(f[p..x + 1]) {
      assert forall i | 0 <= i < x - p :: f[p..x][i] == f[p..x + 1][i];
      assert f[p..x + 1][x - p] == f[x];
    }
  }

  /** What one more byte does to a file that has been good so far. */
  predicate StepsRight(h: Hashes, f: seq<Byte>, x: nat)
    requires x < |f|
  {
    && (Good(h, f, x + 1) ==> Good(h, f, x))
    && (Good(h, f, x) ==>
          var c := StateAt(h, f, x);
          CheckOk(c) &&
          if Good(h, f, x + 1) then StepByte(h, c, f[x]) == StateAt(h, f, x + 1) else StepByte(h, c, f[x]).Failed?)
  }

  lemma BootStep(h: Hashes, f: seq<Byte>, x: nat)
    requires x < |f| && x < TABLE_OFFSET
    ensures StepsRight(h, f, x)
  {
    hide StepWalk, WalkOk, CheckTable, Erased;
    BootAtNext(h, f, x);
    AppAtNext(h, f, x);
    assert f[..x + 1] == f[..x] + [f[x]];
    var w := BootAt(h, f, x);
    if w.Done? {
      ErasedByte(f, w.end, x);
      assert StepWalk(h, w, f[x]) == w by { DoneStays(h, w, f[x]); }
    } else if w.Walking? {
      StepWalkShape(h, w, f[x]);
      ErasedNothing(f, x + 1);
    } else {
      assert StepWalk(h, w, f[x]) == w by { DoneStays(h, w, f[x]); }
    }
  }

  lemma DoneStays(h: Hashes, w: Walk, b: Byte)
    requires !w.Walking?
    ensures StepWalk(h, w, b) == w
  {
  }

  lemma ErasedNothing(f: seq<Byte>, x: nat)
    requires x <= |f|
    ensures Erased(f[x..x])
  {
  }

  lemma MiddleStep(h: Hashes, f: seq<Byte>, x: nat)
    requires x < |f| && TABLE_OFFSET <= x < APP_OFFSET
    ensures StepsRight(h, f, x)
  {
    hide Feed, StepWalk, WalkOk, CheckTable, Erased;
    BootAtNext(h, f, x);
    AppAtNext(h, f, x);
    assert f[..x + 1] == f[..x] + [f[x]];
    if x + 1 == TABLE_END {
      assert f[..x + 1][TABLE_OFFSET..TABLE_END] == f[TABLE_OFFSET..TABLE_END];
      ErasedNothing(f, x + 1);
    } else if TABLE_END <= x {
      ErasedByte(f, TABLE_END, x);
    }
  }

  lemma AppStep(h: Hashes, f: seq<Byte>, x: nat)
    requires x < |f| && APP_OFFSET <= x
    ensures StepsRight(h, f, x)
  {
    hide Feed, StepWalk, WalkOk, CheckTable, Erased;
    BootAtNext(h, f, x);
    AppAtNext(h, f, x);
    assert f[..x + 1] == f[..x] + [f[x]];
    var w := AppAt(h, f, x);
    if w.Walking? {
      StepWalkShape(h, w, f[x]);
    } else {
      DoneStays(h, w, f[x]);
    }
  }

  /** The check after x bytes: in the state the grammar's parts say, or failed. */
  lemma {:induction false} CheckAt(h: Hashes, f: seq<Byte>, x: nat)
    requires x <= |f| <= MAX_BYTES
    ensures var c := FeedAll(h, Begin(|f|), f[..x]);
            if Good(h, f, x) then c == StateAt(h, f, x) else c.Failed?
    decreases x
  {
    hide Good, StateAt, StepByte, CheckOk;
    if x == 0 {
      assert f[..0] == [];
      GoodAtFirst(h, f);
    } else {
      CheckAt(h, f, x - 1);
      var c := FeedAll(h, Begin(|f|), f[..x - 1]);
      FeedAllConcat(h, Begin(|f|), f[..x - 1], [f[x - 1]]);
      FeedAllByte(h, c, f[x - 1]);
      assert f[..x] == f[..x - 1] + [f[x - 1]];
      StepByteOk(h, c, f[x - 1]);
      if x - 1 < TABLE_OFFSET {
        BootStep(h, f, x - 1);
      } else if x - 1 < APP_OFFSET {
        MiddleStep(h, f, x - 1);
      } else {
        AppStep(h, f, x - 1);
      }
    }
  }

  lemma GoodAtFirst(h: Hashes, f: seq<Byte>)
    requires |f| <= MAX_BYTES
    ensures Good(h, f, 0) && StateAt(h, f, 0) == Begin(|f|)
  {
    assert f[..0] == [];
  }

  // ---- The whole file ------------------------------------------------------------------------------

  lemma {:induction false} FailedStays(h: Hashes, c: Check, s: seq<Byte>)
    requires c.Failed?
    ensures FeedAll(h, c, s).Failed? && FeedAll(h, c, s).message == c.message
    decreases |s|
  {
    if s != [] {
      StepByteOk(h, c, s[0]);
      FailedStays(h, StepByte(h, c, s[0]), s[1..]);
    }
  }

  /** The parts of a good file of the right length are the parts of an image. */
  lemma GoodIsImage(h: Hashes, f: seq<Byte>, e: nat, n: nat)
    requires APP_OFFSET < |f| <= MAX_BYTES
    ensures FlashImage(h, f, e, n) <==>
              && Good(h, f, |f|) && AppAt(h, f, |f|).Done?
              && BootAt(h, f, |f|).end == e && IsTable(h, f[TABLE_OFFSET..TABLE_END], n)
  {
    hide StepWalk, WalkOk, CheckTable, Erased, IsTable, Feed, IsImage;
    WalkAcceptsImages(h, Boot, f, TABLE_OFFSET, e);
    WalkAcceptsImages(h, App, f, |f|, |f|);
    var t := f[TABLE_OFFSET..TABLE_END];
    CheckAcceptsTables(h, t, 0);
    if IsTable(h, t, n) {
      TableIsUnique(h, t, n);
    }
    assert f[..TABLE_OFFSET] == f[Base(Boot)..TABLE_OFFSET];
    FeedAt(h, StartWalk(Boot, TABLE_OFFSET), f[..TABLE_OFFSET]);
    assert Base(App) == APP_OFFSET;
  }

  lemma FlashImageParts(h: Hashes, f: seq<Byte>, e: nat, n: nat)
    requires FlashImage(h, f, e, n)
    ensures APP_OFFSET + DESC_AT + APP_DESC_LEN <= |f| <= MAX_BYTES && IsTable(h, f[TABLE_OFFSET..TABLE_END], n)
    ensures n <= PART_MAX_ENTRIES
  {
  }

  /** What the check says of an image. */
  lemma SaysWhatItIs(h: Hashes, f: seq<Byte>, e: nat, n: nat)
    requires FlashImage(h, f, e, n)
    ensures var t := f[TABLE_OFFSET..TABLE_END];
            var known := MatchesLayout(t, n);
            var desc := f[APP_OFFSET + DESC_AT..APP_OFFSET + DESC_AT + APP_DESC_LEN];
            End(h, FeedAll(h, Begin(|f|), f)) ==
              Outcome(if known then Accepted else Incompatible,
                      if known then None else Some(LayoutUnsupported),
                      Info(Describe(App, desc).1, known, e, |f| - APP_OFFSET, Some(h.sha(f))))
  {
    hide StepByte, FeedAll, StepWalk, WalkOk, Erased, IsTable, MatchesLayout, Describe, CheckTable, Feed, IsImage, Good;
    hide BootAt, CheckOk, FlashImage;
    FlashImageParts(h, f, e, n);
    GoodIsImage(h, f, e, n);
    CheckAt(h, f, |f|);
    assert f[..|f|] == f;
    WalkAcceptsImages(h, App, f, |f|, |f|);
    CheckAcceptsTables(h, f[TABLE_OFFSET..TABLE_END], 0);
    TableIsUnique(h, f[TABLE_OFFSET..TABLE_END], n);
    AcceptedEnds(h, f, e);
  }

  /** Where both walks of a good file ended. */
  lemma AcceptedEnds(h: Hashes, f: seq<Byte>, e: nat)
    requires APP_OFFSET < |f| && Good(h, f, |f|)
    ensures BootAt(h, f, |f|).Done? && (AppAt(h, f, |f|).Done? ==> AppAt(h, f, |f|).end == |f|)
  {
  }

  lemma NoImageTooLarge(h: Hashes, f: seq<Byte>)
    requires |f| > MAX_BYTES
    ensures !exists e, n :: FlashImage(h, f, e, n)
  {
  }

  /** A file passes, but perhaps for its layout, exactly if it is a full-flash image. */
  lemma AcceptsExactlyImages(h: Hashes, f: seq<Byte>)
    ensures var r := End(h, FeedAll(h, Begin(|f|), f)).result;
            (r.Accepted? || r.Incompatible?) <==> exists e, n :: FlashImage(h, f, e, n)
  {
    hide StepByte, FeedAll, Feed, IsImage, IsTable, Erased, CheckTable, CheckOk, WalkOk, FlashImage;
    var c := FeedAll(h, Begin(|f|), f);
    if |f| > MAX_BYTES {
      FailedStays(h, Begin(|f|), f);
      NoImageTooLarge(h, f);
    } else {
      CheckAt(h, f, |f|);
      assert f[..|f|] == f;
      if e, n :| FlashImage(h, f, e, n) {
        SaysWhatItIs(h, f, e, n);
      } else if c.Running? && |f| > APP_OFFSET && AppAt(h, f, |f|).Done? {
        var n := EntryCount(f[TABLE_OFFSET..TABLE_END], 0);
        assert TableGood(h, f, |f|);
        CheckAcceptsTables(h, f[TABLE_OFFSET..TABLE_END], 0);
        GoodIsImage(h, f, BootAt(h, f, |f|).end, n);
      }
    }
  }

  /** A file that is cut short is invalid whatever its bytes are, or for another chip. */
  lemma ShortIsInvalid(h: Hashes, size: nat, s: seq<Byte>)
    requires |s| < size
    ensures var r := End(h, FeedAll(h, Begin(size), s)); r.result.Invalid? || r.result.UnsupportedTarget?
    ensures End(h, FeedAll(h, Begin(size), s)).info.sha.None?
  {
    FedLength(h, Begin(size), s);
  }
}
