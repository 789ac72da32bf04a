/** A piece of the file that stays inside one region, taken at once: the same as byte by byte. */
module FwPieces {
  import opened Bytes
  import opened EspImage
  import opened FwImage

  /** The check as it is, with more of the file read. */
  function With(c: Check, p: seq<Byte>, boot: Walk, app: Walk): (d: Check)
    requires c.Running?
    ensures d.Running?
  {
    Running(c.size, c.fed + p, boot, app, c.table)
  }

  /** The bytes of a piece that lie after the end of an image. */
  function Beyond(c: Check, p: seq<Byte>, w: Walk): seq<Byte>
    requires w.Done?
  {
    if |c.fed| <= w.end <= |c.fed| + |p| then p[w.end - |c.fed|..] else p
  }

  /** Below the partition table; w is the bootloader's walk after the piece. */
  function AfterBoot(c: Check, p: seq<Byte>, w: Walk): Check
    requires c.Running?
  {
    var d := With(c, p, w, c.app);
    if w.Faulted? then Fail(d, w.message)
    else if w.Done? && !Erased(Beyond(c, p, w)) then Fail(d, GapNotErased)
    else if |d.fed| == TABLE_OFFSET && !w.Done? then Fail(d, BootOverruns)
    else d
  }

  function AfterErased(c: Check, p: seq<Byte>, m: Message): Check
    requires c.Running?
  {
    var d := With(c, p, c.boot, c.app);
    if Erased(p) then d else Fail(d, m)
  }

  /** From the application's base on; w is its walk after the piece. */
  function AfterApp(c: Check, p: seq<Byte>, w: Walk): Check
    requires c.Running?
  {
    var d := With(c, p, c.boot, w);
    if w.Faulted? then Fail(d, w.message)
    else if w.Done? && w.end < |d.fed| then Fail(d, BytesFollow)
    else d
  }

  /** Where the walks stand when the check has read so much. */
  predicate Placed(c: Check) {
    CheckOk(c) &&
    (c.Running? ==>
      && (c.boot.Walking? ==> c.boot.part.Boot? && (|c.fed| <= TABLE_OFFSET ==> At(c.boot) == |c.fed|))
      && (c.boot.Done? ==> c.boot.end <= |c.fed|)
      && !c.boot.Faulted? && !c.app.Faulted?
      && (c.app.Walking? ==>
            c.app.part.App? && At(c.app) == (if |c.fed| <= APP_OFFSET then APP_OFFSET else |c.fed|))
      && (c.app.Done? ==> APP_OFFSET <= c.app.end <= |c.fed|))
  }

  lemma FeedAllLast(h: Hashes, c: Check, p: seq<Byte>)
    requires CheckOk(c) && p != []
    ensures var k := |p| - 1; FeedAll(h, c, p) == StepByte(h, FeedAll(h, c, p[..k]), p[k])
  {
    hide StepByte, CheckOk;
    var k := |p| - 1;
    assert p == p[..k] + [p[k]];
    FeedAllConcat(h, c, p[..k], [p[k]]);
    FeedAllByte(h, FeedAll(h, c, p[..k]), p[k]);
  }

  lemma FeedLast(h: Hashes, w: Walk, p: seq<Byte>)
    requires WalkOk(w) && p != []
    ensures var k := |p| - 1; Feed(h, w, p) == StepWalk(h, Feed(h, w, p[..k]), p[k])
  {
    assert p == p[..|p| - 1] + [p[|p| - 1]];
    FeedByte(h, w, p[..|p| - 1], p[|p| - 1]);
  }

  /** The bytes beyond the end, one more of them. */
  lemma BeyondLast(c: Check, p: seq<Byte>, w: Walk)
    requires w.Done? && p != []
    ensures var k := |p| - 1;
            && (w.end <= |c.fed| + k ==> (Erased(Beyond(c, p, w)) <==> Erased(Beyond(c, p[..k], w)) && p[k] == 0xFF))
            && (w.end == |c.fed| + |p| ==> Erased(Beyond(c, p, w)))
  {
    var k := |p| - 1;
    if w.end <= |c.fed| + k {
      var all, some := Beyond(c, p, w), Beyond(c, p[..k], w);
      assert all == some + [p[k]];
      if Erased(all) {
        assert forall i | 0 <= i < |some| :: some[i] == all[i];
        assert all[|some|] == 0xFF;
      }
    }
  }

  lemma {:induction false} BootPiece(h: Hashes, c: Check, p: seq<Byte>)
    requires Placed(c) && c.Running? && |c.fed| + |p| <= TABLE_OFFSET && |c.fed| + |p| <= c.size && p != []
    ensures FeedAll(h, c, p) == AfterBoot(c, p, Feed(h, c.boot, p))
    decreases |p|
  {
    hide Feed, StepWalk, WalkOk, Erased, Beyond, FeedAll;
    var k := |p| - 1;
    var q, b := p[..k], p[k];
    FeedAllLast(h, c, p);
    FeedLast(h, c.boot, p);
    var w := Feed(h, c.boot, q);
    BootBefore(h, c, q);
    NothingErased(c, w);
    if k > 0 {
      BootPiece(h, c, q);
    }
    assert c.fed + q + [b] == c.fed + p;
    WalkLast(h, c.boot, q, b);
    if w.Done? {
      BeyondLast(c, p, w);
    } else if w.Walking? && StepWalk(h, w, b).Done? {
      BeyondLast(c, p, StepWalk(h, w, b));
    }
  }

  lemma NothingErased(c: Check, w: Walk)
    ensures Erased([])
    ensures w.Done? && w.end <= |c.fed| ==> Beyond(c, [], w) == []
  {
  }

  /** Nothing read, nothing changed. */
  lemma BootBefore(h: Hashes, c: Check, q: seq<Byte>)
    requires Placed(c) && c.Running?
    ensures q == [] ==> Feed(h, c.boot, q) == c.boot && FeedAll(h, c, q) == c
  {
  }

  /** What the last byte of a piece does to a walk. */
  lemma WalkLast(h: Hashes, w0: Walk, q: seq<Byte>, b: Byte)
    requires WalkOk(w0)
    ensures var w := Feed(h, w0, q);
            var v := StepWalk(h, w, b);
            && (!w.Walking? ==> v == w)
            && (w0.Walking? ==>
                  && (w.Walking? ==> w.part == w0.part && At(w) == At(w0) + |q|)
                  && (w.Done? ==> At(w0) < w.end <= At(w0) + |q|)
                  && (w.Walking? && v.Done? ==> v.end == At(w) + 1))
            && (!w0.Walking? ==> w == w0)
  {
    hide StepWalk, WalkOk;
    var w := Feed(h, w0, q);
    if w0.Walking? {
      FeedAt(h, w0, q);
    } else {
      FeedOver(h, w0, q);
    }
    if w.Walking? {
      StepWalkShape(h, w, b);
    } else {
      OverStays(h, w, b);
    }
  }

  lemma OverStays(h: Hashes, w: Walk, b: Byte)
    requires !w.Walking?
    ensures StepWalk(h, w, b) == w
  {
  }

  lemma {:induction false} ErasedPiece(h: Hashes, c: Check, p: seq<Byte>)
    requires CheckOk(c) && c.Running? && |c.fed| + |p| <= c.size && p != []
    requires (TABLE_END <= |c.fed| && |c.fed| + |p| <= DATA_OFFSET)
        || (DATA_OFFSET <= |c.fed| && |c.fed| + |p| <= APP_OFFSET)
    ensures FeedAll(h, c, p) == AfterErased(c, p, if |c.fed| < DATA_OFFSET then AfterTable else DataNotErased)
    decreases |p|
  {
    hide FeedAll, WalkOk, StepWalk, Erased;
    var k := |p| - 1;
    FeedAllLast(h, c, p);
    ErasedLast(p);
    assert c.fed + p[..k] + [p[k]] == c.fed + p;
    if k > 0 {
      ErasedPiece(h, c, p[..k]);
    } else {
      NothingErased(c, c.boot);
      NothingFed(h, c, p[..k]);
      assert c.fed + p[..k] == c.fed;
    }
  }

  lemma ErasedLast(p: seq<Byte>)
    requires p != []
    ensures Erased(p) <==> Erased(p[..|p| - 1]) && p[|p| - 1] == 0xFF
  {
    assert forall i | 0 <= i < |p| - 1 :: p[..|p| - 1][i] == p[i];
  }

  lemma NothingFed(h: Hashes, c: Check, p: seq<Byte>)
    requires CheckOk(c) && p == []
    ensures FeedAll(h, c, p) == c
  {
  }

  lemma {:induction false} TablePiece(h: Hashes, c: Check, p: seq<Byte>)
    requires CheckOk(c) && c.Running? && |c.fed| + |p| <= c.size && p != []
    requires TABLE_OFFSET <= |c.fed| && |c.fed| + |p| <= TABLE_END
    ensures FeedAll(h, c, p) == InTable(h, With(c, p, c.boot, c.app))
    decreases |p|
  {
    hide FeedAll, WalkOk, StepWalk, CheckTable;
    var k := |p| - 1;
    FeedAllLast(h, c, p);
    assert c.fed + p[..k] + [p[k]] == c.fed + p;
    if k > 0 {
      TablePiece(h, c, p[..k]);
    } else {
      NothingFed(h, c, p[..k]);
      assert c.fed + p[..k] == c.fed;
    }
  }

  lemma {:induction false} AppPiece(h: Hashes, c: Check, p: seq<Byte>)
    requires Placed(c) && c.Running? && |c.fed| + |p| <= c.size && p != [] && APP_OFFSET <= |c.fed|
    ensures FeedAll(h, c, p) == AfterApp(c, p, Feed(h, c.app, p))
    decreases |p|
  {
    hide Feed, StepWalk, WalkOk, FeedAll;
    var k := |p| - 1;
    var q, b := p[..k], p[k];
    FeedAllLast(h, c, p);
    FeedLast(h, c.app, p);
    if k > 0 {
      AppPiece(h, c, q);
    } else {
      NothingFed(h, c, q);
      FeedNothing(h, c.app);
      assert q == [] && c.fed + q == c.fed;
    }
    assert c.fed + q + [b] == c.fed + p;
    WalkLast(h, c.app, q, b);
  }

  /** After a fault only the bytes are counted. */
  lemma {:induction false} FailedPiece(h: Hashes, c: Check, p: seq<Byte>)
    requires c.Failed? && |c.fed| + |p| <= c.size
    ensures FeedAll(h, c, p) == Failed(c.size, c.fed + p, c.message, c.texts, c.table, c.bootBytes, c.appBytes)
    decreases |p|
  {
    if p == [] {
      assert c.fed + p == c.fed;
    } else {
      FailedPiece(h, StepByte(h, c, p[0]), p[1..]);
      assert c.fed + [p[0]] + p[1..] == c.fed + p;
    }
  }

  /** What comes after the declared size is not looked at. */
  lemma {:induction false} PastTheEnd(h: Hashes, c: Check, p: seq<Byte>)
    requires CheckOk(c) && c.size <= |c.fed|
    ensures FeedAll(h, c, p) == c
    decreases |p|
  {
    if p != [] {
      PastTheEnd(h, c, p[1..]);
    }
  }

  lemma {:induction false} FedLength(h: Hashes, c: Check, p: seq<Byte>)
    requires CheckOk(c) && |c.fed| + |p| <= c.size
    ensures FeedAll(h, c, p).size == c.size && FeedAll(h, c, p).fed == c.fed + p
    decreases |p|
  {
    if p != [] {
      hide StepByte, CheckOk;
      StepByteOk(h, c, p[0]);
      FedLength(h, StepByte(h, c, p[0]), p[1..]);
      assert c.fed + [p[0]] + p[1..] == c.fed + p;
    }
  }
}
