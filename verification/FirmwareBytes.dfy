/** When the data file has all the bytes its record counts: always, but for a removal that stopped half-way. */
module FirmwareBytes {
  import opened Bytes
  import opened Options
  import opened EspImage
  import opened FirmwareFiles
  import opened FirmwareSafety

  /** The record that counts: the one in RAM, and before a start the one on storage. */
  function Current(s: Store): Option<Meta> {
    if s.ram.Some? then s.ram.value.m
    else if s.meta.Some? && s.meta.value.Record? then Some(s.meta.value.m)
    else None
  }

  /** The data file lacks bytes that the record counts. */
  predicate Short(s: Store) { Current(s).Some? && |Content(s.bin)| < Current(s).value.received }

  /** The removal a step gets to, if it gets to one. */
  function Removal(s: Store, e: Event): Option<(Io, Io)> {
    if !Removes(s, e) then None
    else
      match e
      case ExpireE(data, record) => if s.ram.value.m.Some? then Some((data, record)) else None
      case DeleteE(id, data, record) =>
        if s.ram.value.m.Some? && s.ram.value.m.value.id == id then Some((data, record)) else None
      case CreateE(size, _, data, record, _, _) => if 0 < size <= MAX_BYTES then Some((data, record)) else None
      case BootE(io) => if io.setup && s.meta.Some? then Some((io.data, io.record)) else None
      case _ => None
  }

  /**
   * The data file goes and a record that counts bytes of it stays: on storage, when the power goes in
   * between or nothing is in RAM yet; else in RAM, where it stays when either unlink reports an error.
   */
  predicate HalfRemoves(s: Store, e: Event) {
    var r := Removal(s, e);
    && r.Some? && r.value.0.done
    && (var data, record := r.value.0, r.value.1;
        var onStorage := s.meta.Some? && s.meta.value.Record? && s.meta.value.m.received > 0;
        if data.cut then onStorage
        else if record.cut || e.BootE? then onStorage && !record.done
        else s.ram.Some? && s.ram.value.m.Some? && s.ram.value.m.value.received > 0 && !(data.ok && record.ok))
  }

  /**
   * A start counts the file anew, in RAM or at least on storage; without a record, or with a new one,
   * there is nothing to lack.
   */
  predicate Mended(s: Store, e: Event, t: Store) {
    (e.BootE? && (t.ram.Some? || t.meta != s.meta)) || Current(t).None?
        || (Current(s).Some? && Current(t).value.id != Current(s).value.id)
  }

  // ---- One step ------------------------------------------------------------------------------------

  /** From a file that lacks nothing: exactly a removal that stops half-way makes it lack something. */
  predicate ShortensExactly(h: Hashes, s: Store, e: Event)
    requires Enabled(s, e)
  {
    !Short(s) ==> (Short(Next(h, s, e)) <==> HalfRemoves(s, e))
  }

  /** From one that lacks something: it goes on until it is mended. */
  predicate StaysExactly(h: Hashes, s: Store, e: Event)
    requires Enabled(s, e)
  {
    Short(s) ==> (Short(Next(h, s, e)) <==> !Mended(s, e, Next(h, s, e)))
  }

  lemma ExpireStep(h: Hashes, s: Store, e: Event)
    requires Inv(h, s) && Enabled(s, e) && Physical(s, e) && e.ExpireE?
    ensures ShortensExactly(h, s, e) && StaysExactly(h, s, e)
  {
    hide Passes, Agrees;
  }

  lemma DeleteStep(h: Hashes, s: Store, e: Event)
    requires Inv(h, s) && Enabled(s, e) && Physical(s, e) && e.DeleteE?
    ensures ShortensExactly(h, s, e) && StaysExactly(h, s, e)
  {
    hide Passes, Agrees;
  }

  lemma CreateStep(h: Hashes, s: Store, e: Event)
    requires Inv(h, s) && Enabled(s, e) && Physical(s, e) && e.CreateE?
    ensures ShortensExactly(h, s, e) && StaysExactly(h, s, e)
  {
    hide Passes, Agrees;
  }

  /** A start that finds no record. */
  lemma BlankBootStep(h: Hashes, s: Store, e: Event)
    requires Inv(h, s) && Enabled(s, e) && Physical(s, e) && e.BootE?
    requires !e.io.setup || s.meta.None?
    ensures ShortensExactly(h, s, e) && StaysExactly(h, s, e)
  {
    hide Passes, Agrees, CanTruncate;
  }

  /** One that finds a record it cannot read, and removes both files. */
  lemma UnreadableBootStep(h: Hashes, s: Store, e: Event)
    requires Inv(h, s) && Enabled(s, e) && Physical(s, e) && e.BootE?
    requires e.io.setup && s.meta.Some? && (s.meta.value.Unreadable? || !e.io.readable)
    ensures ShortensExactly(h, s, e) && StaysExactly(h, s, e)
  {
    hide Passes, Agrees, CanTruncate;
  }

  lemma BootStep(h: Hashes, s: Store, e: Event)
    requires Inv(h, s) && Enabled(s, e) && Physical(s, e) && e.BootE?
    requires e.io.setup && s.meta.Some? && s.meta.value.Record? && e.io.readable
    ensures ShortensExactly(h, s, e) && StaysExactly(h, s, e)
  {
    hide Passes, Agrees;
  }

  lemma RequestStep(h: Hashes, s: Store, e: Event)
    requires Inv(h, s) && Enabled(s, e) && Physical(s, e)
    requires e.PowerCut? || e.AcceptE? || e.VerifyBeginE? || e.SetInUseE? || e.OpenE? || e.CloseE? || e.CommitE?
        || e.VerifyE?
    ensures ShortensExactly(h, s, e) && StaysExactly(h, s, e)
  {
    hide Passes, Agrees;
  }

  lemma WorkerStep(h: Hashes, s: Store, e: Event)
    requires Inv(h, s) && Enabled(s, e) && Physical(s, e) && IsWorkerStep(e)
    ensures ShortensExactly(h, s, e) && StaysExactly(h, s, e)
  {
    hide Passes, Checked;
    if e.CheckedE? {
      CheckedPasses(h, s.worker.next, Content(s.bin));
    }
  }

  lemma EveryStep(h: Hashes, s: Store, e: Event)
    requires Inv(h, s) && Enabled(s, e) && Physical(s, e)
    ensures ShortensExactly(h, s, e) && StaysExactly(h, s, e)
  {
    hide Inv, Physical, ShortensExactly, StaysExactly;
    if e.ExpireE? {
      ExpireStep(h, s, e);
    } else if e.DeleteE? {
      DeleteStep(h, s, e);
    } else if e.CreateE? {
      CreateStep(h, s, e);
    } else if e.BootE? {
      if !e.io.setup || s.meta.None? {
        BlankBootStep(h, s, e);
      } else if s.meta.value.Unreadable? || !e.io.readable {
        UnreadableBootStep(h, s, e);
      } else {
        BootStep(h, s, e);
      }
    } else if IsWorkerStep(e) {
      WorkerStep(h, s, e);
    } else {
      RequestStep(h, s, e);
    }
  }

  // ---- Whole runs ----------------------------------------------------------------------------------

  /** A removal has stopped half-way, and nothing has mended it since. */
  predicate Halved(h: Hashes, s: Store, es: seq<Event>, was: bool)
    requires Possible(h, s, es)
    decreases |es|
  {
    if es == [] then was
    else
      var t := Next(h, s, es[0]);
      Halved(h, t, es[1..], if was then !Mended(s, es[0], t) else HalfRemoves(s, es[0]))
  }

  lemma {:induction false} RunShort(h: Hashes, s: Store, es: seq<Event>)
    requires Inv(h, s) && Possible(h, s, es)
    ensures Short(Run(h, s, es)) <==> Halved(h, s, es, Short(s))
    decreases |es|
  {
    hide Inv, Next, Physical, Enabled, HalfRemoves, Mended, Short, Current;
    if es != [] {
      EveryStep(h, s, es[0]);
      NextKeeps(h, s, es[0]);
      RunShort(h, Next(h, s, es[0]), es[1..]);
    }
  }

  /**
   * In every run, with the power going wherever it likes: the data file begins with exactly the bytes of
   * the chunks that the record counts, and a ready upload is exactly the bytes that passed, if and only if
   * no removal has stopped half-way since the last start.
   */
  lemma FirstBytesAreTheChunks(h: Hashes, s: Store, es: seq<Event>)
    requires Unused(s) && Possible(h, s, es) && Current(Run(h, s, es)).Some?
    ensures var t := Run(h, s, es);
            var m := Current(t).value;
            var b := Content(t.bin);
            && m.id in t.log && m.received <= |t.log[m.id]|
            && (m.received <= |b| && b[..m.received] == t.log[m.id][..m.received] <==> !Halved(h, s, es, false))
            && (m.state.Ready? ==>
                  && Passes(h, m, t.log[m.id])
                  && (t.bin == Some(t.log[m.id]) <==> !Halved(h, s, es, false)))
  {
    hide Passes, Next, Physical, Enabled, Halved, Run;
    RunKeeps(h, s, es);
    RunShort(h, s, es);
    assert Fits(h, Run(h, s, es), Current(Run(h, s, es)).value);
  }

  // ---- A removal that stops half-way ---------------------------------------------------------------

  ghost predicate Reachable(h: Hashes, t: Store) {
    exists s, es :: Unused(s) && Possible(h, s, es) && Run(h, s, es) == t
  }

  lemma {:induction false} RunOne(h: Hashes, s: Store, es: seq<Event>, e: Event)
    requires Possible(h, s, es) && Enabled(Run(h, s, es), e) && Physical(Run(h, s, es), e)
    ensures Possible(h, s, es + [e]) && Run(h, s, es + [e]) == Next(h, Run(h, s, es), e)
    decreases |es|
  {
    hide Next, Physical, Enabled;
    if es == [] {
      assert [e][1..] == [] && es + [e] == [e];
    } else {
      RunOne(h, Next(h, s, es[0]), es[1..], e);
      assert (es + [e])[1..] == es[1..] + [e];
    }
  }

  lemma Did(h: Hashes, s: Store, e: Event) returns (t: Store)
    requires Reachable(h, s) && Enabled(s, e) && Physical(s, e)
    ensures Reachable(h, t) && t == Next(h, s, e)
  {
    hide Next, Physical, Enabled, Unused;
    var s0, es :| Unused(s0) && Possible(h, s0, es) && Run(h, s0, es) == s;
    RunOne(h, s0, es, e);
    t := Next(h, s, e);
  }

  const GOOD: Io := Io(true, true, false)
  const REFUSED: Io := Io(false, false, false)

  /** An upload of which one chunk has been received. */
  lemma Received(h: Hashes, sha: seq<Byte>, size: nat, chunk: seq<Byte>) returns (s: Store)
    requires 0 < |chunk| <= CHUNK_MAX && |chunk| <= size <= MAX_BYTES
    ensures Reachable(h, s) && s.worker.Idle? && s.ram.Some? && s.ram.value.m.Some? && !Busy(s.ram.value)
    ensures var m := s.ram.value.m.value; m.id == 1 && m.received == |chunk| && s.log == map[1 := chunk]
    ensures s.bin == Some(chunk) && s.meta == Some(Record(s.ram.value.m.value))
  {
    s := NeverUsed(h);
    hide Reachable;
    s := Did(h, s, BootE(RecoverIo(true, true, true, GOOD, GOOD, DataIo(None, true, false), GOOD)));
    s := Did(h, s, CreateE(size, sha, GOOD, GOOD, true, GOOD));
    s := Did(h, s, AcceptE(1, 0, chunk));
    s := Did(h, s, CommitE(1));
    assert Content(s.bin)[..0] + chunk == chunk;
    s := Did(h, s, WriteE(DataIo(Some(chunk), true, false)));
    assert Grown(s.log, 1, s.worker.chunk) == chunk;
    s := Did(h, s, NameE(GOOD));
    s := Did(h, s, DoneE);
  }

  lemma NeverUsed(h: Hashes) returns (s: Store)
    ensures Reachable(h, s) && s == Store(None, None, None, Idle, map[], map[], 0)
  {
    s := Store(None, None, None, Idle, map[], map[], 0);
    assert Unused(s) && Possible(h, s, []) && Run(h, s, []) == s;
  }

  /**
   * The data file of an upload is unlinked and its record is not: the record, in RAM and on storage, goes
   * on counting bytes that are in no file.
   */
  lemma HalfRemovedUploadHasNoBytes(h: Hashes, sha: seq<Byte>, size: nat, chunk: seq<Byte>) returns (t: Store)
    requires 0 < |chunk| <= CHUNK_MAX && |chunk| <= size <= MAX_BYTES
    ensures Reachable(h, t) && t.bin.None? && t.ram.Some? && t.ram.value.m.Some?
    ensures t.ram.value.m.value.received == |chunk| && t.meta == Some(Record(t.ram.value.m.value))
    ensures Short(t)
  {
    var s := Received(h, sha, size, chunk);
    hide Reachable;
    t := Did(h, s, DeleteE(1, GOOD, REFUSED));
  }
}
