/** What holds of the staged image in every run, whenever the power goes. */
module FirmwareSafety {
  import opened Bytes
  import opened Options
  import opened EspImage
  import opened FwImage
  import opened FirmwareFiles
  import FwGrammar
  import FwPieces

  // ---- What is kept --------------------------------------------------------------------------------

  /** The bytes that passed: all of the upload's, with its digest, and what the record says they are. */
  ghost predicate Passes(h: Hashes, m: Meta, b: seq<Byte>) {
    var o := End(h, FeedAll(h, Begin(m.size), b));
    |b| == m.size && o.result.Accepted? && o.info.sha == Some(m.sha) && m.image == Some(o.info)
  }

  /** As far as the file goes, it begins with the first n bytes of `chunks`. */
  predicate Agrees(bin: Option<seq<Byte>>, chunks: seq<Byte>, n: nat)
    requires n <= |chunks|
  {
    var b := Content(bin);
    if |b| <= n then b == chunks[..|b|] else b[..n] == chunks[..n]
  }

  /** A record that was written, or is in RAM, and the data file. */
  ghost predicate Fits(h: Hashes, s: Store, m: Meta) {
    && m.id <= s.lastId && 0 < m.size && m.received <= m.size
    && m.id in s.log && m.received <= |s.log[m.id]| <= m.size
    && Agrees(s.bin, s.log[m.id], m.received)
    && (m.received == m.size ==> |Content(s.bin)| <= m.size)
    && (!m.state.Receiving? ==> m.received == m.size)
    && (m.state.Ready? ==>
          && m.id in s.passed && s.passed[m.id] == s.log[m.id] && Passes(h, m, s.passed[m.id])
          && (s.bin.None? || s.bin == Some(s.passed[m.id])))
  }

  predicate SameOrGone(f: Option<MetaFile>, m: Meta) { f.None? || f == Some(Record(m)) }

  predicate PendingFits(r: Ram, m: Meta) {
    r.pending.Some? ==>
      && m.state.Receiving? && !r.verifying
      && r.pending.value.offset == m.received && r.pending.value.data != []
      && m.received + |r.pending.value.data| <= m.size
  }

  /** What the worker will write next about the chunk it has. */
  function Longer(m: Meta, c: Chunk): Meta { m.(received := c.offset + |c.data|) }

  ghost predicate WorkerFits(h: Hashes, s: Store, r: Ram, m: Meta) {
    match s.worker
    case Idle => SameOrGone(s.meta, m)
    case Writing(c, next) => SameOrGone(s.meta, m) && r.pending == Some(c) && next == m
    case Naming(c, next) =>
      && SameOrGone(s.meta, m) && r.pending == Some(c) && next == Longer(m, c)
      && m.id in s.log && c.offset <= |s.log[m.id]| && s.bin == Some(s.log[m.id][..c.offset] + c.data)
    case Cutting(offset) => SameOrGone(s.meta, m) && r.pending.Some? && offset == r.pending.value.offset
    case NotCommitted => SameOrGone(s.meta, m) && r.pending.Some?
    case Committed(next) =>
      && r.pending.Some? && next == Longer(m, r.pending.value) && s.meta == Some(Record(next)) && Fits(h, s, next)
      && next.received <= |Content(s.bin)|
    case Checking(next) => SameOrGone(s.meta, m) && r.verifying && next == m
  }

  ghost predicate RamFits(h: Hashes, s: Store, r: Ram) {
    match r.m
    case None => r == EMPTY && s.bin.None? && s.meta.None? && s.worker.Idle?
    case Some(m) =>
      && Fits(h, s, m) && PendingFits(r, m) && WorkerFits(h, s, r, m)
      && (r.inUse || r.readerOpen ==> m.state.Ready?)
      && (r.readerOpen ==> s.bin.Some?)
      && (r.verifying ==> m.received == m.size && !m.state.Ready?)
  }

  ghost predicate Inv(h: Hashes, s: Store) {
    match s.ram
    case None => s.worker.Idle? && (s.meta.Some? && s.meta.value.Record? ==> Fits(h, s, s.meta.value.m))
    case Some(r) => RamFits(h, s, r)
  }

  // ---- Every step keeps it -------------------------------------------------------------------------

  lemma OffKeeps(h: Hashes, s: Store)
    requires Inv(h, s)
    ensures Inv(h, Off(s))
  {
    hide Agrees, Passes;
  }

  lemma RemoveKeeps(h: Hashes, s: Store, data: Io, record: Io)
    requires Inv(h, s) && Truthful(data) && Truthful(record) && s.worker.Idle?
    requires s.ram.Some? ==> !Busy(s.ram.value)
    ensures Inv(h, RemoveFiles(s, data, record))
    ensures RemovedOk(data, record) ==>
              RemoveFiles(s, data, record).meta.None? && RemoveFiles(s, data, record).bin.None?
    ensures RemovedOk(data, record) ==> RemoveFiles(s, data, record).ram == s.ram
  {
    hide Passes;
  }

  lemma BootKeeps(h: Hashes, s: Store, io: RecoverIo)
    requires Inv(h, s) && Physical(s, BootE(io))
    ensures Inv(h, Recover(s, io))
    ensures var t := Recover(s, io);
            t.ram.Some? && t.ram.value.m.Some? && t.ram.value.m.value.state.Ready? ==> t.bin.Some?
  {
    hide Passes;
    OffKeeps(h, s);
    if io.setup && (s.meta.Some? && (s.meta.value.Unreadable? || !io.readable)) {
      RemoveKeeps(h, Off(s), io.data, io.record);
    }
  }

  lemma CreateKeeps(h: Hashes, s: Store, size: nat, sha: seq<Byte>, data: Io, record: Io, room: bool, write: Io)
    requires Inv(h, s) && Truthful(data) && Truthful(record) && Truthful(write)
    ensures Inv(h, Create(s, size, sha, data, record, room, write))
  {
    hide Passes;
    if s.ram.Some? && !(size == 0 || (s.ram.value.m.Some?
        && (Busy(s.ram.value) || !s.ram.value.m.value.state.Failed?)) || size > MAX_BYTES) {
      RemoveKeeps(h, s, data, record);
    }
  }

  lemma RemovalKeeps(h: Hashes, s: Store, id: nat, data: Io, record: Io)
    requires Inv(h, s) && Truthful(data) && Truthful(record)
    ensures Inv(h, Expire(s, data, record))
    ensures s.worker.Idle? ==> Inv(h, Delete(s, id, data, record))
  {
    hide Passes, Agrees;
    if s.ram.Some? && s.ram.value.m.Some? && !Busy(s.ram.value) {
      RemoveKeeps(h, s, data, record);
    }
  }

  lemma RequestKeeps(h: Hashes, s: Store, e: Event)
    requires Inv(h, s) && Enabled(s, e)
    requires e.AcceptE? || e.VerifyBeginE? || e.SetInUseE? || e.OpenE? || e.CloseE? || e.CommitE? || e.VerifyE?
    ensures Inv(h, Next(h, s, e))
  {
    hide Passes, Agrees;
  }

  lemma WriteKeeps(h: Hashes, s: Store, io: DataIo)
    requires Inv(h, s) && s.worker.Writing? && CanWrite(s.bin, s.worker.chunk, io)
    ensures Inv(h, CommitWrite(s, io))
  {
    hide Passes;
  }

  lemma NameKeeps(h: Hashes, s: Store, io: Io)
    requires Inv(h, s) && s.worker.Naming? && Truthful(io)
    ensures Inv(h, CommitName(s, io))
  {
    hide Passes;
  }

  lemma CutKeeps(h: Hashes, s: Store, io: DataIo)
    requires Inv(h, s) && s.worker.Cutting? && CanTruncate(s.bin, s.worker.offset, io)
    ensures Inv(h, CommitCut(s, io))
  {
    hide Passes;
  }

  lemma DoneKeeps(h: Hashes, s: Store)
    requires Inv(h, s) && (s.worker.Committed? || s.worker.NotCommitted?)
    ensures Inv(h, CommitEnd(s))
  {
    hide Passes, Agrees;
  }

  lemma AbandonKeeps(h: Hashes, s: Store, cancelled: bool, io: Io)
    requires Inv(h, s) && s.worker.Checking? && s.ram.Some? && s.ram.value.m.Some? && Truthful(io)
    ensures Inv(h, Abandon(s, cancelled, io))
  {
    hide Passes, Agrees;
  }

  /** The bytes that were read are the whole file, and pass if the record calls them ready. */
  lemma CheckedPasses(h: Hashes, m: Meta, b: seq<Byte>)
    requires |b| <= m.size
    ensures Checked(h, m, b).state.Ready? ==> |b| == m.size && Passes(h, Checked(h, m, b), b)
    ensures var c := Checked(h, m, b); c.id == m.id && c.size == m.size && c.received == m.received
                                       && c.sha == m.sha && !c.state.Receiving?
  {
    hide End, FeedAll;
    if |b| < m.size {
      FwGrammar.ShortIsInvalid(h, m.size, b);
    }
  }

  lemma CheckedKeeps(h: Hashes, s: Store, io: Io)
    requires Inv(h, s) && s.worker.Checking? && s.ram.Some? && s.bin.Some? && Truthful(io)
    ensures Inv(h, VerifyEnd(s, h, io))
  {
    hide Passes, Checked;
    var b := Content(s.bin);
    assert |b| <= s.worker.next.size;
    CheckedPasses(h, s.worker.next, b);
    var chunks := s.log[s.worker.next.id];
    assert b == chunks[..|b|] && chunks[..|chunks|] == chunks;
  }

  lemma NextKeeps(h: Hashes, s: Store, e: Event)
    requires Inv(h, s) && Enabled(s, e) && Physical(s, e)
    ensures Inv(h, Next(h, s, e))
  {
    hide Inv, Recover, Create, Expire, Delete, CommitWrite, CommitName, CommitCut, CommitEnd, Abandon, VerifyEnd,
        CanWrite, CanTruncate;
    match e
    case PowerCut => OffKeeps(h, s);
    case BootE(io) => BootKeeps(h, s, io);
    case ExpireE(data, record) => RemovalKeeps(h, s, 0, data, record);
    case CreateE(size, sha, data, record, room, write) => CreateKeeps(h, s, size, sha, data, record, room, write);
    case DeleteE(id, data, record) => RemovalKeeps(h, s, id, data, record);
    case WriteE(io) => WriteKeeps(h, s, io);
    case NameE(io) => NameKeeps(h, s, io);
    case CutE(io) => CutKeeps(h, s, io);
    case DoneE => DoneKeeps(h, s);
    case AbandonE(cancelled, io) => AbandonKeeps(h, s, cancelled, io);
    case CheckedE(io) => CheckedKeeps(h, s, io);
    case _ => RequestKeeps(h, s, e);
  }

  // ---- Whole runs ----------------------------------------------------------------------------------

  /** A run that keeps to the worker's order and to what a file system may do. */
  predicate Possible(h: Hashes, s: Store, es: seq<Event>)
    decreases |es|
  {
    es != [] ==> Enabled(s, es[0]) && Physical(s, es[0]) && Possible(h, Next(h, s, es[0]), es[1..])
  }

  function Run(h: Hashes, s: Store, es: seq<Event>): Store
    requires Possible(h, s, es)
    decreases |es|
  {
    if es == [] then s else Run(h, Next(h, s, es[0]), es[1..])
  }

  lemma {:induction false} RunKeeps(h: Hashes, s: Store, es: seq<Event>)
    requires Inv(h, s) && Possible(h, s, es)
    ensures Inv(h, Run(h, s, es))
    decreases |es|
  {
    hide Inv, Next, Physical, Enabled;
    if es != [] {
      NextKeeps(h, s, es[0]);
      RunKeeps(h, Next(h, s, es[0]), es[1..]);
    }
  }

  /** A device that was never used: anything may be in its directory but a record that is valid. */
  predicate Unused(s: Store) {
    s.ram.None? && s.worker.Idle? && (s.meta.None? || s.meta.value.Unreadable?)
  }

  /** The record that is in RAM, or on storage. */
  predicate Known(s: Store, m: Meta) {
    (s.ram.Some? && s.ram.value.m == Some(m)) || s.meta == Some(Record(m))
  }

  /**
   * Wherever the power went: as far as the data file goes, the bytes a record counts as received are
   * the chunks of this upload in their order, and a record calls itself ready only of bytes that passed.
   * FirmwareBytes says exactly when the file goes as far as the record.
   */
  lemma EveryRunKeepsItsBytes(h: Hashes, s: Store, es: seq<Event>, m: Meta)
    requires Unused(s) && Possible(h, s, es) && Known(Run(h, s, es), m)
    ensures var t := Run(h, s, es);
            && m.id in t.log && m.received <= |t.log[m.id]|
            && (forall i | 0 <= i < m.received && i < |Content(t.bin)| :: Content(t.bin)[i] == t.log[m.id][i])
            && (m.state.Ready? ==> m.received == m.size
                                   && (t.bin.None? || (t.bin == Some(t.log[m.id]) && Passes(h, m, t.log[m.id]))))
  {
    hide Passes, Next, Physical, Enabled;
    RunKeeps(h, s, es);
    var t := Run(h, s, es);
    assert Fits(h, t, m);
    var b := Content(t.bin);
    forall i | 0 <= i < m.received && i < |b|
      ensures b[i] == t.log[m.id][i]
    {
      if |b| > m.received {
        assert b[..m.received][i] == t.log[m.id][..m.received][i];
      }
    }
  }

  /** After a start that succeeded, a ready upload is there, whole, and is a flash image with its digest. */
  lemma ReadyAfterStart(h: Hashes, s: Store, io: RecoverIo)
    requires Inv(h, s) && Physical(s, BootE(io))
    ensures var t := Recover(s, io);
            t.ram.Some? && t.ram.value.m.Some? && t.ram.value.m.value.state.Ready? ==>
              && t.bin == Some(t.log[t.ram.value.m.value.id])
              && IsThatImage(h, t.ram.value.m.value, t.bin.value)
  {
    hide Passes, Recover;
    BootKeeps(h, s, io);
    var t := Recover(s, io);
    if t.ram.Some? && t.ram.value.m.Some? && t.ram.value.m.value.state.Ready? {
      PassedIsImage(h, t.ram.value.m.value, t.bin.value);
    }
  }

  /** A flash image of the layout this firmware knows. */
  ghost predicate KnownImage(h: Hashes, b: seq<Byte>, e: nat, n: nat) {
    FwGrammar.FlashImage(h, b, e, n) && n <= PART_MAX_ENTRIES && MatchesLayout(b[TABLE_OFFSET..TABLE_END], n)
  }

  /** The one that was declared, by its size and digest. */
  ghost predicate IsThatImage(h: Hashes, m: Meta, b: seq<Byte>) {
    |b| == m.size && h.sha(b) == m.sha && exists e, n :: KnownImage(h, b, e, n)
  }

  /** The check says that a file of the right length is good exactly of the image that was declared. */
  lemma CheckedExactly(h: Hashes, m: Meta, b: seq<Byte>)
    requires |b| == m.size
    ensures Checked(h, m, b).state.Ready? <==> IsThatImage(h, m, b)
  {
    hide FeedAll, FwGrammar.FlashImage, CheckOk, MatchesLayout;
    FwGrammar.AcceptsExactlyImages(h, b);
    FwPieces.FedLength(h, Begin(m.size), b);
    assert Begin(|b|).fed + b == b;
    forall e: nat, n: nat | FwGrammar.FlashImage(h, b, e, n)
      ensures n <= PART_MAX_ENTRIES
      ensures End(h, FeedAll(h, Begin(|b|), b)).result.Accepted? <==> KnownImage(h, b, e, n)
    {
      FwGrammar.FlashImageParts(h, b, e, n);
      FwGrammar.SaysWhatItIs(h, b, e, n);
    }
  }

  lemma PassedIsImage(h: Hashes, m: Meta, b: seq<Byte>)
    requires Passes(h, m, b)
    ensures IsThatImage(h, m, b)
  {
    hide End, FeedAll, IsThatImage;
    CheckedExactly(h, m, b);
  }

  /** The check of an upload ends with a ready one exactly if its file is the declared image. */
  lemma VerdictIsExact(h: Hashes, s: Store, io: Io)
    requires Inv(h, s) && s.worker.Checking? && s.ram.Some? && s.bin.Some? && io == Io(true, true, false)
    ensures var t := VerifyEnd(s, h, io);
            && t.ram.Some? && t.ram.value.m.Some? && !t.ram.value.verifying
            && (t.ram.value.m.value.state.Ready? <==> IsThatImage(h, s.worker.next, s.bin.value))
  {
    hide Passes, Checked, KnownImage;
    var b := s.bin.value;
    CheckedPasses(h, s.worker.next, b);
    if |b| == s.worker.next.size {
      CheckedExactly(h, s.worker.next, b);
    }
  }

  /** While the image is open for reading, the file is the one that passed. */
  lemma ReaderReadsWhatPassed(h: Hashes, s: Store)
    requires Inv(h, s) && s.ram.Some? && s.ram.value.readerOpen
    ensures s.ram.value.m.Some?
    ensures var m := s.ram.value.m.value; m.id in s.log && s.bin == Some(s.log[m.id]) && IsThatImage(h, m, s.bin.value)
  {
    PassedIsImage(h, s.ram.value.m.value, s.bin.value);
  }

  predicate IsWorkerStep(e: Event) { e.WriteE? || e.NameE? || e.CutE? || e.DoneE? || e.AbandonE? || e.CheckedE? }

  /** Whatever is asked for, an upload that is in use, being written, checked or read stays as it is. */
  lemma BusyIsLeftAlone(h: Hashes, s: Store, e: Event)
    requires Inv(h, s) && Enabled(s, e) && s.ram.Some? && Busy(s.ram.value)
    requires !e.PowerCut? && !e.BootE? && !IsWorkerStep(e)
    ensures var t := Next(h, s, e);
            && t.bin == s.bin && t.meta == s.meta && t.ram.Some? && t.ram.value.m == s.ram.value.m
            && (!s.worker.Idle? ==> t.worker == s.worker && t.ram.value.pending == s.ram.value.pending)
  {
    hide Passes, Agrees;
  }

  /** The chunks of an upload grow only by one that was accepted where they end, once its record is written. */
  lemma OnlyNamedChunksCount(h: Hashes, s: Store, e: Event, id: nat)
    requires Inv(h, s) && Enabled(s, e) && Physical(s, e)
    requires id in Next(h, s, e).log && (id !in s.log || Next(h, s, e).log[id] != s.log[id])
    ensures var t := Next(h, s, e);
            || (id > s.lastId && t.log[id] == [] && t.bin.None?)
            || (&& e.NameE? && s.ram.Some? && s.ram.value.m.Some? && s.ram.value.pending.Some?
                && id == s.ram.value.m.value.id
                && var m, c := s.ram.value.m.value, s.ram.value.pending.value;
                   && id in s.log && m.received <= |s.log[id]| && t.log[id] == s.log[id][..m.received] + c.data
                   && t.meta == Some(Record(Longer(m, c))) && t.bin == Some(t.log[id]))
  {
    hide Passes, Agrees, Checked;
    if !e.NameE? && !e.CreateE? {
      LogStays(h, s, e);
    }
  }

  lemma LogStays(h: Hashes, s: Store, e: Event)
    requires Enabled(s, e) && !e.NameE? && !e.CreateE?
    ensures Next(h, s, e).log == s.log
  {
  }

  // ---- Progress that is durable --------------------------------------------------------------------

  /** The record is on storage and the file has all it counts. */
  predicate Whole(s: Store) {
    s.meta.Some? && s.meta.value.Record? && s.meta.value.m.received <= |Content(s.bin)|
  }

  /** The step gets as far as removing files. */
  predicate Removes(s: Store, e: Event) {
    || ((e.ExpireE? || e.DeleteE?) && s.ram.Some? && !Busy(s.ram.value))
    || (e.CreateE? && s.ram.Some? && (s.ram.value.m.Some? ==> !Busy(s.ram.value) && s.ram.value.m.value.state.Failed?))
    || (e.BootE? && !e.io.readable)
  }

  /** Nothing but a removal loses a chunk whose record was written: not a failure, not the power. */
  lemma ChunksAreDurable(h: Hashes, s: Store, e: Event)
    requires Inv(h, s) && Enabled(s, e) && Physical(s, e) && Whole(s) && !Removes(s, e)
    ensures var t := Next(h, s, e);
            && Whole(t) && t.meta.value.m.id == s.meta.value.m.id && t.meta.value.m.sha == s.meta.value.m.sha
            && s.meta.value.m.received <= t.meta.value.m.received
  {
    hide Inv, Physical, Removes, Next;
    if e.BootE? {
      DurableBoot(h, s, e);
    } else if IsWorkerStep(e) {
      DurableWork(h, s, e);
    } else {
      DurableRequest(h, s, e);
    }
  }

  predicate KeepsChunks(s: Store, t: Store) {
    && Whole(s) && Whole(t) && t.meta.value.m.id == s.meta.value.m.id && t.meta.value.m.sha == s.meta.value.m.sha
    && s.meta.value.m.received <= t.meta.value.m.received
  }

  lemma DurableBoot(h: Hashes, s: Store, e: Event)
    requires Inv(h, s) && Enabled(s, e) && Physical(s, e) && Whole(s) && !Removes(s, e) && e.BootE?
    ensures KeepsChunks(s, Next(h, s, e))
  {
    hide Passes, Agrees;
  }

  lemma DurableWork(h: Hashes, s: Store, e: Event)
    requires Inv(h, s) && Enabled(s, e) && Physical(s, e) && Whole(s) && IsWorkerStep(e)
    ensures KeepsChunks(s, Next(h, s, e))
  {
    hide Passes, Checked;
    if e.CheckedE? {
      CheckedPasses(h, s.worker.next, Content(s.bin));
    }
  }

  lemma DurableRequest(h: Hashes, s: Store, e: Event)
    requires Inv(h, s) && Enabled(s, e) && Whole(s) && !Removes(s, e) && !e.BootE? && !IsWorkerStep(e)
    ensures KeepsChunks(s, Next(h, s, e))
  {
    hide Passes, Agrees;
  }

  /** A run in which nothing is removed. */
  predicate Sparing(h: Hashes, s: Store, es: seq<Event>)
    requires Possible(h, s, es)
    decreases |es|
  {
    es != [] ==> !Removes(s, es[0]) && Sparing(h, Next(h, s, es[0]), es[1..])
  }

  lemma {:induction false} RunIsDurable(h: Hashes, s: Store, es: seq<Event>)
    requires Inv(h, s) && Possible(h, s, es) && Sparing(h, s, es) && Whole(s)
    ensures var t := Run(h, s, es);
            && Whole(t) && t.meta.value.m.id == s.meta.value.m.id
            && s.meta.value.m.received <= t.meta.value.m.received
    decreases |es|
  {
    hide Inv, Next, Physical, Enabled, Removes;
    if es != [] {
      NextKeeps(h, s, es[0]);
      ChunksAreDurable(h, s, es[0]);
      RunIsDurable(h, Next(h, s, es[0]), es[1..]);
    }
  }
}
