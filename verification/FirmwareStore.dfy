/** The store of firmware_store.c itself: its static state, changed under the lock and by the worker. */
module FirmwareStore {
  import opened Bytes
  import opened Options
  import opened EspImage
  import opened FwImage
  import opened FirmwareFiles
  import FirmwareFile
  import FwPieces
  import FwImageCheck

  const READ_BUF: nat := 4096

  function FileUpTo(file: seq<Byte>, size: nat): seq<Byte> { if |file| <= size then file else file[..size] }

  /** How the reading of the file for its check ends. */
  datatype Reading = Verdict(outcome: Outcome) | Cancelled | ReadError

  /** What one turn of the reading loop meets. */
  datatype Turn = Turn(cancelled: bool, failed: bool, upTo: nat)

  /**
   * The reading loop of fw_store_verify(): whatever the size of each read, a check that is not broken
   * off is the check of the file, as far as the upload's size goes.
   */
  method ReadAndCheck(h: Hashes, size: nat, file: seq<Byte>, turns: seq<Turn>) returns (r: Reading, done: nat)
    ensures var read := FileUpTo(file, size);
            r.Verdict? ==> r.outcome == End(h, FeedAll(h, Begin(size), read)) && done == |read|
    ensures r.Cancelled? ==> exists i | 0 <= i < |turns| :: turns[i].cancelled
    ensures r.ReadError? ==> exists i | 0 <= i < |turns| :: turns[i].failed
  {
    hide FeedAll, End, CheckOk, Begin;
    var check := new FwImageCheck.Checker(size);
    FwPieces.NothingFed(h, Begin(size), file[..0]);
    var t := 0;
    done := 0;
    while done < size
      invariant done <= size && done <= |file| && check.Valid() && fresh(check.Repr())
      invariant check.View() == FeedAll(h, Begin(size), file[..done])
      decreases size - done
    {
      var turn := if t < |turns| then turns[t] else Turn(false, false, READ_BUF);
      if turn.cancelled {
        return Cancelled, done;
      }
      if turn.failed {
        return ReadError, done;
      }
      var n := if turn.upTo == 0 || turn.upTo > READ_BUF then READ_BUF else turn.upTo;
      n := if n > size - done then size - done else n;
      n := if n > |file| - done then |file| - done else n;
      if n == 0 {
        break;
      }
      check.FeedBytes(h, file[done..done + n]);
      FeedAllConcat(h, Begin(size), file[..done], file[done..done + n]);
      assert file[..done] + file[done..done + n] == file[..done + n];
      done := done + n;
      t := t + 1;
    }
    assert |file| <= size ==> file[..done] == file;
    var o := check.Finish(h);
    r := Verdict(o);
  }

  class Store {
    const bin: FirmwareFile.File
    var meta: Option<MetaFile>

    var ready: bool
    var present: bool
    var m: Meta
    var inUse: bool
    var pending: bool
    var staging: seq<Byte>
    var pendingOffset: nat
    var verifying: bool
    var readerOpen: bool

    // Where the worker is, and what the uploads were: for the proofs only.
    ghost var worker: Worker
    ghost var log: map<nat, seq<Byte>>
    ghost var passed: map<nat, seq<Byte>>
    var lastId: nat

    ghost function View(): FirmwareFiles.Store
      reads this, bin
    {
      FirmwareFiles.Store(
        bin.saved, meta,
        if ready then Some(Ram(if present then Some(m) else None, inUse,
            if pending then Some(Chunk(pendingOffset, staging)) else None, verifying, readerOpen)) else None,
        worker, log, passed, lastId)
    }

    constructor (bin: FirmwareFile.File, meta: Option<MetaFile>)
      ensures this.bin == bin && View() == FirmwareFiles.Store(bin.saved, meta, None, Idle, map[], map[], 0)
    {
      this.bin, this.meta, ready, present, m := bin, meta, false, false, Meta(0, 1, 0, [], Receiving, None);
      inUse, pending, staging, pendingOffset, verifying, readerOpen := false, false, [], 0, false, false;
      worker, log, passed, lastId := Idle, map[], map[], 0;
    }

    predicate Matches(id: nat)
      reads this
    {
      ready && present && id == m.id
    }

    method PowerOff()
      modifies `ready, `worker
      ensures View() == Off(old(View()))
    {
      ready := false;
      worker := Idle;
    }

    method Forget()
      modifies `present, `inUse, `pending, `verifying
      ensures !present && !inUse && !pending && !verifying
    {
      present, inUse, pending, verifying := false, false, false, false;
    }

    /** write_meta() with how it ends, and the power with it. */
    method WriteMeta(next: Meta, io: Io) returns (ok: bool)
      modifies `meta, `ready, `worker
      ensures View() == FirmwareFiles.WriteMeta(old(View()), next, io)
      ensures ok == (io.ok && !io.cut)
    {
      if io.done {
        meta := Some(Record(next));
      }
      if io.cut {
        PowerOff();
      }
      ok := io.ok && !io.cut;
    }

    /** remove_files() */
    method RemoveFiles(data: Io, record: Io) returns (ok: bool)
      modifies `meta, `ready, `worker, bin`saved
      ensures View() == FirmwareFiles.RemoveFiles(old(View()), data, record)
      ensures ok == RemovedOk(data, record)
    {
      if data.done {
        bin.saved := None;
      }
      if data.cut {
        PowerOff();
        return false;
      }
      if record.done {
        meta := None;
      }
      if record.cut {
        PowerOff();
        return false;
      }
      ok := data.ok && record.ok;
    }

    /** fw_store_init(): what the files say, brought in line with each other. */
    method Init(io: RecoverIo) returns (ok: bool, seen: RecoverIo)
      modifies this, bin
      ensures View() == Recover(old(View()), seen) && ok == ready
      ensures seen == io.(truncate := seen.truncate)
      ensures Physical(old(View()), BootE(seen)) <==> Truthful(io.data) && Truthful(io.record) && Truthful(io.write)
    {
      seen := io.(truncate := DataIo(bin.saved, false, false));
      worker := Idle;
      ready, readerOpen := false, false;
      Forget();
      if !io.setup {
        return false, seen;
      }
      if meta.None? {
        if io.data.done {
          bin.saved := None;
        }
        ready := io.data.ok && !io.data.cut;
        return ready, seen;
      }
      if meta.value.Unreadable? || !io.readable {
        ready := RemoveFiles(io.data, io.record);
        return ready, seen;
      }
      if !io.stat {
        return false, seen;
      }
      var next := meta.value.m;
      var have := |Content(bin.saved)|;
      var changed := false;
      if !next.state.Receiving? && have != next.size {
        next := next.(state := Receiving, image := None);
        changed := true;
      }
      if next.state.Receiving? {
        if have > next.received {
          var done, cut := bin.TruncateTo(next.received);
          seen := io.(truncate := DataIo(bin.saved, done, cut));
          if cut || !done {
            return false, seen;
          }
        } else if have < next.received {
          next := next.(received := have);
          changed := true;
        }
      }
      if changed {
        var written := WriteMeta(next, io.write);
        if !written {
          return false, seen;
        }
      }
      m, present, ready := next, true, true;
      ok := true;
    }

    /** expire(), when the upload has been left alone for long enough. */
    method Expire(data: Io, record: Io)
      modifies this, bin`saved
      ensures View() == FirmwareFiles.Expire(old(View()), data, record)
    {
      if ready && present && !inUse && !pending && !verifying && !readerOpen {
        var ok := RemoveFiles(data, record);
        if ok {
          Forget();
        }
      }
    }

    /** fw_store_create() */
    method Create(size: nat, sha: seq<Byte>, data: Io, record: Io, room: bool, write: Io) returns (ok: bool)
      modifies this, bin`saved
      ensures View() == FirmwareFiles.Create(old(View()), size, sha, data, record, room, write)
      ensures ok ==> ready && present && m.size == size && m.sha == sha && m.received == 0 && m.state.Receiving?
                     && m.id > old(lastId)
    {
      hide FirmwareFiles.WriteMeta;
      if !ready || size == 0 || (present && (inUse || pending || verifying || readerOpen || !m.state.Failed?))
          || size > MAX_BYTES {
        return false;
      }
      var removed := RemoveFiles(data, record);
      if !removed {
        return false;
      }
      ok := FirstRecord(size, sha, room, write);
    }

    /** The record of a new upload, in the place of none. */
    method FirstRecord(size: nat, sha: seq<Byte>, room: bool, write: Io) returns (ok: bool)
      requires ready
      modifies `meta, `ready, `worker, `log, `m, `present, `lastId, `inUse, `pending, `verifying
      ensures var none := FirmwareFiles.Forget(old(View()).ram.value);
              var f := old(View()).(ram := Some(none), lastId := old(lastId) + 1);
              var next := Meta(old(lastId) + 1, size, 0, sha, Receiving, None);
              var u := FirmwareFiles.WriteMeta(f, next, write);
              var v := if write.done then u.(log := u.log[next.id := []]) else u;
              View() == if !room then f else if ok then v.(ram := Some(none.(m := Some(next)))) else v
      ensures ok == (room && write.ok && !write.cut)
      ensures ok ==> ready && present && m == Meta(old(lastId) + 1, size, 0, sha, Receiving, None)
    {
      Forget();
      lastId := lastId + 1;
      if !room {
        return false;
      }
      var next := Meta(lastId, size, 0, sha, Receiving, None);
      ok := WriteMeta(next, write);
      if write.done {
        log := log[next.id := []];
      }
      if ok {
        m, present := next, true;
      }
    }

    /** fw_store_chunk_accept() */
    method ChunkAccept(id: nat, offset: nat, data: seq<Byte>) returns (ok: bool)
      modifies `pending, `staging, `pendingOffset
      ensures View() == Accept(old(View()), id, offset, data)
      ensures ok <==> View() != old(View())
    {
      if !Matches(id) || !m.state.Receiving? || verifying || pending || offset != m.received {
        return false;
      }
      if data == [] || |data| > CHUNK_MAX || |data| > m.size - offset {
        return false;
      }
      staging, pending, pendingOffset := data, true, offset;
      ok := true;
    }

    /** fw_store_chunk_commit() under its first lock. */
    method CommitStarts(id: nat) returns (ok: bool)
      modifies `worker
      ensures View() == CommitBegin(old(View()), id)
      ensures ok ==> pending && worker == Writing(Chunk(pendingOffset, staging), m)
    {
      if !Matches(id) || !pending {
        return false;
      }
      worker := Writing(Chunk(pendingOffset, staging), m);
      ok := true;
    }

    /** Its file work, without the lock: the data, then the record that names it, or neither. */
    method CommitFiles(offset: nat, data: seq<Byte>, next: Meta, write: Io)
      returns (ok: bool, cut: bool, ghost wrote: DataIo, ghost undone: DataIo)
      requires worker == Writing(Chunk(offset, data), next) && Truthful(write)
      modifies this, bin
      ensures CanWrite(old(bin.saved), Chunk(offset, data), wrote)
      ensures wrote.ok && !wrote.cut && !write.ok && !write.cut ==> CanTruncate(wrote.left, offset, undone)
      ensures View() == CommitAll(old(View()), wrote, write, undone)
      ensures ready ==> !cut && if ok then worker.Committed? else worker.NotCommitted?
      ensures cut ==> !ready && worker.Idle?
    {
      hide CanTruncate, Grown;
      var c := Chunk(offset, data);
      undone := DataIo(None, false, false);
      ok, cut := bin.WriteChunk(c);
      wrote := DataIo(bin.saved, ok, cut);
      if cut {
        PowerOff();
        return;
      }
      if !ok {
        worker := NotCommitted;
        return;
      }
      var longer := next.(received := offset + |data|);
      worker := Naming(c, longer);
      ghost var grown := Grown(log, next.id, c);
      ok := WriteMeta(longer, write);
      if write.done {
        log := log[next.id := grown];
      }
      if write.cut {
        cut := true;
        return;
      }
      if ok {
        worker := Committed(longer);
        return;
      }
      worker := Cutting(offset);
      var shorter;
      shorter, cut := bin.TruncateTo(offset);
      undone := DataIo(bin.saved, shorter, cut);
      if cut {
        PowerOff();
      } else {
        worker := NotCommitted;
      }
    }

    /** Its second section. */
    method CommitEnds(ok: bool, next: Meta)
      requires ready ==> if ok then worker == Committed(next) else worker.NotCommitted?
      modifies `pending, `m, `present, `worker
      ensures old(present) ==> View() == CommitEnd(old(View()))
    {
      if !ready {
        return;
      }
      pending := false;
      if ok {
        m := next;
      }
      worker := Idle;
    }

    /** fw_store_verify_begin() */
    method VerifyBegins(id: nat) returns (ok: bool)
      modifies `verifying
      ensures View() == VerifyBegin(old(View()), id)
      ensures ok <==> View() != old(View())
    {
      if !Matches(id) || pending || inUse || verifying || m.state.Ready? || m.received != m.size {
        return false;
      }
      verifying := true;
      ok := true;
    }

    /** verify_abandon(): without an outcome the upload is what it was; after a cancel it is not a failed one. */
    method VerifyAbandon(cancelled: bool, io: Io)
      requires ready && present
      modifies `verifying, `worker, `meta, `ready, `m
      ensures View() == Abandon(old(View()), cancelled, io)
    {
      verifying := false;
      worker := Idle;
      if cancelled && !m.state.Receiving? {
        var next := m.(state := Receiving);
        var written := WriteMeta(next, io);
        if written {
          m := next;
        }
      }
    }

    /** fw_store_verify() */
    method Verify(h: Hashes, id: nat, openOk: bool, turns: seq<Turn>, io: Io) returns (ok: bool)
      requires worker.Idle?
      modifies `verifying, `worker, `meta, `ready, `m, `passed
      ensures var s := VerifyStart(old(View()), id);
              if s.worker.Idle? then !ok && View() == s
              else if s.bin.None? || !openOk then !ok && View() == Abandon(s, false, io)
              else
                || View() == VerifyEnd(s, h, io)
                || (!ok && View() == Abandon(s, false, io) && exists i | 0 <= i < |turns| :: turns[i].failed)
                || (!ok && View() == Abandon(s, true, io) && exists i | 0 <= i < |turns| :: turns[i].cancelled)
      ensures ok ==> io.ok && !io.cut
    {
      if !Matches(id) || !verifying {
        return false;
      }
      hide FeedAll, End, Begin, CheckOk, VerifyEnd;
      worker := Checking(m);
      if bin.saved.None? || !openOk {
        VerifyAbandon(false, io);
        return false;
      }
      var file := bin.saved.value;
      var r, done := ReadAndCheck(h, m.size, file, turns);
      if r.Cancelled? || r.ReadError? {
        VerifyAbandon(r.Cancelled?, io);
        return false;
      }
      ok := VerifyEnds(h, r.outcome, done, io);
    }

    /** fw_store_verify() after its reading. */
    method VerifyEnds(ghost h: Hashes, o: Outcome, done: nat, io: Io) returns (ok: bool)
      requires ready && present && worker == Checking(m) && bin.saved.Some?
      requires var read := FileUpTo(bin.saved.value, m.size); o == End(h, FeedAll(h, Begin(m.size), read))
                                                              && done == |read|
      modifies `verifying, `worker, `meta, `ready, `m, `passed
      ensures View() == VerifyEnd(old(View()), h, io)
      ensures ok == (io.ok && !io.cut)
    {
      hide FeedAll, End, Begin, CheckOk;
      var next := m;
      var good := o.result.Accepted?;
      if done == next.size && o.info.sha != Some(next.sha) {
        good := false;
      }
      next := next.(state := if good then Ready else UploadState.Failed, image := if good then Some(o.info) else None);
      worker := Idle;
      ok := WriteMeta(next, io);
      if io.done && good {
        passed := passed[next.id := FileUpTo(bin.saved.value, next.size)];
      }
      if !io.cut {
        verifying := false;
        if ok {
          m := next;
        }
      }
    }

    /** fw_store_delete() */
    method Remove(id: nat, data: Io, record: Io) returns (ok: bool)
      modifies this, bin`saved
      ensures View() == Delete(old(View()), id, data, record)
      ensures ok && Truthful(data) && Truthful(record) ==> bin.saved.None? && meta.None? && !present
    {
      if !Matches(id) || inUse || readerOpen || pending || verifying {
        return false;
      }
      ok := RemoveFiles(data, record);
      if ok {
        Forget();
      }
    }

    /** fw_store_set_in_use() */
    method MarkInUse(id: nat, on: bool) returns (ok: bool)
      modifies `inUse
      ensures View() == SetInUse(old(View()), id, on)
    {
      if !Matches(id) || (on && !m.state.Ready?) {
        return false;
      }
      inUse := on;
      ok := true;
    }

    /** fw_store_image_open() */
    method ImageOpen(id: nat, openOk: bool) returns (ok: bool)
      modifies `readerOpen
      ensures View() == OpenReader(old(View()), id, openOk)
      ensures ok <==> View() != old(View())
    {
      if !Matches(id) || !m.state.Ready? || verifying || readerOpen || bin.saved.None? || !openOk {
        return false;
      }
      readerOpen := true;
      ok := true;
    }

    /** fw_store_image_close() */
    method ImageClose()
      modifies `readerOpen
      ensures View() == CloseReader(old(View()))
    {
      if readerOpen {
        readerOpen := false;
      }
    }
  }

  /** The file work of a commit, to where it ends. */
  function CommitAll(s: FirmwareFiles.Store, wrote: DataIo, write: Io, undone: DataIo): FirmwareFiles.Store
    requires s.worker.Writing?
  {
    var t := CommitWrite(s, wrote);
    if !t.worker.Naming? then t
    else
      var u := CommitName(t, write);
      if !u.worker.Cutting? then u else CommitCut(u, undone)
  }
}
