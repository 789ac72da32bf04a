/**
 * The staged image as two files (firmware_store.c): what is on storage, what is in RAM, and what
 * every call does to both when any file operation may fail or be the last before the power goes.
 */
module FirmwareFiles {
  import opened Bytes
  import opened Options
  import opened EspImage
  import opened FwImage

  const CHUNK_MAX: nat := 16384

  datatype UploadState = Receiving | Ready | Failed

  /** The metadata record, as far as it matters here; ids are never used twice. */
  datatype Meta = Meta(id: nat, size: nat, received: nat, sha: seq<Byte>, state: UploadState, image: Option<Info>)

  /** upload.meta: a record that passes meta_valid(), or anything else. */
  datatype MetaFile = Record(m: Meta) | Unreadable

  datatype Chunk = Chunk(offset: nat, data: seq<Byte>)

  datatype Ram = Ram(m: Option<Meta>, inUse: bool, pending: Option<Chunk>, verifying: bool, readerOpen: bool)

  /** Where the one worker is inside a call that does its file I/O without the lock. */
  datatype Worker =
    | Idle
    | Writing(chunk: Chunk, next: Meta)
    | Naming(chunk: Chunk, next: Meta)
    | Cutting(offset: nat)
    | Committed(next: Meta)
    | NotCommitted
    | Checking(next: Meta)

  /**
   * `log` is, for every upload, the bytes of the chunks its metadata has named; `passed` those
   * whose check succeeded.
   */
  datatype Store = Store(
    bin: Option<seq<Byte>>, meta: Option<MetaFile>, ram: Option<Ram>, worker: Worker,
    log: map<nat, seq<Byte>>, passed: map<nat, seq<Byte>>, lastId: nat)

  // ---- File operations ---------------------------------------------------------------------------

  /** How an operation that is there or not ends: done, reported, or cut by the power. */
  datatype Io = Io(done: bool, ok: bool, cut: bool)

  /** What is reported is what happened. */
  predicate Truthful(io: Io) { !io.cut ==> io.done == io.ok }

  /** How an operation on the data file ends, and what it leaves there. */
  datatype DataIo = DataIo(left: Option<seq<Byte>>, ok: bool, cut: bool)

  function Content(f: Option<seq<Byte>>): seq<Byte> { if f.Some? then f.value else [] }

  /** write_chunk(): what is in front of the chunk is never touched, and success is exact. */
  predicate CanWrite(before: Option<seq<Byte>>, c: Chunk, io: DataIo) {
    var b := Content(before);
    if |b| < c.offset then
      && (io.left == before || (before.None? && io.left == Some([])))
      && (!io.cut ==> !io.ok)
    else
      && (io.left == before || (io.left.Some? && c.offset <= |io.left.value|
           && io.left.value[..c.offset] == b[..c.offset]))
      && (io.ok && !io.cut ==> io.left == Some(b[..c.offset] + c.data))
  }

  /** truncate_file() */
  predicate CanTruncate(before: Option<seq<Byte>>, n: nat, io: DataIo) {
    && (io.left == before || (before.Some? && n <= |before.value| && io.left == Some(before.value[..n])))
    && (io.ok && !io.cut ==> before.Some? && n <= |before.value| && io.left == Some(before.value[..n]))
  }

  /** The power goes: nothing but the files is left. */
  function Off(s: Store): Store { s.(ram := None, worker := Idle) }

  /** write_meta(): the new record, or still the old one. */
  function WriteMeta(s: Store, m: Meta, io: Io): Store {
    var t := if io.done then s.(meta := Some(Record(m))) else s;
    if io.cut then Off(t) else t
  }

  /** remove_files(): the data first. */
  function RemoveFiles(s: Store, data: Io, record: Io): Store {
    var t := if data.done then s.(bin := None) else s;
    if data.cut then Off(t)
    else
      var u := if record.done then t.(meta := None) else t;
      if record.cut then Off(u) else u
  }

  predicate RemovedOk(data: Io, record: Io) { data.ok && record.ok && !data.cut && !record.cut }

  // ---- Recovery ----------------------------------------------------------------------------------

  /** The directory is there and cleared of strays, the record can be read, the file can be measured. */
  datatype RecoverIo = RecoverIo(setup: bool, readable: bool, stat: bool, data: Io, record: Io, truncate: DataIo,
      write: Io)

  /** What recovery makes of a record and a data file of so many bytes. */
  function Repaired(m: Meta, have: nat): Meta {
    var a := if !m.state.Receiving? && have != m.size then m.(state := Receiving, image := None) else m;
    if a.state.Receiving? && have < a.received then a.(received := have) else a
  }

  const EMPTY: Ram := Ram(None, false, None, false, false)

  /** recover(), from fw_store_init(); without success there is no store. */
  function Recover(s0: Store, io: RecoverIo): Store {
    var s := Off(s0);
    if !io.setup then s
    else if s.meta.None? then
      var t := if io.data.done then s.(bin := None) else s;
      if io.data.cut || !io.data.ok then t else t.(ram := Some(EMPTY))
    else if s.meta.value.Unreadable? || !io.readable then
      var t := RemoveFiles(s, io.data, io.record);
      if RemovedOk(io.data, io.record) then t.(ram := Some(EMPTY)) else t
    else if !io.stat then s
    else
      var m := s.meta.value.m;
      var have := |Content(s.bin)|;
      var r := Repaired(m, have);
      var longer := r.state.Receiving? && have > r.received;
      var t := if longer then s.(bin := io.truncate.left) else s;
      if longer && (io.truncate.cut || !io.truncate.ok) then t
      else if r == m then t.(ram := Some(EMPTY.(m := Some(m))))
      else
        var u := WriteMeta(t, r, io.write);
        if io.write.cut || !io.write.ok then u else u.(ram := Some(EMPTY.(m := Some(r))))
  }

  // ---- Requests ------------------------------------------------------------------------------------

  predicate Busy(r: Ram) { r.inUse || r.pending.Some? || r.verifying || r.readerOpen }

  /** forget() keeps the reader's flag. */
  function Forget(r: Ram): Ram { Ram(None, false, None, false, r.readerOpen) }

  /** expire(), when the time has come. */
  function Expire(s: Store, data: Io, record: Io): Store {
    if s.ram.None? || s.ram.value.m.None? || Busy(s.ram.value) then s
    else
      var t := RemoveFiles(s, data, record);
      if RemovedOk(data, record) then t.(ram := Some(Forget(s.ram.value))) else t
  }

  /** fw_store_create(); `room` is the free-space check. */
  function Create(s: Store, size: nat, sha: seq<Byte>, data: Io, record: Io, room: bool, write: Io): Store {
    if s.ram.None? then s
    else
      var r := s.ram.value;
      if size == 0 || (r.m.Some? && (Busy(r) || !r.m.value.state.Failed?)) || size > MAX_BYTES then s
      else
        var t := RemoveFiles(s, data, record);
        if !RemovedOk(data, record) then t
        else
          var f := t.(ram := Some(Forget(r)), lastId := s.lastId + 1);
          var m := Meta(s.lastId + 1, size, 0, sha, Receiving, None);
          if !room then f
          else
            var u := WriteMeta(f, m, write);
            var v := if write.done then u.(log := u.log[m.id := []]) else u;
            if write.cut || !write.ok then v else v.(ram := Some(Forget(r).(m := Some(m))))
  }

  /** fw_store_chunk_accept() */
  function Accept(s: Store, id: nat, offset: nat, data: seq<Byte>): Store {
    if s.ram.None? || s.ram.value.m.None? || s.ram.value.m.value.id != id then s
    else
      var r := s.ram.value;
      var m := r.m.value;
      if !m.state.Receiving? || r.verifying || r.pending.Some? || offset != m.received
         || data == [] || |data| > CHUNK_MAX || |data| > m.size - offset then s
      else s.(ram := Some(r.(pending := Some(Chunk(offset, data)))))
  }

  /** fw_store_verify_begin() */
  function VerifyBegin(s: Store, id: nat): Store {
    if s.ram.None? || s.ram.value.m.None? || s.ram.value.m.value.id != id then s
    else
      var r := s.ram.value;
      if r.pending.Some? || r.inUse || r.verifying || r.m.value.state.Ready?
          || r.m.value.received != r.m.value.size then s
      else s.(ram := Some(r.(verifying := true)))
  }

  /** fw_store_set_in_use() */
  function SetInUse(s: Store, id: nat, on: bool): Store {
    if s.ram.None? || s.ram.value.m.None? || s.ram.value.m.value.id != id then s
    else if on && !s.ram.value.m.value.state.Ready? then s
    else s.(ram := Some(s.ram.value.(inUse := on)))
  }

  // ---- The worker ----------------------------------------------------------------------------------

  /** fw_store_delete() */
  function Delete(s: Store, id: nat, data: Io, record: Io): Store {
    if s.ram.None? || s.ram.value.m.None? || s.ram.value.m.value.id != id || Busy(s.ram.value) then s
    else
      var t := RemoveFiles(s, data, record);
      if RemovedOk(data, record) then t.(ram := Some(Forget(s.ram.value))) else t
  }

  /** fw_store_image_open() and _close() */
  function OpenReader(s: Store, id: nat, ok: bool): Store {
    if s.ram.None? || s.ram.value.m.None? || s.ram.value.m.value.id != id then s
    else if !s.ram.value.m.value.state.Ready? || s.ram.value.verifying || s.ram.value.readerOpen then s
    else if s.bin.None? || !ok then s
    else s.(ram := Some(s.ram.value.(readerOpen := true)))
  }

  function CloseReader(s: Store): Store {
    if s.ram.None? then s else s.(ram := Some(s.ram.value.(readerOpen := false)))
  }

  /** The first section of fw_store_chunk_commit(). */
  function CommitBegin(s: Store, id: nat): Store {
    if s.ram.None? || s.ram.value.m.None? || s.ram.value.m.value.id != id || s.ram.value.pending.None? then s
    else s.(worker := Writing(s.ram.value.pending.value, s.ram.value.m.value))
  }

  function CommitWrite(s: Store, io: DataIo): Store
    requires s.worker.Writing?
  {
    var c := s.worker.chunk;
    var t := s.(bin := io.left);
    if io.cut then Off(t)
    else if io.ok then t.(worker := Naming(c, s.worker.next.(received := c.offset + |c.data|)))
    else t.(worker := NotCommitted)
  }

  /** The chunks of an upload with one more, which starts where its offset says. */
  function Grown(log: map<nat, seq<Byte>>, id: nat, c: Chunk): seq<Byte> {
    var had := if id in log then log[id] else [];
    (if c.offset <= |had| then had[..c.offset] else had) + c.data
  }

  /** The metadata that names the new length. */
  function CommitName(s: Store, io: Io): Store
    requires s.worker.Naming?
  {
    var m := s.worker.next;
    var t := WriteMeta(s, m, io);
    var u := if io.done then t.(log := t.log[m.id := Grown(s.log, m.id, s.worker.chunk)]) else t;
    if io.cut then u else if io.ok then u.(worker := Committed(m)) else u.(worker := Cutting(s.worker.chunk.offset))
  }

  function CommitCut(s: Store, io: DataIo): Store
    requires s.worker.Cutting?
  {
    var t := s.(bin := io.left);
    if io.cut then Off(t) else t.(worker := NotCommitted)
  }

  /** The second section. */
  function CommitEnd(s: Store): Store {
    if s.ram.None? then s
    else
      var r := s.ram.value.(pending := None);
      s.(worker := Idle, ram := Some(if s.worker.Committed? then r.(m := Some(s.worker.next)) else r))
  }

  /** fw_store_verify() up to its file I/O. */
  function VerifyStart(s: Store, id: nat): Store {
    if s.ram.None? || s.ram.value.m.None? || s.ram.value.m.value.id != id || !s.ram.value.verifying then s
    else s.(worker := Checking(s.ram.value.m.value))
  }

  /** verify_abandon() */
  function Abandon(s: Store, cancelled: bool, io: Io): Store
    requires s.ram.Some? && s.ram.value.m.Some?
  {
    var r := s.ram.value.(verifying := false);
    var t := s.(worker := Idle, ram := Some(r));
    if !cancelled || r.m.value.state.Receiving? then t
    else
      var m := r.m.value.(state := Receiving);
      var u := WriteMeta(t, m, io);
      if io.cut || !io.ok then u else u.(ram := Some(r.(m := Some(m))))
  }

  /** The check of the bytes that were read, at most as many as the upload has. */
  function Checked(h: Hashes, next: Meta, read: seq<Byte>): Meta {
    var o := End(h, FeedAll(h, Begin(next.size), read));
    var good := o.result.Accepted? && (|read| == next.size ==> o.info.sha == Some(next.sha));
    next.(state := if good then Ready else UploadState.Failed, image := if good then Some(o.info) else None)
  }

  /** fw_store_verify() from the end of its reading on; the reading comes short only where the file does. */
  function VerifyEnd(s: Store, h: Hashes, io: Io): Store
    requires s.worker.Checking? && s.ram.Some?
  {
    var next := s.worker.next;
    var b := Content(s.bin);
    var read := if |b| <= next.size then b else b[..next.size];
    var m := Checked(h, next, read);
    var t := WriteMeta(s.(worker := Idle), m, io);
    var u := if io.done && m.state.Ready? then t.(passed := t.passed[m.id := read]) else t;
    if io.cut then u
    else u.(ram := Some(s.ram.value.(verifying := false, m := if io.ok then Some(m) else s.ram.value.m)))
  }

  // ---- Runs ----------------------------------------------------------------------------------------

  datatype Event =
    | PowerCut
    | BootE(io: RecoverIo)
    | ExpireE(data: Io, record: Io)
    | CreateE(size: nat, sha: seq<Byte>, data: Io, record: Io, room: bool, write: Io)
    | AcceptE(id: nat, offset: nat, bytes: seq<Byte>)
    | VerifyBeginE(id: nat)
    | SetInUseE(id: nat, on: bool)
    | DeleteE(id: nat, data: Io, record: Io)
    | OpenE(id: nat, ok: bool)
    | CloseE
    | CommitE(id: nat)
    | WriteE(dataIo: DataIo)
    | NameE(write: Io)
    | CutE(dataIo: DataIo)
    | DoneE
    | VerifyE(id: nat)
    | AbandonE(cancelled: bool, write: Io)
    | CheckedE(write: Io)

  /** The calls of the worker do not overlap. */
  predicate Enabled(s: Store, e: Event) {
    match e
    case DeleteE(_, _, _) => s.worker.Idle?
    case OpenE(_, _) => s.worker.Idle?
    case CloseE => s.worker.Idle?
    case CommitE(_) => s.worker.Idle?
    case VerifyE(_) => s.worker.Idle?
    case WriteE(_) => s.worker.Writing?
    case NameE(_) => s.worker.Naming?
    case CutE(_) => s.worker.Cutting?
    case DoneE => s.worker.Committed? || s.worker.NotCommitted?
    case AbandonE(_, _) => s.worker.Checking? && s.ram.Some? && s.ram.value.m.Some?
    case CheckedE(_) => s.worker.Checking? && s.ram.Some? && s.bin.Some?
    case _ => true
  }

  /** The file system behaves like one. */
  predicate Physical(s: Store, e: Event) {
    match e
    case BootE(io) => Truthful(io.data) && Truthful(io.record) && Truthful(io.write)
      && (s.meta.Some? && s.meta.value.Record? ==>
            CanTruncate(s.bin, Repaired(s.meta.value.m, |Content(s.bin)|).received, io.truncate))
    case ExpireE(data, record) => Truthful(data) && Truthful(record)
    case CreateE(_, _, data, record, _, write) => Truthful(data) && Truthful(record) && Truthful(write)
    case DeleteE(_, data, record) => Truthful(data) && Truthful(record)
    case WriteE(io) => s.worker.Writing? ==> CanWrite(s.bin, s.worker.chunk, io)
    case NameE(io) => Truthful(io)
    case CutE(io) => s.worker.Cutting? ==> CanTruncate(s.bin, s.worker.offset, io)
    case AbandonE(_, io) => Truthful(io)
    case CheckedE(io) => Truthful(io)
    case _ => true
  }

  function Next(h: Hashes, s: Store, e: Event): Store
    requires Enabled(s, e)
  {
    match e
    case PowerCut => Off(s)
    case BootE(io) => Recover(s, io)
    case ExpireE(data, record) => Expire(s, data, record)
    case CreateE(size, sha, data, record, room, write) => Create(s, size, sha, data, record, room, write)
    case AcceptE(id, offset, bytes) => Accept(s, id, offset, bytes)
    case VerifyBeginE(id) => VerifyBegin(s, id)
    case SetInUseE(id, on) => SetInUse(s, id, on)
    case DeleteE(id, data, record) => Delete(s, id, data, record)
    case OpenE(id, ok) => OpenReader(s, id, ok)
    case CloseE => CloseReader(s)
    case CommitE(id) => CommitBegin(s, id)
    case WriteE(io) => CommitWrite(s, io)
    case NameE(io) => CommitName(s, io)
    case CutE(io) => CommitCut(s, io)
    case DoneE => CommitEnd(s)
    case VerifyE(id) => VerifyStart(s, id)
    case AbandonE(cancelled, io) => Abandon(s, cancelled, io)
    case CheckedE(io) => VerifyEnd(s, h, io)
  }
}
