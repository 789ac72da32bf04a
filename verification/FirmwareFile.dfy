/**
 * The file operations of firmware_store.c, one call of the file system after the other. Each call may
 * fail, do part of its work, or be the last before the power goes; `fates` says which.
 */
module FirmwareFile {
  import opened Bytes
  import opened Options
  import opened FirmwareFiles

  /** `kept`: what was not synced is nevertheless found after the power cut, or after a failed close. */
  datatype Fate = Fate(ok: bool, cut: bool, kept: bool, n: nat)

  /** A file: what a restart would find, and what its open handle sees. */
  class File {
    var saved: Option<seq<Byte>>
    var view: seq<Byte>
    var fates: seq<Fate>

    constructor (saved: Option<seq<Byte>>, fates: seq<Fate>)
      ensures this.saved == saved && this.fates == fates
    {
      this.saved, this.view, this.fates := saved, [], fates;
    }

    /** With no fate left the power goes. */
    method Draw() returns (f: Fate)
      modifies `fates
    {
      if fates == [] {
        f := Fate(false, true, false, 0);
      } else {
        f := fates[0];
        fates := fates[1..];
      }
    }

    /** fs_open() */
    method Open(create: bool, truncate: bool) returns (ok: bool, cut: bool)
      modifies this
      ensures saved == old(saved) || (create && old(saved).None? && saved == Some([]))
          || (truncate && cut && saved == Some([]))
      ensures ok ==> !cut && (create || old(saved).Some?) && saved == Some(Content(old(saved)))
      ensures ok ==> view == if truncate then [] else Content(old(saved))
      ensures !cut && !ok ==> saved == old(saved)
    {
      var f := Draw();
      cut, ok := f.cut, f.ok && !f.cut && (create || saved.Some?);
      if cut {
        if f.kept && ((create && saved.None?) || truncate) {
          saved := Some([]);
        }
      } else if ok {
        saved := Some(Content(saved));
        view := if truncate then [] else saved.value;
      }
    }

    /** The unsynced view may reach storage when the power goes. */
    method Settle(f: Fate)
      modifies `saved
      ensures saved == old(saved) || saved == Some(view)
    {
      if f.kept {
        saved := Some(view);
      }
    }

    /** fs_seek() */
    method Seek() returns (ok: bool, cut: bool)
      modifies `fates, `saved
      ensures saved == old(saved) || (cut && saved == Some(view))
      ensures cut ==> !ok
    {
      var f := Draw();
      ok, cut := f.ok && !f.cut, f.cut;
      if cut {
        Settle(f);
      }
    }

    /** fs_truncate() of the open file */
    method Resize(n: nat) returns (ok: bool, cut: bool)
      requires n <= |view|
      modifies this
      ensures view == old(view) || view == old(view)[..n]
      ensures ok ==> !cut && view == old(view)[..n]
      ensures saved == old(saved) || (cut && saved == Some(view))
    {
      var f := Draw();
      ok, cut := f.ok && !f.cut, f.cut;
      if f.ok {
        view := view[..n];
      }
      if cut {
        Settle(f);
      }
    }

    /** fs_write() at the end of the file: some of the bytes, none of them, or an error. */
    method Write(data: seq<Byte>) returns (ok: bool, n: nat, cut: bool)
      modifies this
      ensures n <= |data| && view == old(view) + data[..n]
      ensures saved == old(saved) || (cut && saved == Some(view))
    {
      var f := Draw();
      ok, cut := f.ok && !f.cut, f.cut;
      n := if f.n <= |data| then f.n else |data|;
      view := view + data[..n];
      if cut {
        Settle(f);
      }
    }

    /** fs_sync() */
    method Sync() returns (ok: bool, cut: bool)
      modifies `saved, `fates
      ensures saved == old(saved) || saved == Some(view)
      ensures ok ==> !cut && saved == Some(view)
    {
      var f := Draw();
      ok, cut := f.ok && !f.cut, f.cut;
      if ok {
        saved := Some(view);
      } else if cut {
        Settle(f);
      }
    }

    /** fs_close() */
    method Close() returns (ok: bool, cut: bool)
      modifies `saved, `fates
      ensures saved == old(saved) || saved == Some(view)
      ensures ok ==> !cut && saved == Some(view)
    {
      var f := Draw();
      ok, cut := f.ok && !f.cut, f.cut;
      if ok {
        saved := Some(view);
      } else {
        Settle(f);
      }
    }

    /** write_all(): success is all of the data, however short each write was. */
    method WriteAll(data: seq<Byte>) returns (ok: bool, cut: bool)
      modifies this
      ensures |old(view)| <= |view| && view[..|old(view)|] == old(view)
      ensures ok ==> !cut && view == old(view) + data
      ensures saved == old(saved) || (cut && saved == Some(view))
    {
      var done := 0;
      ok, cut := true, false;
      while done < |data|
        invariant done <= |data| && !cut && ok
        invariant view == old(view) + data[..done] && saved == old(saved)
      {
        var n;
        ok, n, cut := Write(data[done..]);
        assert data[..done] + data[done..][..n] == data[..done + n];
        if cut || !ok || n == 0 {
          ok := false;
          return;
        }
        done := done + n;
      }
    }

    /**
     * write_chunk(): whatever fails, and wherever the power goes, the bytes in front of the chunk
     * stay; success means that nothing but the chunk follows them.
     */
    method WriteChunk(c: Chunk) returns (ok: bool, cut: bool)
      modifies this
      ensures CanWrite(old(saved), c, DataIo(saved, ok, cut))
    {
      ghost var b := Content(old(saved));
      ok, cut := Open(true, false);
      if cut || !ok {
        return;
      }
      var have: int := -1;
      var seen;
      seen, cut := Seek();
      if cut {
        ok := false;
        return;
      }
      if seen {
        have := |view|;
      }
      if have < c.offset {
        ok := false;
      } else if have > c.offset {
        ok, cut := Resize(c.offset);
      }
      if cut {
        return;
      }
      if ok {
        ok, cut := Seek();
        if cut {
          return;
        }
      }
      if ok {
        assert view == b[..c.offset];
        ok, cut := WriteAll(c.data);
        if cut {
          return;
        }
      }
      if ok {
        ok, cut := Sync();
        if cut {
          return;
        }
      }
      if !ok && have >= c.offset {
        var _, gone := Resize(c.offset);
        if gone {
          cut := true;
          return;
        }
      }
      var closed;
      closed, cut := Close();
      ok := ok && closed && !cut;
    }

    /** truncate_file() */
    method TruncateTo(n: nat) returns (ok: bool, cut: bool)
      requires n <= |Content(saved)|
      modifies this
      ensures CanTruncate(old(saved), n, DataIo(saved, ok, cut))
    {
      ok, cut := Open(false, false);
      if cut || !ok {
        return;
      }
      ok, cut := Resize(n);
      if cut {
        return;
      }
      if ok {
        ok, cut := Sync();
        if cut {
          return;
        }
      }
      var closed;
      closed, cut := Close();
      ok := ok && closed && !cut;
    }
  }

  /** upload.meta and the temporary file it is renamed from. */
  class MetaPair {
    const tmp: File
    var meta: Option<seq<Byte>>

    constructor (tmp: File, meta: Option<seq<Byte>>)
      ensures this.tmp == tmp && this.meta == meta
    {
      this.tmp, this.meta := tmp, meta;
    }

    /** write_meta(): the whole record takes the name, or the old one keeps it. */
    method WriteRecord(record: seq<Byte>) returns (io: Io)
      modifies this, tmp
      ensures Truthful(io)
      ensures meta == if io.done then Some(record) else old(meta)
    {
      var ok, cut := tmp.Open(true, true);
      if cut || !ok {
        return Io(false, false, cut);
      }
      ok, cut := tmp.WriteAll(record);
      if cut {
        return Io(false, false, true);
      }
      if ok {
        ok, cut := tmp.Sync();
        if cut {
          return Io(false, false, true);
        }
      }
      var closed;
      closed, cut := tmp.Close();
      if cut {
        return Io(false, false, true);
      }
      if !ok || !closed {
        return Io(false, false, false);
      }
      var f := tmp.Draw();
      if f.ok {
        meta := tmp.saved;
      }
      io := Io(f.ok, f.ok, f.cut);
    }
  }
}
