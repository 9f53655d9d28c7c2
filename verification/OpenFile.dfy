/**
 * An open file (filesystem/filesystem.go: OpenFile): the write cache over the chunked file, and the
 * size kept in the inode database. `File()` is the flat file the whole stack stands for.
 */
module OpenFile {
  import opened Bytes
  import opened Patches
  import opened Overlay
  import opened ChunkFormat
  import opened ChunkedFile
  import opened FileWriteCache

  class OpenFile {
    const wc: FileWriteCache
    const cfio: ChunkedFileIO
    var size: nat

    ghost predicate Valid()
      reads this, wc, cfio, cfio.h, cfio.h.Repr
    {
      && wc.Valid() && cfio.Valid() && wc !in cfio.h.Repr && this !in cfio.h.Repr
      && Reaching(wc.ps, |cfio.content|)
    }

    ghost function File(): bytes
      requires Valid()
      reads this, wc, cfio, cfio.h, cfio.h.Repr
    {
      Overlaid(cfio.content, wc.ps)
    }

    constructor (f: Format, readable: bool, writable: bool, pathFails: nat -> bool)
      requires f.Lawful()
      ensures Valid() && File() == [] && size == 0
      ensures cfio.readable == readable && cfio.writable == writable
    {
      wc := new FileWriteCache();
      cfio := new ChunkedFileIO(f, readable, writable, pathFails);
      size := 0;
      new;
      OverlaidNothing([]);
      assert Reaching(wc.ps, 0) by {
        forall x: nat ensures ByteAt(wc.ps, x) == None { ByteAtOne(SENTINEL, x); }
      }
    }

    /** Writing back changes where the bytes are, never what the file is; a failed write-back can be retried. */
    method SyncCache() returns (ok: bool)
      requires Valid()
      modifies wc, cfio, cfio.h.Repr
      ensures Valid() && fresh(cfio.h.Repr - old(cfio.h.Repr)) && File() == old(File())
      ensures ok ==> wc.ps == [SENTINEL] && cfio.content == File()
      ensures !ok ==> wc.ps == old(wc.ps) && (!cfio.writable || exists k :: cfio.pathFails(k))
    {
      ghost var writes;
      ok, writes := wc.Sync(cfio);
      if ok {
        OverlaidNothing(cfio.content);
        assert Reaching(wc.ps, |cfio.content|) by {
          forall x: nat ensures ByteAt(wc.ps, x) == None { ByteAtOne(SENTINEL, x); }
        }
      } else {
        ReachingGrows(wc.ps, |old(cfio.content)|, |cfio.content|);
      }
    }

    /** A cached write, and the forced write-back when the cache is full. */
    method WriteCached(p: bytes, offset: nat) returns (ok: bool)
      requires Valid() && |p| <= MAX_INT32 && offset + |p| <= MAX_INT64
      requires p == [] || InReach(|File()|, offset)
      modifies wc, cfio, cfio.h.Repr
      ensures Valid() && fresh(cfio.h.Repr - old(cfio.h.Repr))
      ensures File() == Overwrite(old(File()), p, offset)
      ensures ok ==> |wc.ps| <= MAX_PATCHES && PendingLen(wc.ps) <= MAX_PATCH_CONTENT_LEN
      ensures !ok ==> !cfio.writable || exists k :: cfio.pathFails(k)
    {
      wc.PWrite(p, offset);
      assert Overlaid(cfio.content, wc.ps) == Overwrite(old(File()), p, offset);
      var needs := wc.NeedsSync();
      ok := true;
      if needs {
        ok := SyncCache();
      }
    }

    /**
     * For every run of writes in reach, forced and explicit write-backs, the file is the flat file those
     * writes make. The recorded size follows the end of each successful write, an empty one included.
     */
    method PWrite(p: bytes, offset: nat) returns (ok: bool)
      requires Valid() && |p| <= MAX_INT32 && offset + |p| <= MAX_INT64
      requires p == [] || InReach(|File()|, offset)
      modifies this, wc, cfio, cfio.h.Repr
      ensures Valid() && fresh(cfio.h.Repr - old(cfio.h.Repr))
      ensures File() == Overwrite(old(File()), p, offset)
      ensures size == if ok then Max(old(size), offset + |p|) else old(size)
      ensures ok ==> |wc.ps| <= MAX_PATCHES && PendingLen(wc.ps) <= MAX_PATCH_CONTENT_LEN
      ensures !ok ==> !cfio.writable || exists k :: cfio.pathFails(k)
      ensures ok && old(size) == |old(File())| ==> (size == |File()| <==> p != [] || offset <= old(size))
    {
      var currentSize := size;
      ok := WriteCached(p, offset);
      if !ok {
        return;
      }
      var right := offset + |p|;
      if right > currentSize {
        size := right;
      }
    }

    /** Appends at the recorded size. */
    method Append(p: bytes) returns (ok: bool)
      requires Valid() && |p| <= MAX_INT32 && size + |p| <= MAX_INT64
      requires p == [] || InReach(|File()|, size)
      modifies this, wc, cfio, cfio.h.Repr
      ensures Valid() && fresh(cfio.h.Repr - old(cfio.h.Repr))
      ensures File() == Overwrite(old(File()), p, old(size))
      ensures size == if ok then old(size) + |p| else old(size)
      ensures ok ==> |wc.ps| <= MAX_PATCHES && PendingLen(wc.ps) <= MAX_PATCH_CONTENT_LEN
      ensures old(size) == |old(File())| ==> File() == old(File()) + p
    {
      var currentSize := size;
      ok := WriteCached(p, currentSize);
      if old(size) == |old(File())| { SameBytes(File(), old(File()) + p); }
      if ok {
        size := currentSize + |p|;
      }
    }

    /** Reading, through patches, chunks and frames, reads the flat file. */
    method ReadAt(len: nat, offset: int) returns (data: bytes, ok: bool)
      requires Valid() && len <= MAX_INT32 && offset + len <= MAX_INT64
      modifies cfio.h.Repr
      ensures Valid() && fresh(cfio.h.Repr - old(cfio.h.Repr)) && File() == old(File())
      ensures cfio.readable && (offset >= 0 || len == 0) ==> ok
      ensures offset >= 0 && ok ==> data == FlatRead(File(), offset, len)
    {
      data, ok := wc.ReadAtThrough(len, offset, cfio);
    }

    method Sync() returns (ok: bool)
      requires Valid()
      modifies wc, cfio, cfio.h.Repr
      ensures Valid() && fresh(cfio.h.Repr - old(cfio.h.Repr)) && File() == old(File())
      ensures ok ==> cfio.content == File()
      ensures !ok ==> !cfio.writable || exists k :: cfio.pathFails(k)
    {
      ok := SyncCache();
    }
  }
}
