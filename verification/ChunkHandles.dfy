/**
 * The one open chunk of a chunked file (chunkstore/chunkedfile.go: openChunkIO, closeCachedChunkIO,
 * writeToChunk, readFromChunk) over a blob store. `held` is the payload each blob stands for, and
 * `versions` its version, whether it is the open one or a closed one.
 */
module ChunkHandles {
  import opened Bytes
  import opened ChunkFormat
  import opened ChunkStore

  type BlobPath = nat

  /** A closed blob stands for a payload and a version. */
  ghost predicate Stands(f: Format, b: bytes, payload: bytes, version: int64)
  {
    Holds(f, b, payload) && |payload| <= MAX_CHUNK_PAYLOAD_LEN && OfVersion(f, b, version)
  }

  /** `Stands`, carried folded. */
  ghost predicate Standing(f: Format, b: bytes, payload: bytes, version: int64)
  {
    forall z {:trigger Unfolded(z)} :: Unfolded(z) ==> Stands(f, b, payload, version)
  }

  lemma NowStands(f: Format, b: bytes, payload: bytes, version: int64)
    ensures Stands(f, b, payload, version) <==> Standing(f, b, payload, version)
  {
    assert Unfolded(0);
  }

  /** The version of a blob after `p` is written at `off`; one that is not there starts from 1. */
  function Written(held: map<BlobPath, bytes>, versions: map<BlobPath, int64>, path: BlobPath, p: bytes, off: nat)
    : int64
  {
    var len, v := if path in held then |held[path]| else 0, if path in versions then versions[path] else 1;
    if p == [] then v else Advanced(v, FramesTouched(len, off, |p|))
  }

  /** Creating the blob first makes no difference. */
  lemma WrittenNew(held: map<BlobPath, bytes>, versions: map<BlobPath, int64>, path: BlobPath, p: bytes, off: nat)
    requires held.Keys == versions.Keys && path !in held
    ensures Written(held[path := []], versions[path := 1], path, p, off) == Written(held, versions, path, p, off)
  {
  }

  lemma UpdatedTwice<T>(m: map<BlobPath, T>, path: BlobPath, first: T, second: T)
    ensures m[path := first][path := second] == m[path := second]
  {
  }

  class Handles {
    const f: Format
    var blobs: map<BlobPath, MemBlobHandle>
    var cachedCio: ChunkIO?
    var cachedPath: Option<BlobPath>
    ghost var held: map<BlobPath, bytes>
    ghost var versions: map<BlobPath, int64>
    ghost var owner: map<MemBlobHandle, BlobPath>
    ghost var Repr: set<object>

    ghost predicate Closed(p: BlobPath)
      requires p in blobs && p in held && p in versions
      reads this, blobs[p]
    {
      Standing(f, blobs[p].content, held[p], versions[p])
    }

    /** Every blob is an object of its own. */
    ghost predicate Shape()
      reads this
    {
      && this in Repr
      && f.Lawful()
      && held.Keys == versions.Keys == blobs.Keys
      && (forall p {:trigger blobs[p]} :: p in blobs ==> blobs[p] in Repr && blobs[p] in owner && owner[blobs[p]] == p)
      && (cachedPath.Some? <==> cachedCio != null)
      && (cachedCio != null ==>
            cachedCio in Repr && cachedPath.value in blobs && cachedCio.bh == blobs[cachedPath.value])
    }

    /** The open chunk is an access path to its payload. */
    ghost predicate OpenGood()
      requires Shape()
      reads this, Repr
    {
      cachedCio != null ==>
        && cachedCio.f == f && cachedCio.Sound()
        && cachedCio.payload == held[cachedPath.value] && cachedCio.version == versions[cachedPath.value]
    }

    ghost predicate Good()
      reads this, Repr
    {
      && Shape()
      && OpenGood()
      && (forall p {:trigger blobs[p]} :: p in blobs && cachedPath != Some(p) ==> Closed(p))
    }

    /** `Good`, carried folded by clients: mentioning `Unfolded` unfolds it. */
    ghost predicate Valid()
      reads this, Repr
    {
      this in Repr && forall z {:trigger Unfolded(z)} :: Unfolded(z) ==> Good()
    }

    lemma Fold()
      ensures Valid() <==> Good()
    {
      assert Unfolded(0);
    }

    constructor (f: Format)
      requires f.Lawful()
      ensures Valid() && fresh(Repr) && held == map[] && versions == map[] && this.f == f
    {
      this.f, blobs, cachedCio, cachedPath, held, versions, owner := f, map[], null, None, map[], map[], map[];
      Repr := {this};
    }

    /** Closing writes the pending header, so the blob alone holds the payload and the version again. */
    method CloseCached()
      requires Good()
      modifies Repr
      ensures Good() && Repr == old(Repr) && cachedCio == null
      ensures held == old(held) && versions == old(versions) && blobs == old(blobs)
    {
      if cachedCio != null {
        cachedCio.Fold();
        cachedCio.Sync();
        NowStands(f, cachedCio.bh.content, cachedCio.payload, cachedCio.version);
        cachedCio, cachedPath := null, None;
      }
    }

    /** Reopening a chunk, and switching to it from another one, loses nothing. A new chunk is empty. */
    method Open(path: BlobPath) returns (cio: ChunkIO)
      requires Good()
      modifies Repr
      ensures Good() && fresh(Repr - old(Repr))
      ensures held == if path in old(held) then old(held) else old(held)[path := []]
      ensures versions == if path in old(held) then old(versions) else old(versions)[path := 1]
      ensures cachedCio == cio && cachedPath == Some(path)
    {
      if cachedPath == Some(path) {
        return cachedCio;
      }
      CloseCached();
      cio := OpenOrCreate(path);
    }

    method OpenOrCreate(path: BlobPath) returns (cio: ChunkIO)
      requires Good() && cachedCio == null
      modifies this
      ensures Good() && fresh(Repr - old(Repr))
      ensures held == if path in old(held) then old(held) else old(held)[path := []]
      ensures versions == if path in old(held) then old(versions) else old(versions)[path := 1]
      ensures cachedCio == cio && cachedPath == Some(path)
    {
      if path !in blobs {
        Create(path);
      }
      cio := OpenExisting(path);
    }

    method OpenExisting(path: BlobPath) returns (cio: ChunkIO)
      requires Good() && cachedCio == null && path in blobs
      modifies this`cachedCio, this`cachedPath, this`Repr
      ensures Good() && fresh(Repr - old(Repr))
      ensures cachedCio == cio && cachedPath == Some(path)
    {
      assert Closed(path);
      NowStands(f, blobs[path].content, held[path], versions[path]);
      cio := new ChunkIO(blobs[path], f, held[path], versions[path]);
      cio.Fold();
      cachedCio, cachedPath := cio, Some(path);
      Repr := Repr + {cio};
    }

    method Create(path: BlobPath)
      requires Good() && cachedCio == null && path !in blobs
      modifies this
      ensures Good() && fresh(Repr - old(Repr)) && old(Repr) <= Repr
      ensures held == old(held)[path := []] && versions == old(versions)[path := 1]
      ensures cachedCio == null
    {
      var bh := new MemBlobHandle();
      Adopt(path, bh);
    }

    method Adopt(path: BlobPath, bh: MemBlobHandle)
      requires Good() && cachedCio == null && path !in blobs && bh !in owner && bh.content == []
      modifies this
      ensures Good() && Repr == old(Repr) + {bh} && cachedCio == null
      ensures held == old(held)[path := []] && versions == old(versions)[path := 1]
    {
      NowStands(f, [], [], 1);
      blobs, held, owner := blobs[path := bh], held[path := []], owner[bh := path];
      versions := versions[path := 1];
      Repr := Repr + {bh};
    }

    method WriteCio(p: bytes, off: nat) returns (size: nat)
      requires Good() && cachedCio != null && off + |p| <= MAX_CHUNK_PAYLOAD_LEN
      modifies cachedCio, cachedCio.bh
      ensures cachedCio.Sound() && cachedCio.payload == Overwrite(old(held)[cachedPath.value], p, off)
      ensures cachedCio.version == Written(old(held), old(versions), cachedPath.value, p, off)
      ensures size == |cachedCio.payload|
    {
      cachedCio.Fold();
      var _ := cachedCio.PWrite(p, off);
      cachedCio.EnsureHeader();
      cachedCio.Fold();
      size := cachedCio.header.payloadLen;
    }

    method WriteOpen(p: bytes, off: nat) returns (size: nat)
      requires Good() && cachedCio != null && off + |p| <= MAX_CHUNK_PAYLOAD_LEN
      modifies this`held, this`versions, cachedCio, cachedCio.bh
      ensures Good()
      ensures held == old(held)[cachedPath.value := Overwrite(old(held)[cachedPath.value], p, off)]
      ensures versions == old(versions)[cachedPath.value := Written(old(held), old(versions), cachedPath.value, p, off)]
      ensures size == |held[cachedPath.value]|
    {
      size := WriteCio(p, off);
      held := held[cachedPath.value := cachedCio.payload];
      versions := versions[cachedPath.value := cachedCio.version];
    }

    /** Writes into a chunk and reports its new length. The version counts the frames written. */
    method Write(path: BlobPath, p: bytes, off: nat) returns (size: nat)
      requires Valid() && off + |p| <= MAX_CHUNK_PAYLOAD_LEN
      modifies Repr
      ensures Valid() && fresh(Repr - old(Repr))
      ensures var before := if path in old(held) then old(held)[path] else [];
              held == old(held)[path := Overwrite(before, p, off)]
      ensures versions == old(versions)[path := Written(old(held), old(versions), path, p, off)]
      ensures size == |held[path]|
    {
      Fold();
      if path !in held {
        WrittenNew(held, versions, path, p, off);
        UpdatedTwice(held, path, [], Overwrite([], p, off));
        UpdatedTwice(versions, path, 1, Written(held, versions, path, p, off));
      }
      var _ := Open(path);
      size := WriteOpen(p, off);
      Fold();
    }

    method ReadOpen(len: nat, off: nat) returns (data: bytes)
      requires Good() && cachedCio != null && off + len <= |held[cachedPath.value]|
      modifies cachedCio
      ensures Good() && data == held[cachedPath.value][off..off + len]
    {
      cachedCio.Fold();
      var r := cachedCio.PRead(len, off);
      cachedCio.Fold();
      data := r.value;
    }

    method Read(path: BlobPath, len: nat, off: nat) returns (data: bytes)
      requires Valid() && path in held && off + len <= |held[path]|
      modifies Repr
      ensures Valid() && fresh(Repr - old(Repr)) && held == old(held) && versions == old(versions)
      ensures data == held[path][off..off + len]
    {
      Fold();
      var _ := Open(path);
      data := ReadOpen(len, off);
      Fold();
    }
  }
}
