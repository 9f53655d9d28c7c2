/**
 * A file split over chunk blobs (chunkstore/chunkedfile.go). `content` is the flat file; it is split at
 * multiples of the chunk split size.
 */
module ChunkedFile {
  import opened Bytes
  import opened ChunkFormat
  import opened ChunkHandles

  const CHUNK_SPLIT_SIZE: nat := 0x1000_0000

  function ChunkStart(k: nat): nat { k * 0x1000_0000 }

  function ChunkIndex(x: nat): (k: nat)
    ensures ChunkStart(k) <= x < ChunkStart(k) + CHUNK_SPLIT_SIZE
  {
    x / 0x1000_0000
  }

  datatype FileChunk = FileChunk(offset: nat, length: nat, blobPath: BlobPath) {
    function Left(): nat { offset }

    function Right(): nat { offset + length }
  }

  /** Chunk `k` holds its share of the file. */
  ghost predicate ChunkAt(content: bytes, cs: seq<FileChunk>, held: map<BlobPath, bytes>, k: nat)
    requires k < |cs|
  {
    && cs[k].offset == ChunkStart(k) <= |content|
    && cs[k].blobPath in held
    && held[cs[k].blobPath] == Part(content, ChunkStart(k), CHUNK_SPLIT_SIZE)
    && cs[k].length == |held[cs[k].blobPath]|
  }

  ghost predicate PathsDiffer(cs: seq<FileChunk>, j: nat, k: nat)
    requires j < k < |cs|
  {
    cs[j].blobPath != cs[k].blobPath
  }

  /** The chunks are the file cut at multiples of the split size: chunk `k` at `k` times it, all but the last full. */
  ghost predicate Flat(content: bytes, cs: seq<FileChunk>, held: map<BlobPath, bytes>)
  {
    && |content| <= ChunkStart(|cs|)
    && (|cs| > 0 ==> ChunkStart(|cs| - 1) < |content|)
    && (forall k {:trigger ChunkAt(content, cs, held, k)} :: 0 <= k < |cs| ==> ChunkAt(content, cs, held, k))
    && (forall j, k {:trigger PathsDiffer(cs, j, k)} :: 0 <= j < k < |cs| ==> PathsDiffer(cs, j, k))
  }

  ghost predicate Known(c: FileChunk, held: map<BlobPath, bytes>)
  {
    c.blobPath in held && 0 < c.length == |held[c.blobPath]|
  }

  ghost predicate InOrder(cs: seq<FileChunk>, j: nat, k: nat)
    requires j < k < |cs|
  {
    cs[j].Right() <= cs[k].Left()
  }

  /** Chunks described by their blobs, in order, without overlap; gaps allowed. */
  ghost predicate Described(cs: seq<FileChunk>, held: map<BlobPath, bytes>)
  {
    && (forall k {:trigger Known(cs[k], held)} :: 0 <= k < |cs| ==> Known(cs[k], held))
    && (forall j, k {:trigger InOrder(cs, j, k)} :: 0 <= j < k < |cs| ==> InOrder(cs, j, k))
  }

  lemma FlatDescribed(content: bytes, cs: seq<FileChunk>, held: map<BlobPath, bytes>)
    requires Flat(content, cs, held)
    ensures Described(cs, held)
    ensures |cs| > 0 ==> cs[|cs| - 1].Right() == |content|
  {
    forall k | 0 <= k < |cs| ensures Known(cs[k], held) { assert ChunkAt(content, cs, held, k); }
    forall j, k | 0 <= j < k < |cs| ensures InOrder(cs, j, k) {
      assert ChunkAt(content, cs, held, j) && ChunkAt(content, cs, held, k);
    }
    if |cs| > 0 { assert ChunkAt(content, cs, held, |cs| - 1); }
  }

  lemma FlatWrite(content: bytes, cs: seq<FileChunk>, held: map<BlobPath, bytes>, i: nat, q: bytes, at: nat)
    requires Flat(content, cs, held) && i < |cs| && cs[i].blobPath in held
    requires ChunkStart(i) <= at && at + |q| <= ChunkStart(i) + CHUNK_SPLIT_SIZE
    ensures var now := Overwrite(held[cs[i].blobPath], q, at - ChunkStart(i));
            Flat(Overwrite(content, q, at), cs[i := cs[i].(length := |now|)], held[cs[i].blobPath := now])
    ensures q == [] ==> cs == cs[i := cs[i].(length := |held[cs[i].blobPath]|)]
  {
    var path := cs[i].blobPath;
    var now := Overwrite(held[path], q, at - ChunkStart(i));
    var cs' := cs[i := cs[i].(length := |now|)];
    assert ChunkAt(content, cs, held, i);
    if q == [] {
      assert cs' == cs && held[path := now] == held;
      return;
    }
    var content', held' := Overwrite(content, q, at), held[path := now];
    forall k | 0 <= k < |cs| ensures ChunkAt(content', cs', held', k) {
      assert ChunkAt(content, cs, held, k);
      if k == i {
        PartOverwritten(content, ChunkStart(i), CHUNK_SPLIT_SIZE, q, at);
      } else {
        assert PathsDiffer(cs, Min(k, i), Max(k, i));
        PartKept(content, ChunkStart(k), CHUNK_SPLIT_SIZE, q, at);
      }
    }
    forall j, k | 0 <= j < k < |cs| ensures PathsDiffer(cs', j, k) { assert PathsDiffer(cs, j, k); }
  }

  lemma FlatAppend(content: bytes, cs: seq<FileChunk>, held: map<BlobPath, bytes>, path: BlobPath, q: bytes, at: nat)
    requires Flat(content, cs, held) && path !in held && q != []
    requires |content| == ChunkStart(|cs|) <= at && at + |q| <= ChunkStart(|cs|) + CHUNK_SPLIT_SIZE
    ensures var now := Overwrite([], q, at - ChunkStart(|cs|));
            Flat(Overwrite(content, q, at), cs + [FileChunk(ChunkStart(|cs|), |now|, path)], held[path := now])
  {
    var now := Overwrite([], q, at - ChunkStart(|cs|));
    var cs' := cs + [FileChunk(ChunkStart(|cs|), |now|, path)];
    var content', held' := Overwrite(content, q, at), held[path := now];
    forall k | 0 <= k < |cs'| ensures ChunkAt(content', cs', held', k) {
      if k == |cs| {
        PartOverwritten(content, ChunkStart(k), CHUNK_SPLIT_SIZE, q, at);
        assert Part(content, ChunkStart(k), CHUNK_SPLIT_SIZE) == [];
      } else {
        assert ChunkAt(content, cs, held, k);
        PartKept(content, ChunkStart(k), CHUNK_SPLIT_SIZE, q, at);
      }
    }
    forall j, k | 0 <= j < k < |cs'| ensures PathsDiffer(cs', j, k) {
      assert ChunkAt(content, cs, held, j);
      if k < |cs| { assert PathsDiffer(cs, j, k); }
    }
  }

  /** A write at `offset` leaves no gap in a file of `size` bytes: its chunk starts at or before the end. */
  predicate InReach(size: nat, offset: nat)
  {
    ChunkStart(ChunkIndex(offset)) <= size
  }

  lemma AppendDescribed(cs: seq<FileChunk>, held: map<BlobPath, bytes>, c: FileChunk, held': map<BlobPath, bytes>)
    requires Described(cs, held) && c.blobPath !in held && Known(c, held')
    requires held' == held[c.blobPath := held'[c.blobPath]]
    requires |cs| > 0 ==> cs[|cs| - 1].Right() <= c.Left()
    ensures Described(cs + [c], held')
  {
    var cs' := cs + [c];
    forall k | 0 <= k < |cs'| ensures Known(cs'[k], held') {
      if k < |cs| { assert Known(cs[k], held); }
    }
    forall j, k | 0 <= j < k < |cs'| ensures InOrder(cs', j, k) {
      if k < |cs| {
        assert InOrder(cs, j, k);
      } else if j < |cs| - 1 {
        assert InOrder(cs, j, |cs| - 1);
      }
    }
  }

  function LastRight(cs: seq<FileChunk>): nat
  {
    if cs == [] then 0 else cs[|cs| - 1].Right()
  }

  /** Position `x` starts, or lies in, the chunk that comes next after full chunks. */
  ghost predicate StartsChunk(content: bytes, cs: seq<FileChunk>, x: nat)
  {
    ChunkStart(ChunkIndex(x)) == |content| == ChunkStart(|cs|)
  }

  /** Non-empty chunks were added, the first where a write at `x` puts it. */
  ghost predicate Extended(before: seq<FileChunk>, cs: seq<FileChunk>, x: nat)
  {
    && before < cs
    && cs[|before|].offset == Max(ChunkStart(ChunkIndex(x)), LastRight(before))
    && cs[|before|].length > 0
  }

  /** A turn of the second loop ends at its end of the write or at the next multiple of the split size. */
  lemma NextChunk(x: nat, n: nat, len: nat)
    requires n == Min(len, ChunkStart(ChunkIndex(x)) + CHUNK_SPLIT_SIZE - x)
    ensures len > 0 ==> n > 0
    ensures n < len ==> x + n == ChunkStart(ChunkIndex(x) + 1) && ChunkIndex(x + n) == ChunkIndex(x) + 1
  {
  }

  /** What the first loop leaves of a write in reach starts a new chunk right at the end of the file. */
  lemma Reach(before: bytes, after: bytes, p: bytes, offset: nat, n: nat, m: nat)
    requires n <= |p| && after == Overwrite(before, p[..n], offset)
    requires |after| <= ChunkStart(m) && |before| <= ChunkStart(m)
    requires m > 0 ==> ChunkStart(m - 1) < |before|
    requires n > 0 <==> offset < ChunkStart(m)
    requires n < |p| ==> ChunkStart(m) <= offset + n
    requires 0 < n < |p| ==> offset + n == ChunkStart(m)
    ensures n < |p| && InReach(|before|, offset) ==> ChunkStart(ChunkIndex(offset + n)) == |after| == ChunkStart(m)
    ensures n > 0 ==> InReach(|before|, offset)
  {
  }

  lemma FlatTurn(content: bytes, cs: seq<FileChunk>, held: map<BlobPath, bytes>, i: nat)
    requires Flat(content, cs, held) && i < |cs|
    ensures ChunkAt(content, cs, held, i)
    ensures cs[i].Right() == Min(ChunkStart(i + 1), |content|)
    ensures i < |cs| - 1 ==> cs[i].Right() == ChunkStart(i + 1) == cs[i + 1].Left()
  {
    assert ChunkAt(content, cs, held, i);
    if i < |cs| - 1 { assert ChunkAt(content, cs, held, i + 1); }
  }

  /** `x` is the last position of a gap that ends at chunk `k`. */
  ghost predicate InGap(cs: seq<FileChunk>, k: nat, x: int)
    requires k < |cs|
  {
    cs[k].Left() == x + 1 && (k > 0 ==> cs[k - 1].Right() <= x)
  }

  ghost predicate NothingPast(cs: seq<FileChunk>, i: nat, x: int)
    requires i <= |cs|
  {
    forall j {:trigger cs[j]} :: 0 <= j < i ==> cs[j].Right() <= x
  }

  lemma BeforeGap(cs: seq<FileChunk>, held: map<BlobPath, bytes>, k: nat, x: int)
    requires Described(cs, held) && k < |cs| && InGap(cs, k, x)
    ensures NothingPast(cs, k, x)
  {
    forall j | 0 <= j < k ensures cs[j].Right() <= x {
      if j < k - 1 { assert InOrder(cs, j, k - 1); }
    }
  }

  lemma PartSlice(content: bytes, lo: nat, data: bytes, coff: nat)
    requires lo <= |content| && coff + |data| <= |Part(content, lo, CHUNK_SPLIT_SIZE)|
    requires data == Part(content, lo, CHUNK_SPLIT_SIZE)[coff..coff + |data|]
    ensures forall y :: 0 <= y < |data| ==> data[y] == At(content, lo + coff + y)
  {
    var part := Part(content, lo, CHUNK_SPLIT_SIZE);
    assert forall y :: 0 <= y < |data| ==> data[y] == At(part, coff + y);
  }

  /** How far a read of a flat file has come before its turn at chunk `i` of `m`. */
  ghost predicate FlatProgress(content: bytes, m: nat, i: nat, offset: nat, remo: nat, got: bytes, len: nat)
  {
    && |got| == remo - offset <= len
    && (got != [] ==> remo <= |content|)
    && (|got| < len ==> if i == m then |content| <= remo else ChunkStart(i) <= remo)
    && forall x :: 0 <= x < |got| ==> got[x] == At(content, offset + x)
  }

  lemma FlatStep(content: bytes, cs: seq<FileChunk>, held: map<BlobPath, bytes>, i: nat,
                 offset: nat, remo: nat, got: bytes, len: nat, data: bytes)
    requires Flat(content, cs, held) && i < |cs| && |got| < len
    requires FlatProgress(content, |cs|, i, offset, remo, got, len)
    requires cs[i].Left() <= remo ==>
               remo < cs[i].Right() && cs[i].blobPath in held && |held[cs[i].blobPath]| == cs[i].length
    requires cs[i].Left() <= remo ==>
               var coff := remo - cs[i].Left();
               |data| == Min(len - |got|, cs[i].length - coff) && data == held[cs[i].blobPath][coff..coff + |data|]
    ensures cs[i].Left() <= remo
    ensures FlatProgress(content, |cs|, i + 1, offset, remo + |data|, got + data, len)
  {
    FlatTurn(content, cs, held, i);
    PartSlice(content, ChunkStart(i), data, remo - cs[i].Left());
  }

  lemma FlatSkip(content: bytes, cs: seq<FileChunk>, held: map<BlobPath, bytes>, i: nat,
                 offset: nat, remo: nat, got: bytes, len: nat)
    requires Flat(content, cs, held) && i < |cs| && FlatProgress(content, |cs|, i, offset, remo, got, len)
    requires cs[i].Right() <= remo
    ensures FlatProgress(content, |cs|, i + 1, offset, remo, got, len)
  {
    FlatTurn(content, cs, held, i);
  }

  /** When the loop ends, by its condition or at a chunk past the buffer, the read is complete. */
  lemma FlatRest(content: bytes, cs: seq<FileChunk>, held: map<BlobPath, bytes>, i: nat,
                 offset: nat, remo: nat, got: bytes, len: nat)
    requires Flat(content, cs, held) && i <= |cs| && FlatProgress(content, |cs|, i, offset, remo, got, len)
    requires i == |cs| || |got| == len || cs[i].Left() > remo + (len - |got|)
    ensures got == FlatRead(content, offset, len)
  {
    if i < |cs| { FlatTurn(content, cs, held, i); }
    SameBytes(got, FlatRead(content, offset, len));
  }

  /** Which chunk the read met first, and what that did to the position when it met it across a gap. */
  ghost predicate GapProgress(cs: seq<FileChunk>, i: nat, hit: nat, offset: nat, remo: nat, pos: nat, len: nat)
  {
    && i <= |cs|
    && if pos == 0 then remo == offset && NothingPast(cs, i, offset)
       else && hit < i
            && NothingPast(cs, hit, offset)
            && cs[hit].Right() > offset
            && (len == 1 && InGap(cs, hit, offset) ==> remo == offset + 2)
  }

  lemma GapStep(cs: seq<FileChunk>, i: nat, hit: nat, offset: nat, remo: nat, pos: nat, len: nat, n: nat)
    requires i < |cs| && pos < len && GapProgress(cs, i, hit, offset, remo, pos, len)
    requires cs[i].Right() > remo && 0 < n <= len - pos
    ensures var remo' := Max(remo, Min(cs[i].Left(), remo + (len - pos))) + n;
            GapProgress(cs, i + 1, if pos == 0 then i else hit, offset, remo', pos + n, len)
  {
  }

  /** Where a read stands before chunk `i`, with `pos` bytes of `buf` filled. */
  ghost predicate Progressed(content: bytes, cs: seq<FileChunk>, held: map<BlobPath, bytes>, i: nat, hit: nat,
                             offset: nat, remo: nat, pos: nat, buf: bytes)
  {
    && i <= |cs| && pos <= |buf| && offset <= remo
    && (Flat(content, cs, held) ==> FlatProgress(content, |cs|, i, offset, remo, buf[..pos], |buf|))
    && GapProgress(cs, i, hit, offset, remo, pos, |buf|)
  }

  lemma TurnProgressed(content: bytes, cs: seq<FileChunk>, held: map<BlobPath, bytes>, i: nat, hit: nat,
                       offset: nat, remo: nat, pos: nat, buf: bytes, data: bytes, buf': bytes, remo': nat)
    requires i < |cs| && pos < |buf| && Progressed(content, cs, held, i, hit, offset, remo, pos, buf)
    requires Known(cs[i], held) && cs[i].Left() <= remo + (|buf| - pos) && cs[i].Right() > remo
    requires var coff := Max(0, remo - cs[i].Left());
             && 0 < |data| == Min(|buf| - pos, cs[i].length - coff)
             && data == held[cs[i].blobPath][coff..coff + |data|]
    requires |buf'| == |buf| && buf'[..pos + |data|] == buf[..pos] + data
    requires remo' == Max(remo, Min(cs[i].Left(), remo + (|buf| - pos))) + |data|
    ensures Progressed(content, cs, held, i + 1, if pos == 0 then i else hit, offset, remo', pos + |data|, buf')
  {
    if Flat(content, cs, held) { FlatStep(content, cs, held, i, offset, remo, buf[..pos], |buf|, data); }
    GapStep(cs, i, hit, offset, remo, pos, |buf|, |data|);
  }

  class ChunkedFileIO {
    const h: Handles
    const readable: bool
    const writable: bool
    const pathFails: nat -> bool // whether the n-th generated blob path is an error
    var nextPath: nat
    var cs: seq<FileChunk>
    var saved: seq<FileChunk> // the chunk array as written to the inode database
    ghost var content: bytes

    /** The chunk array describes the blobs; gaps are allowed. */
    ghost predicate Arranged()
      reads this, h, h.Repr
    {
      && h.Valid() && this !in h.Repr
      && (forall p {:trigger p in h.held} :: p in h.held ==> p < nextPath)
      && Described(cs, h.held)
    }

    ghost predicate Good()
      reads this, h, h.Repr
    {
      Arranged() && Flat(content, cs, h.held)
    }

    /** Clients carry both properties folded; mentioning `Unfolded` unfolds them. */
    ghost predicate Wf()
      reads this, h, h.Repr
    {
      h.Valid() && this !in h.Repr && forall z {:trigger Unfolded(z)} :: Unfolded(z) ==> Arranged()
    }

    ghost predicate IsFlat()
      reads this, h
    {
      forall z {:trigger Unfolded(z)} :: Unfolded(z) ==> Flat(content, cs, h.held)
    }

    ghost predicate Valid()
      reads this, h, h.Repr
    {
      Wf() && IsFlat()
    }

    constructor (f: Format, readable: bool, writable: bool, pathFails: nat -> bool)
      requires f.Lawful()
      ensures Valid() && fresh(h) && fresh(h.Repr) && content == [] && cs == saved == []
      ensures this.readable == readable && this.writable == writable
    {
      this.readable, this.writable, this.pathFails := readable, writable, pathFails;
      nextPath, cs, saved, content := 0, [], [], [];
      h := new Handles(f);
    }

    /** A chunk under a path that no blob has, unless none can be generated. */
    method NewFileChunk(newo: nat) returns (r: Option<FileChunk>)
      requires forall p {:trigger p in h.held} :: p in h.held ==> p < nextPath
      modifies this`nextPath
      ensures nextPath == old(nextPath) + 1
      ensures r.Some? ==> r.value.blobPath !in h.held
      ensures r == if pathFails(old(nextPath)) then None else Some(FileChunk(newo, 0, old(nextPath)))
    {
      if pathFails(nextPath) {
        r := None;
      } else {
        r := Some(FileChunk(newo, 0, nextPath));
      }
      nextPath := nextPath + 1;
    }

    /** Writes what fits into the first `maxChunkLen` bytes of a chunk. */
    method WriteToChunk(c: FileChunk, maxChunkLen: nat, p: bytes, offset: nat) returns (n: nat, length: nat)
      requires h.Valid() && this !in h.Repr
      requires c.Left() <= offset <= c.Left() + maxChunkLen && maxChunkLen <= CHUNK_SPLIT_SIZE
      modifies h.Repr
      ensures h.Valid() && fresh(h.Repr - old(h.Repr))
      ensures n == Min(|p|, maxChunkLen - (offset - c.Left()))
      ensures var before := if c.blobPath in old(h.held) then old(h.held)[c.blobPath] else [];
              h.held == old(h.held)[c.blobPath := Overwrite(before, p[..n], offset - c.Left())]
      ensures length == |h.held[c.blobPath]|
    {
      var coff := offset - c.Left();
      n := Min(|p|, maxChunkLen - coff);
      length := h.Write(c.blobPath, p[..n], coff);
    }

    /** The turn of the first loop at chunk `i`, which starts at or before the write position. */
    method WriteChunkTurn(i: nat, p: bytes, remo: nat) returns (n: nat)
      requires Good() && i < |cs| && p != [] && ChunkStart(i) <= remo
      modifies this`cs, this`content, h.Repr
      ensures Good() && fresh(h.Repr - old(h.Repr)) && |cs| == |old(cs)|
      ensures n == Max(0, Min(|p|, ChunkStart(i) + CHUNK_SPLIT_SIZE - remo))
      ensures content == Overwrite(old(content), p[..n], remo)
      ensures n == 0 ==> cs == old(cs)
    {
      FlatTurn(content, cs, h.held, i);
      var c := cs[i];
      var maxlen := CHUNK_SPLIT_SIZE;
      if i < |cs| - 1 {
        var next := cs[i + 1];
        if c.Left() + maxlen > next.Left() {
          maxlen := next.Left() - c.Left();
        }
      }
      if c.Left() + maxlen < remo {
        return 0;
      }
      var length;
      n, length := WriteToChunk(c, maxlen, p, remo);
      FlatWrite(content, cs, old(h.held), i, p[..n], remo);
      cs := cs[i := c.(length := length)];
      content := Overwrite(content, p[..n], remo);
      FlatDescribed(content, cs, h.held);
    }

    /**
     * The first loop of a write: everything that falls into chunks that exist. On a gap-free array no
     * chunk starts past the write position, so the branch that inserts a chunk is never taken.
     */
    method WriteExisting(p: bytes, offset: nat) returns (done: nat)
      requires Good() && p != []
      modifies this`cs, this`content, h.Repr
      ensures Good() && fresh(h.Repr - old(h.Repr)) && |cs| == |old(cs)|
      ensures done <= |p| && content == Overwrite(old(content), p[..done], offset)
      ensures done < |p| ==> ChunkStart(|cs|) <= offset + done
      ensures 0 < done < |p| ==> offset + done == ChunkStart(|cs|)
      ensures done == 0 ==> cs == old(cs)
      ensures done > 0 <==> offset < ChunkStart(|cs|)
    {
      done := 0;
      var i := 0;
      while i < |cs| && done < |p|
        invariant Good() && fresh(h.Repr - old(h.Repr)) && |cs| == |old(cs)|
        invariant 0 <= i <= |cs| && done <= |p|
        invariant content == Overwrite(old(content), p[..done], offset)
        invariant done < |p| ==> ChunkStart(i) <= offset + done
        invariant 0 < done < |p| ==> offset + done == ChunkStart(i)
        invariant done == 0 ==> cs == old(cs)
        invariant done > 0 <==> offset < ChunkStart(i)
      {
        var n := WriteChunkTurn(i, p[done..], offset + done);
        OverwriteOn(old(content), p, 0, done, n, offset);
        done := done + n;
        i := i + 1;
      }
    }

    /** One new chunk at the end, aligned down to the split size unless the last chunk is in the way. */
    method AppendChunk(p: bytes, remo: nat) returns (n: nat, ok: bool)
      requires Arranged() && p != [] && LastRight(cs) <= remo
      modifies this`cs, this`nextPath, h.Repr
      ensures Arranged() && fresh(h.Repr - old(h.Repr))
      ensures !ok ==> cs == old(cs) && h.held == old(h.held) && pathFails(old(nextPath))
      ensures ok ==> n == Min(|p|, ChunkStart(ChunkIndex(remo)) + CHUNK_SPLIT_SIZE - remo)
      ensures ok ==>
                var newo := Max(ChunkStart(ChunkIndex(remo)), LastRight(old(cs)));
                var now := Overwrite([], p[..n], remo - newo);
                && old(nextPath) !in old(h.held)
                && h.held == old(h.held)[old(nextPath) := now]
                && cs == old(cs) + [FileChunk(newo, |now|, old(nextPath))]
    {
      var newo := ChunkStart(ChunkIndex(remo));
      var maxlen := CHUNK_SPLIT_SIZE;
      if |cs| > 0 {
        var lastRight := cs[|cs| - 1].Right();
        if newo < lastRight {
          maxlen := maxlen - (lastRight - newo);
          newo := lastRight;
        }
      }
      var r := NewFileChunk(newo);
      if r == None {
        return 0, false;
      }
      var newc := r.value;
      var length;
      n, length := WriteToChunk(newc, maxlen, p, remo);
      newc := newc.(length := length);
      AppendDescribed(cs, old(h.held), newc, h.held);
      cs := cs + [newc];
      ok := true;
    }

    /** A turn of the second loop. `flat` says that the file is gap-free and the turn starts its next chunk. */
    method AppendTurn(p: bytes, x: nat, ghost flat: bool) returns (n: nat, ok: bool)
      requires Arranged() && p != [] && LastRight(cs) <= x
      requires flat ==> Flat(content, cs, h.held) && StartsChunk(content, cs, x)
      modifies this`cs, this`content, this`nextPath, h.Repr
      ensures Arranged() && fresh(h.Repr - old(h.Repr))
      ensures !ok ==> cs == old(cs) && content == old(content) && h.held == old(h.held) && pathFails(old(nextPath))
      ensures ok ==> 0 < n <= |p| && Extended(old(cs), cs, x) && LastRight(cs) == x + n
      ensures ok && flat ==> Flat(content, cs, h.held) && content == Overwrite(old(content), p[..n], x)
      ensures ok && flat && n < |p| ==> StartsChunk(content, cs, x + n)
    {
      ghost var held, before := h.held, cs;
      n, ok := AppendChunk(p, x);
      if ok {
        NextChunk(x, n, |p|);
        assert |p[..n]| == n;
        if flat {
          FlatDescribed(content, before, held);
          FlatAppend(content, before, held, cs[|before|].blobPath, p[..n], x);
          content := Overwrite(content, p[..n], x);
        }
      }
    }

    /** The second loop of a write: new chunks for what is left. */
    method AppendChunks(p: bytes, offset: nat, done0: nat) returns (done: nat, ok: bool)
      requires Arranged() && done0 <= |p| && (done0 < |p| ==> LastRight(cs) <= offset + done0)
      modifies this`cs, this`content, this`nextPath, h.Repr
      ensures Arranged() && fresh(h.Repr - old(h.Repr))
      ensures done0 <= done <= |p| && (ok <==> done == |p|) && (!ok ==> exists k :: pathFails(k))
      ensures done0 == done ==> cs == old(cs) && content == old(content) && h.held == old(h.held)
      ensures old(Good()) && (done0 < |p| ==> StartsChunk(old(content), old(cs), offset + done0)) ==>
                Flat(content, cs, h.held) && content == Overwrite(old(content), p[done0..done], offset + done0)
      ensures done0 < done ==> Extended(old(cs), cs, offset + done0)
    {
      ghost var flat := Good() && (done0 < |p| ==> StartsChunk(content, cs, offset + done0));
      done := done0;
      assert p[done0..done0] == [];
      while done < |p|
        invariant Arranged() && fresh(h.Repr - old(h.Repr))
        invariant done0 <= done <= |p| && (done < |p| ==> LastRight(cs) <= offset + done)
        invariant done0 == done ==> cs == old(cs) && content == old(content) && h.held == old(h.held)
        invariant flat ==>
                    Flat(content, cs, h.held) && content == Overwrite(old(content), p[done0..done], offset + done0)
        invariant flat && done < |p| ==> StartsChunk(content, cs, offset + done)
        invariant done0 < done ==> Extended(old(cs), cs, offset + done0)
      {
        var n;
        n, ok := AppendTurn(p[done..], offset + done, flat);
        if !ok {
          return;
        }
        OverwriteOn(old(content), p, done0, done, n, offset + done0);
        done := done + n;
      }
      ok := true;
    }

    /** Both loops of a non-empty write. */
    method WriteLoops(p: bytes, offset: nat) returns (ok: bool, ghost done: nat)
      requires Good() && p != []
      modifies this`cs, this`content, this`nextPath, h.Repr
      ensures Arranged() && fresh(h.Repr - old(h.Repr))
      ensures done <= |p| && (ok <==> done == |p|) && (!ok ==> exists k :: pathFails(k))
      ensures InReach(|old(content)|, offset) || done == 0 ==>
                Flat(content, cs, h.held) && content == Overwrite(old(content), p[..done], offset)
      ensures !InReach(|old(content)|, offset) && done > 0 ==>
                Extended(old(cs), cs, offset) && cs[|old(cs)|].offset > |old(content)|
    {
      FlatDescribed(content, cs, h.held);
      var n := WriteExisting(p, offset);
      FlatDescribed(content, cs, h.held);
      Reach(old(content), content, p, offset, n, |cs|);
      var m;
      m, ok := AppendChunks(p, offset, n);
      OverwriteOn(old(content), p, 0, n, m - n, offset);
      done := m;
    }

    /**
     * A write in reach keeps the array gap-free and does to the file what a positioned write does; if a
     * blob path cannot be generated, a prefix of it. A write out of reach leaves a gap before its chunk.
     */
    method PWrite(p: bytes, offset: nat) returns (ok: bool, ghost done: nat)
      requires Valid()
      modifies this, h.Repr
      ensures Wf() && fresh(h.Repr - old(h.Repr))
      ensures done <= |p| && (ok <==> writable && done == |p|)
      ensures !ok ==> !writable || exists k :: pathFails(k)
      ensures !writable ==> done == 0
      ensures InReach(|old(content)|, offset) || done == 0 ==>
                IsFlat() && content == Overwrite(old(content), p[..done], offset)
      ensures !InReach(|old(content)|, offset) && done > 0 ==>
                Extended(old(cs), cs, offset) && cs[|old(cs)|].offset > |old(content)|
      ensures ok && old(saved) == old(cs) ==> saved == cs
    {
      assert p[..0] == [] && Unfolded(0);
      if !writable {
        return false, 0;
      }
      if |p| == 0 {
        return true, 0;
      }
      var before := cs;
      ok, done := WriteLoops(p, offset);
      if ok && cs != before {
        saved := cs;
      }
    }

    method ReadFromChunk(c: FileChunk, len: nat, coff: nat) returns (data: bytes)
      requires h.Valid() && Known(c, h.held) && coff <= c.length
      modifies h.Repr
      ensures h.Valid() && fresh(h.Repr - old(h.Repr)) && h.held == old(h.held)
      ensures |data| == Min(len, c.length - coff) && data == h.held[c.blobPath][coff..coff + |data|]
    {
      data := h.Read(c.blobPath, Min(len, c.length - coff), coff);
    }

    /** Fills the buffer from `pos` on with what chunk `c` has; across a gap the position moves, the buffer does not. */
    method ReadTurn(c: FileChunk, buf: bytes, pos: nat, remo: nat) returns (data: bytes, buf': bytes, remo': nat)
      requires h.Valid() && Known(c, h.held)
      requires pos < |buf| && c.Left() <= remo + (|buf| - pos) && c.Right() > remo
      modifies h.Repr
      ensures h.Valid() && fresh(h.Repr - old(h.Repr)) && h.held == old(h.held)
      ensures var coff := Max(0, remo - c.Left());
              0 < |data| == Min(|buf| - pos, c.length - coff) && data == h.held[c.blobPath][coff..coff + |data|]
      ensures |buf'| == |buf| && buf'[..pos + |data|] == buf[..pos] + data
      ensures remo' == Max(remo, Min(c.Left(), remo + (|buf| - pos))) + |data|
    {
      buf', remo' := buf, remo;
      var coff := remo - c.Left();
      if coff < 0 {
        var zeros := Min(|buf| - pos, -coff);
        buf' := buf'[..pos] + Zeros(zeros) + buf'[pos + zeros..];
        remo' := remo' + zeros;
        coff := 0;
      }
      data := ReadFromChunk(c, |buf| - pos, coff);
      assert buf'[..pos] == buf[..pos];
      buf' := buf'[..pos] + data + buf'[pos + |data|..];
      remo' := remo' + |data|;
    }

    /** What a read has got before its turn at chunk `i`: `pos` bytes of `buf`, having first met chunk `hit`. */
    ghost predicate Progress(i: nat, hit: nat, offset: nat, remo: nat, pos: nat, buf: bytes)
      reads this, h
    {
      Progressed(content, cs, h.held, i, hit, offset, remo, pos, buf)
    }

    /** The turn of a read at chunk `k`. */
    method ReadStep(k: nat, ghost hit: nat, ghost offset: nat, remo: nat, pos: nat, buf: bytes)
      returns (stop: bool, ghost hit': nat, remo': nat, pos': nat, buf': bytes)
      requires Arranged() && k < |cs| && pos < |buf| && Progress(k, hit, offset, remo, pos, buf)
      modifies h.Repr
      ensures Arranged() && fresh(h.Repr - old(h.Repr)) && h.held == old(h.held) && |buf'| == |buf|
      ensures Progress(if stop then k else k + 1, hit', offset, remo', pos', buf')
      ensures stop ==> cs[k].Left() > remo' + (|buf'| - pos')
    {
      assert Known(cs[k], h.held);
      hit', remo', pos', buf' := hit, remo, pos, buf;
      var c := cs[k];
      stop := c.Left() > remo + (|buf| - pos);
      if stop {
        return;
      }
      if c.Right() <= remo {
        if Flat(content, cs, h.held) { FlatSkip(content, cs, h.held, k, offset, remo, buf[..pos], |buf|); }
        return;
      }
      var data;
      data, buf', remo' := ReadTurn(c, buf, pos, remo);
      pos' := pos + |data|;
      hit' := if pos == 0 then k else hit;
      TurnProgressed(content, cs, h.held, k, hit, offset, remo, pos, buf, data, buf', remo');
    }

    /** The loop of a read, over the chunks before the `i`-th. */
    method ReadLoop(len: nat, offset: nat) returns (remo: nat, buf: bytes, ghost pos: nat, ghost i: nat, ghost hit: nat)
      requires Arranged()
      modifies h.Repr
      ensures Arranged() && fresh(h.Repr - old(h.Repr)) && h.held == old(h.held)
      ensures |buf| == len && Progress(i, hit, offset, remo, pos, buf)
      ensures i == |cs| || pos == len || cs[i].Left() > remo + (len - pos)
    {
      buf := Zeros(len); // whatever the caller's buffer held
      var k: nat, at: nat := 0, 0;
      remo, hit := offset, 0;
      while k < |cs| && at < len
        invariant Arranged() && fresh(h.Repr - old(h.Repr)) && h.held == old(h.held)
        invariant |buf| == len && Progress(k, hit, offset, remo, at, buf)
      {
        var stop;
        stop, hit, remo, at, buf := ReadStep(k, hit, offset, remo, at, buf);
        if stop {
          break;
        }
        k := k + 1;
      }
      pos, i := at, k;
    }

    /**
     * Fills a buffer of `len` bytes. On a gap-free array the count and the bytes are those of the flat
     * file. A one-byte read of the last byte of a gap before chunk `gap` counts two.
     */
    method ReadAt(len: nat, offset: int, ghost gap: nat) returns (n: nat, buf: bytes, ok: bool)
      requires Wf()
      modifies h.Repr
      ensures Wf() && fresh(h.Repr - old(h.Repr)) && h.held == old(h.held)
      ensures ok <==> offset >= 0 && readable
      ensures |buf| == len && (!ok ==> n == 0)
      ensures old(IsFlat()) ==> IsFlat() && (ok ==> n <= len && buf[..n] == FlatRead(content, offset, len))
      ensures ok && len == 1 && gap < |cs| && InGap(cs, gap, offset) ==> n == 2
    {
      assert Unfolded(0);
      if offset < 0 || !readable {
        return 0, Zeros(len), false;
      }
      var remo;
      ghost var pos, i, hit;
      remo, buf, pos, i, hit := ReadLoop(len, offset);
      if gap < |cs| && InGap(cs, gap, offset) {
        BeforeGap(cs, h.held, gap, offset);
      }
      if Flat(content, cs, h.held) { FlatRest(content, cs, h.held, i, offset, remo, buf[..pos], len); }
      n, ok := remo - offset, true;
    }

    method Size() returns (size: nat)
      requires Valid()
      ensures size == |content|
    {
      assert Unfolded(0);
      if |cs| == 0 {
        return 0;
      }
      FlatDescribed(content, cs, h.held);
      size := cs[|cs| - 1].Right();
    }
  }

  /**
   * `InReach` is exact: whenever a write out of reach stores anything, the array no longer reads like a
   * file: a one-byte read of the position before its chunk counts two bytes.
   */
  method MisreadAfterGap(cfio: ChunkedFileIO, p: bytes, offset: nat) returns (wrote: bool, n: nat)
    requires cfio.Valid() && cfio.readable && cfio.writable
    requires !InReach(|cfio.content|, offset) && p != []
    modifies cfio, cfio.h.Repr
    ensures !wrote ==> exists k :: cfio.pathFails(k)
    ensures wrote ==> n == 2 && !cfio.IsFlat()
  {
    assert Unfolded(0);
    FlatDescribed(cfio.content, cfio.cs, cfio.h.held);
    ghost var m := |cfio.cs|;
    var ok;
    ghost var done;
    ok, done := cfio.PWrite(p, offset);
    wrote := ok;
    n := 0;
    if ok {
      var buf;
      n, buf, ok := cfio.ReadAt(1, ChunkStart(ChunkIndex(offset)) - 1, m);
    }
  }
}
