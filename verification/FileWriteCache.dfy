/** The write cache of an open file (filewritecache/filewritecache.go), in front of its chunked file. */
module FileWriteCache {
  import opened Bytes
  import opened Patches
  import opened Overlay
  import opened ChunkedFile

  const MAX_PATCHES: nat := 32
  const MAX_PATCH_CONTENT_LEN: nat := 8 * 1024 * 1024

  /** Every pending byte's chunk starts at or before the end of the backing file, or right after a pending byte. */
  ghost predicate Backed(ps: seq<Patch>, size: nat, x: nat)
  {
    var s := ChunkStart(ChunkIndex(x));
    s <= size || ByteAt(ps, s - 1).Some?
  }

  /** Writing the patches back in order never writes out of reach. */
  ghost predicate Reaching(ps: seq<Patch>, size: nat)
  {
    forall x: nat {:trigger Backed(ps, size, x)} :: ByteAt(ps, x).Some? ==> Backed(ps, size, x)
  }

  /** Between the end of the backing file and a pending byte, every chunk boundary comes right after a pending byte. */
  lemma {:induction false} ReachingBoundary(ps: seq<Patch>, size: nat, y: nat, k: nat)
    requires Reaching(ps, size) && ByteAt(ps, y).Some?
    requires size < ChunkStart(k) <= y + 1
    ensures ByteAt(ps, ChunkStart(k) - 1).Some?
    decreases y
  {
    if ChunkStart(k) <= y {
      assert Backed(ps, size, y);
      if ChunkIndex(y) != k { ReachingBoundary(ps, size, ChunkStart(ChunkIndex(y)) - 1, k); }
    }
  }

  /** A write in reach of the logical file keeps the list reaching. */
  lemma ReachingMerge(ps: seq<Patch>, size: nat, newp: Patch, ps': seq<Patch>)
    requires Valid(ps) && Reaching(ps, size) && newp.offset >= 0 && |newp.p| > 0
    requires forall x :: ByteAt(ps', x) == if newp.Covers(x) then Some(newp.Byte(x)) else ByteAt(ps, x)
    requires InReach(Max(size, PendingRight(ps)), newp.offset)
    ensures Reaching(ps', size)
  {
    forall x: nat | ByteAt(ps', x).Some? ensures Backed(ps', size, x) {
      var k := ChunkIndex(x);
      if newp.Covers(x) {
        if ChunkStart(k) > newp.offset {
          assert newp.Covers(ChunkStart(k) - 1);
        } else {
          assert k == ChunkIndex(newp.offset);
          if ChunkStart(k) > size {
            PendingBounds(ps, 0);
            ReachingBoundary(ps, size, PendingRight(ps) - 1, k);
          }
        }
      } else {
        assert Backed(ps, size, x);
      }
    }
  }

  lemma ReachingGrows(ps: seq<Patch>, size: nat, size': nat)
    requires Reaching(ps, size) && size <= size'
    ensures Reaching(ps, size')
  {
    forall x: nat | ByteAt(ps, x).Some? ensures Backed(ps, size', x) { assert Backed(ps, size, x); }
  }

  lemma NonNegativeMerge(ps: seq<Patch>, newp: Patch, ps': seq<Patch>)
    requires Valid(ps) && Valid(ps') && NonNegative(ps) && newp.offset >= 0
    requires forall x :: ByteAt(ps', x) == if newp.Covers(x) then Some(newp.Byte(x)) else ByteAt(ps, x)
    ensures NonNegative(ps')
  {
    forall i | 0 <= i < |ps'| ensures ps'[i].offset >= 0 {
      if i < |ps'| - 1 {
        ByteAtSome(ps', i, ps'[i].offset);
        if ps'[i].offset < 0 { ByteAtNone(ps, ps'[i].offset); }
      }
    }
  }

  /** The patches `ps[a..i]` touch and together are the run `run`. */
  ghost predicate IsRun(ps: seq<Patch>, a: nat, i: nat, run: Patch)
    requires a < i <= |ps|
  {
    && |run.p| > 0 && run.offset == ps[a].offset && run.Right() == ps[i - 1].Right()
    && forall x {:trigger ByteAt([run], x)} :: ByteAt([run], x) == ByteAt(ps[a..i], x)
  }

  lemma RunStart(ps: seq<Patch>, i: nat)
    requires i < |ps| && |ps[i].p| > 0
    ensures IsRun(ps, i, i + 1, ps[i])
  {
    assert ps[i..i + 1] == [ps[i]];
  }

  lemma RunGrow(ps: seq<Patch>, a: nat, i: nat, run: Patch)
    requires a < i < |ps| && IsRun(ps, a, i, run) && ps[i].offset == run.Right()
    ensures IsRun(ps, a, i + 1, Patch(run.offset, run.p + ps[i].p))
  {
    var both := Patch(run.offset, run.p + ps[i].p);
    assert ps[a..i + 1] == ps[a..i] + [ps[i]];
    forall x ensures ByteAt([both], x) == ByteAt(ps[a..i + 1], x) {
      JoinMeaning(run, ps[i], x);
      ByteAtConcat([run], [ps[i]], x);
      ByteAtConcat(ps[a..i], [ps[i]], x);
    }
  }

  /** Where a run covers a position the whole list does, with the same byte. */
  lemma RunCovers(ps: seq<Patch>, a: nat, i: nat, run: Patch, x: int)
    requires Valid(ps) && a < i < |ps| && IsRun(ps, a, i, run)
    ensures run.Covers(x) ==> ByteAt(ps, x) == Some(run.Byte(x)) && ByteAt(ps[..a], x) == None
    ensures ByteAt(ps[..i], x) == if run.Covers(x) then Some(run.Byte(x)) else ByteAt(ps[..a], x)
  {
    assert ps[..i] == ps[..a] + ps[a..i];
    assert ps == ps[..i] + ps[i..];
    ByteAtConcat(ps[..a], ps[a..i], x);
    ByteAtConcat(ps[..i], ps[i..], x);
    ByteAtOne(run, x);
    assert ByteAt([run], x) == ByteAt(ps[a..i], x);
    if run.Covers(x) {
      forall j | 0 <= j < a ensures !ps[..a][j].Covers(x) { assert ps[j].Right() <= ps[a].Left(); }
      ByteAtNone(ps[..a], x);
    }
  }

  /** Writing a run back, even partly, changes only pending bytes; completely, it lands it. */
  lemma RunWritten(base: bytes, now: bytes, ps: seq<Patch>, a: nat, i: nat, run: Patch, done: nat)
    requires Valid(ps) && NonNegative(ps) && a < i < |ps| && IsRun(ps, a, i, run) && done <= |run.p|
    requires Absorbed(base, now, ps) && Landed(now, ps[..a])
    ensures run.offset >= 0 && Absorbed(base, Overwrite(now, run.p[..done], run.offset), ps)
    ensures done == |run.p| ==> Landed(Overwrite(now, run.p[..done], run.offset), ps[..i])
  {
    var now' := Overwrite(now, run.p[..done], run.offset);
    assert ps[i - 1].Right() <= PendingRight(ps) by {
      if i - 1 < |ps| - 2 { assert ps[i - 1].Right() <= ps[|ps| - 2].Left(); }
    }
    forall x | 0 <= x ensures At(now', x) == At(base, x) || ByteAt(ps, x).Some? {
      RunCovers(ps, a, i, run, x);
      assert At(now, x) == At(base, x) || ByteAt(ps, x).Some?;
    }
    if done == |run.p| {
      forall x | ByteAt(ps[..i], x).Some? ensures x < |now'| && At(now', x) == ByteAt(ps[..i], x).value {
        RunCovers(ps, a, i, run, x);
      }
    }
  }

  /** A pending byte before patch `a` begins is pending in the patches before it. */
  lemma PendingBefore(ps: seq<Patch>, a: nat, y: int)
    requires Valid(ps) && a < |ps| && y < ps[a].Left() && ByteAt(ps, y).Some?
    ensures ByteAt(ps[..a], y).Some?
  {
    assert ps == ps[..a] + ps[a..];
    ByteAtConcat(ps[..a], ps[a..], y);
    forall j | 0 <= j < |ps[a..]| ensures !ps[a..][j].Covers(y) {
      assert j > 0 ==> ps[a].Right() <= ps[a + j].Left();
    }
    ByteAtNone(ps[a..], y);
  }

  /** When everything before a run has landed, the run is in reach. */
  lemma RunInReach(base: bytes, now: bytes, ps: seq<Patch>, a: nat, i: nat, run: Patch)
    requires Valid(ps) && NonNegative(ps) && a < i < |ps| && IsRun(ps, a, i, run)
    requires Reaching(ps, |base|) && |base| <= |now| && Landed(now, ps[..a])
    ensures run.offset >= 0 && InReach(|now|, run.offset)
  {
    assert run.Covers(run.offset);
    RunCovers(ps, a, i, run, run.offset);
    assert Backed(ps, |base|, run.offset);
    var s := ChunkStart(ChunkIndex(run.offset));
    if s > |base| { PendingBefore(ps, a, s - 1); }
  }

  ghost predicate ListOk(ps: seq<Patch>)
  {
    Valid(ps) && Small(ps) && NonNegative(ps)
  }

  /** `ListOk`, carried folded; mentioning `Unfolded` unfolds it, as it does the other folded predicates below. */
  ghost predicate Listed(ps: seq<Patch>)
  {
    |ps| > 0 && forall z {:trigger Unfolded(z)} :: Unfolded(z) ==> ListOk(ps)
  }

  /** What a read has got before its turn at patch `i`: right so far, and past every earlier patch. */
  ghost predicate Got(base: bytes, ps: seq<Patch>, i: nat, offset: int, data: bytes, len: nat)
    requires |ps| > 0
  {
    && ListOk(ps)
    && i < |ps| && |data| <= len && offset + len <= MAX_INT64
    && Reads(Overlaid(base, ps), offset, data)
    && (|data| < len ==> forall j {:trigger ps[j]} :: 0 <= j < i ==> ps[j].Right() <= offset + |data|)
    && (data != [] ==> 0 <= offset && offset + |data| <= |Overlaid(base, ps)|)
  }

  ghost predicate ReadTo(base: bytes, ps: seq<Patch>, i: nat, offset: int, data: bytes, len: nat)
    requires |ps| > 0
  {
    forall z {:trigger Unfolded(z)} :: Unfolded(z) ==> Got(base, ps, i, offset, data, len)
  }

  lemma ReadStart(base: bytes, ps: seq<Patch>, offset: int, len: nat)
    requires Listed(ps) && offset + len <= MAX_INT64
    ensures ReadTo(base, ps, 0, offset, [], len)
  {
  }

  /** The facts a turn at patch `i`, not the sentinel, relies on. */
  lemma ReadTurn(base: bytes, ps: seq<Patch>, i: nat, offset: int, data: bytes, len: nat)
    requires |ps| > 0 && i < |ps| && ReadTo(base, ps, i, offset, data, len) && |data| < len && !ps[i].IsSentinel()
    ensures 0 <= ps[i].Left() && |ps[i].p| <= MAX_INT32 && (offset < 0 ==> data == [])
    ensures i + 1 < |ps| && (ps[i].Right() < offset + |data| ==> ReadTo(base, ps, i + 1, offset, data, len))
  {
    assert Unfolded(0);
    SentinelLast(ps, i);
  }

  /** `d` is what a file `l` has from `x` on. */
  ghost predicate Reads(l: bytes, x: int, d: bytes)
  {
    forall y {:trigger d[y]} :: 0 <= y < |d| ==> d[y] == At(l, x + y)
  }

  lemma ReadsJoin(l: bytes, x: int, d: bytes, e: bytes)
    requires Reads(l, x, d) && Reads(l, x + |d|, e)
    ensures Reads(l, x, d + e)
  {
    forall y | 0 <= y < |d + e| ensures (d + e)[y] == At(l, x + y) {
      if y >= |d| { assert e[y - |d|] == At(l, x + |d| + (y - |d|)); }
    }
  }

  lemma ReadsFlat(l: bytes, x: nat, d: bytes, len: nat)
    requires Reads(l, x, d) && |d| <= len && x + |d| <= |l|
    ensures d <= FlatRead(l, x, len)
    ensures |d| == len || x + |d| == |l| ==> d == FlatRead(l, x, len)
  {
  }

  /** No patch ends past `PendingRight`. */
  lemma PatchEnds(ps: seq<Patch>, i: nat)
    requires Valid(ps) && i < |ps| - 1
    ensures ps[i].Right() <= PendingRight(ps)
  {
    if i < |ps| - 2 { assert ps[i].Right() <= ps[|ps| - 2].Left(); }
  }

  /** Bytes of the backing file between patch `i` and the one before it are bytes of the logical file. */
  lemma GapBytes(base: bytes, ps: seq<Patch>, i: nat, x: nat, out: bytes)
    requires Valid(ps) && i < |ps| && x + |out| <= ps[i].Left() && x + |out| <= |Overlaid(base, ps)|
    requires forall j {:trigger ps[j]} :: 0 <= j < i ==> ps[j].Right() <= x
    requires Reads(base, x, out)
    ensures Reads(Overlaid(base, ps), x, out)
  {
    forall y | 0 <= y < |out| ensures out[y] == At(Overlaid(base, ps), x + y) {
      ByteAtIndex(ps, i, x + y);
    }
  }

  /** Bytes of patch `i` are bytes of the logical file. */
  lemma PatchBytes(base: bytes, ps: seq<Patch>, i: nat, at: nat, n: nat)
    requires Valid(ps) && i < |ps| - 1 && at + n <= |ps[i].p| && 0 <= ps[i].offset
    ensures Reads(Overlaid(base, ps), ps[i].offset + at, ps[i].p[at..at + n])
  {
    PatchEnds(ps, i);
    var part := ps[i].p[at..at + n];
    forall y | 0 <= y < n ensures part[y] == At(Overlaid(base, ps), ps[i].offset + at + y) {
      assert ps[i].Covers(ps[i].offset + at + y);
      ByteAtSome(ps, i, ps[i].offset + at + y);
    }
  }

  /** Bytes taken from the backing file before patch `i` begins. */
  lemma ReadFallback(base: bytes, ps: seq<Patch>, i: nat, offset: int, data: bytes, len: nat, out: bytes)
    requires |ps| > 0 && ReadTo(base, ps, i, offset, data, len) && i < |ps| - 1 && |data| < len
    requires 0 <= offset + |data| && 0 < |out| == Min(len - |data|, ps[i].Left() - (offset + |data|))
    requires Reads(base, offset + |data|, out)
    ensures ReadTo(base, ps, i, offset, data + out, len)
  {
    assert Unfolded(0);
    PatchEnds(ps, i);
    GapBytes(base, ps, i, offset + |data|, out);
    ReadsJoin(Overlaid(base, ps), offset, data, out);
  }

  /** Bytes taken from patch `i`. */
  lemma ReadApply(base: bytes, ps: seq<Patch>, i: nat, offset: int, data: bytes, len: nat, n: nat)
    requires |ps| > 0 && ReadTo(base, ps, i, offset, data, len) && i < |ps| - 1 && |data| < len
    requires ps[i].Left() <= offset + |data| <= ps[i].Right()
    requires n == Min(ps[i].Right() - (offset + |data|), len - |data|)
    ensures var at := offset + |data| - ps[i].offset;
            ReadTo(base, ps, i + 1, offset, data + ps[i].p[at..at + n], len)
  {
    assert Unfolded(0);
    var at := offset + |data| - ps[i].offset;
    PatchEnds(ps, i);
    PatchBytes(base, ps, i, at, n);
    ReadsJoin(Overlaid(base, ps), offset, data, ps[i].p[at..at + n]);
  }

  /** What is got is a prefix of what should be got; with a full buffer it is all of it. */
  lemma ReadPart(base: bytes, ps: seq<Patch>, i: nat, offset: int, data: bytes, len: nat)
    requires |ps| > 0 && ReadTo(base, ps, i, offset, data, len)
    ensures offset >= 0 ==> data <= FlatRead(Overlaid(base, ps), offset, len)
    ensures offset >= 0 && |data| == len ==> data == FlatRead(Overlaid(base, ps), offset, len)
  {
    assert Unfolded(0);
    if offset >= 0 && data != [] {
      ReadsFlat(Overlaid(base, ps), offset, data, len);
    }
  }

  /** Past every patch, the rest of the logical file is the rest of the backing file. */
  lemma ReadLast(base: bytes, ps: seq<Patch>, i: nat, offset: int, data: bytes, len: nat)
    requires i < |ps| && ps[i].IsSentinel() && ReadTo(base, ps, i, offset, data, len) && |data| < len
    ensures offset < 0 ==> data == []
    ensures offset >= 0 ==>
              data + FlatRead(base, offset + |data|, len - |data|) == FlatRead(Overlaid(base, ps), offset, len)
  {
    assert Unfolded(0);
    SentinelLast(ps, i);
    if offset >= 0 {
      assert |ps| > 1 ==> PendingRight(ps) <= offset + |data|;
      RestBytes(base, ps, i, offset, data, len);
    }
  }

  lemma RestBytes(base: bytes, ps: seq<Patch>, i: nat, offset: nat, data: bytes, len: nat)
    requires i == |ps| - 1 && Got(base, ps, i, offset, data, len) && |data| < len && PendingRight(ps) <= offset + |data|
    ensures data + FlatRead(base, offset + |data|, len - |data|) == FlatRead(Overlaid(base, ps), offset, len)
  {
    var rest := FlatRead(base, offset + |data|, len - |data|);
    if rest != [] {
      GapBytes(base, ps, i, offset + |data|, rest);
      ReadsJoin(Overlaid(base, ps), offset, data, rest);
      ReadsFlat(Overlaid(base, ps), offset, data + rest, len);
    } else if data != [] {
      ReadsFlat(Overlaid(base, ps), offset, data, len);
    }
  }

  /**
   * Where writing back stands before patch `i`: everything but the gathered run, which started at patch
   * `a`, has landed, and the writes still to make complete the runs. After the sentinel all is written.
   */
  ghost predicate Written(base: bytes, now: bytes, ps: seq<Patch>, i: nat, a: nat, cont: Patch, writes: seq<Patch>)
    requires |ps| > 0
  {
    && ListOk(ps) && Reaching(ps, |base|)
    && Absorbed(base, now, ps)
    && (0 < i < |ps| ==> && a < i && IsRun(ps, a, i, cont) && Landed(now, ps[..a])
                         && writes + RunsFrom(cont, ps[i..]) == Runs(ps))
    && (i == |ps| ==> Landed(now, ps) && writes == Runs(ps))
    && (i == 0 ==> writes == [])
  }

  ghost predicate SyncAt(base: bytes, now: bytes, ps: seq<Patch>, i: nat, a: nat, cont: Patch, writes: seq<Patch>)
    requires |ps| > 0
  {
    forall z {:trigger Unfolded(z)} :: Unfolded(z) ==> Written(base, now, ps, i, a, cont, writes)
  }

  lemma SyncStart(base: bytes, ps: seq<Patch>)
    requires Listed(ps) && Reaching(ps, |base|)
    ensures SyncAt(base, base, ps, 0, 0, SENTINEL, [])
  {
  }

  lemma SyncFirst(base: bytes, now: bytes, ps: seq<Patch>, cont: Patch, writes: seq<Patch>)
    requires |ps| > 0 && SyncAt(base, now, ps, 0, 0, cont, writes)
    ensures SyncAt(base, now, ps, 1, 0, ps[0], writes)
  {
    assert Unfolded(0);
    SentinelLast(ps, 0);
    if |ps| == 1 {
      forall x ensures ByteAt(ps, x) == None { ByteAtNone(ps, x); }
    } else {
      RunStart(ps, 0);
      assert ps[..0] == [];
      assert ps[0..][1..] == ps[1..];
    }
  }

  lemma SyncGrow(base: bytes, now: bytes, ps: seq<Patch>, i: nat, a: nat, cont: Patch, writes: seq<Patch>)
    requires 0 < i < |ps| && SyncAt(base, now, ps, i, a, cont, writes)
    requires !ps[i].IsSentinel() && ps[i].offset == cont.Right()
    ensures SyncAt(base, now, ps, i + 1, a, Patch(cont.offset, cont.p + ps[i].p), writes)
  {
    assert Unfolded(0);
    SentinelLast(ps, i);
    RunGrow(ps, a, i, cont);
    assert ps[i..][1..] == ps[i + 1..];
  }

  /** The gathered run is in reach. */
  lemma FlushReady(base: bytes, now: bytes, ps: seq<Patch>, i: nat, a: nat, cont: Patch, writes: seq<Patch>)
    requires 0 < i < |ps| && SyncAt(base, now, ps, i, a, cont, writes)
    ensures cont.offset >= 0 && InReach(|now|, cont.offset) && writes <= Runs(ps)
  {
    assert Unfolded(0);
    RunInReach(base, now, ps, a, i, cont);
    assert writes <= writes + RunsFrom(cont, ps[i..]);
  }

  /** Writing the gathered run leaves the logical file, and, when complete, moves writing back on. */
  lemma Flushed(base: bytes, now: bytes, ps: seq<Patch>, i: nat, a: nat, cont: Patch, writes: seq<Patch>, done: nat)
    requires 0 < i < |ps| && SyncAt(base, now, ps, i, a, cont, writes) && cont.offset >= 0 && done <= |cont.p|
    requires ps[i].IsSentinel() || ps[i].offset != cont.Right()
    ensures var now' := Overwrite(now, cont.p[..done], cont.offset);
            && Overlaid(now', ps) == Overlaid(base, ps) && |base| <= |now'|
            && (done == |cont.p| ==> SyncAt(base, now', ps, i + 1, i, ps[i], writes + [cont]))
  {
    assert Unfolded(0);
    var now' := Overwrite(now, cont.p[..done], cont.offset);
    RunWritten(base, now, ps, a, i, cont, done);
    AbsorbedSameFile(base, now', ps);
    if done == |cont.p| { RunsStep(base, now', ps, i, cont, writes); }
  }

  lemma RunsStep(base: bytes, now: bytes, ps: seq<Patch>, i: nat, cont: Patch, writes: seq<Patch>)
    requires ListOk(ps) && Reaching(ps, |base|) && 0 < i < |ps| && Absorbed(base, now, ps) && Landed(now, ps[..i])
    requires writes + RunsFrom(cont, ps[i..]) == Runs(ps)
    requires ps[i].IsSentinel() || ps[i].offset != cont.Right()
    ensures Written(base, now, ps, i + 1, i, ps[i], writes + [cont])
  {
    SentinelLast(ps, i);
    if i == |ps| - 1 {
      assert ps == ps[..i] + [SENTINEL];
      forall x ensures ByteAt(ps, x) == ByteAt(ps[..i], x) {
        ByteAtConcat(ps[..i], [SENTINEL], x);
        ByteAtOne(SENTINEL, x);
      }
    } else {
      RunStart(ps, i);
      assert ps[i..][1..] == ps[i + 1..];
      assert writes + ([cont] + RunsFrom(ps[i], ps[i + 1..])) == (writes + [cont]) + RunsFrom(ps[i], ps[i + 1..]);
    }
  }

  lemma SyncDone(base: bytes, now: bytes, ps: seq<Patch>, a: nat, cont: Patch, writes: seq<Patch>)
    requires |ps| > 0 && SyncAt(base, now, ps, |ps|, a, cont, writes)
    ensures now == Overlaid(base, ps) && writes == Runs(ps) && |base| <= |now|
  {
    assert Unfolded(0);
    AllLanded(base, now, ps);
  }

  /** Writing `p` at `offset` leaves no hole of a whole chunk after a backing file of `size` bytes and `ps`. */
  ghost predicate Reached(ps: seq<Patch>, size: nat, p: bytes, offset: nat)
    requires |ps| > 0
  {
    p == [] || InReach(Max(size, PendingRight(ps)), offset)
  }

  /** A merge from offset 0 up, seen from any backing file. */
  lemma Merged(ps: seq<Patch>, newp: Patch, ps': seq<Patch>)
    requires ListOk(ps) && Patches.Valid(ps') && newp.p != [] && 0 <= newp.offset
    requires Small(ps) && |newp.p| <= MAX_INT32 ==> Small(ps')
    requires forall x :: ByteAt(ps', x) == if newp.Covers(x) then Some(newp.Byte(x)) else ByteAt(ps, x)
    ensures |newp.p| <= MAX_INT32 ==> Listed(ps')
    ensures forall base :: Overlaid(base, ps') == Overwrite(Overlaid(base, ps), newp.p, newp.offset)
    ensures forall size: nat :: Reaching(ps, size) && InReach(Max(size, PendingRight(ps)), newp.offset)
              ==> Reaching(ps', size)
  {
    NonNegativeMerge(ps, newp, ps');
    forall base ensures Overlaid(base, ps') == Overwrite(Overlaid(base, ps), newp.p, newp.offset) {
      OverlaidMerge(base, ps, newp, ps');
    }
    forall size: nat | Reaching(ps, size) && InReach(Max(size, PendingRight(ps)), newp.offset)
      ensures Reaching(ps', size)
    {
      ReachingMerge(ps, size, newp, ps');
    }
  }

  class FileWriteCache {
    var ps: seq<Patch>

    ghost predicate Valid()
      reads this
    {
      Listed(ps)
    }

    constructor ()
      ensures Valid() && ps == [SENTINEL]
    {
      ps := [SENTINEL];
    }

    /**
     * The bytes written win over what was pending, wherever they lie. From offset 0 up, a cached write is a
     * positioned write to the logical file, whatever the backing file is.
     */
    method PWrite(p: bytes, offset: int)
      requires Valid() && offset + |p| <= MAX_INT64
      modifies this
      ensures Patches.Valid(ps) && |ps| <= |old(ps)| + 2
      ensures forall x ::
                ByteAt(ps, x) == if offset <= x < offset + |p| then Some(p[x - offset]) else ByteAt(old(ps), x)
      ensures 0 <= offset && |p| <= MAX_INT32 ==> Valid()
      ensures 0 <= offset ==> forall base :: Overlaid(base, ps) == Overwrite(Overlaid(base, old(ps)), p, offset)
      ensures forall size: nat ::
                0 <= offset && Reaching(old(ps), size) && Reached(old(ps), size, p, offset) ==> Reaching(ps, size)
    {
      assert Unfolded(0);
      if |p| == 0 {
        return;
      }
      var newp := Patch(offset, p);
      ps := Merge(ps, newp);
      if 0 <= offset { Merged(old(ps), newp, ps); }
    }

    /** Reads `len` bytes of the backing file at `remo`, zero where it has ended. */
    method ReadZeroFilled(r: ChunkedFileIO, remo: int, len: nat) returns (out: bytes, ok: bool)
      requires r.Valid()
      modifies r.h.Repr
      ensures r.Valid() && fresh(r.h.Repr - old(r.h.Repr)) && r.content == old(r.content)
      ensures ok <==> remo >= 0 && r.readable
      ensures ok ==> |out| == len && forall y :: 0 <= y < len ==> out[y] == At(r.content, remo + y)
    {
      var n, buf;
      n, buf, ok := r.ReadAt(len, remo, 0);
      out := [];
      if ok {
        out := buf[..n] + Zeros(len - n);
      }
    }

    /**
     * Reads the logical file: count and bytes are those of the patches over the backing file. When the
     * backing file cannot be read, what was got before that is right.
     */
    method ReadAtThrough(len: nat, offset: int, r: ChunkedFileIO) returns (data: bytes, ok: bool)
      requires Valid() && r.Valid() && this !in r.h.Repr && len <= MAX_INT32 && offset + len <= MAX_INT64
      modifies r.h.Repr
      ensures r.Valid() && fresh(r.h.Repr - old(r.h.Repr)) && r.content == old(r.content)
      ensures r.readable && (offset >= 0 || len == 0) ==> ok
      ensures offset < 0 && len > 0 ==> !ok && data == []
      ensures offset >= 0 ==> data <= FlatRead(Overlaid(r.content, ps), offset, len)
      ensures offset >= 0 && ok ==> data == FlatRead(Overlaid(r.content, ps), offset, len)
    {
      data := [];
      if len == 0 {
        return data, true; // the first turn of the loop, at the latest at the sentinel
      }
      ghost var i;
      data, ok, i := ReadPatches(len, offset, r);
      if !ok || |data| == len {
        return;
      }
      data, ok := ReadRest(len, offset, r, i, data);
    }

    /** The loop of a read, up to the sentinel. */
    method ReadPatches(len: nat, offset: int, r: ChunkedFileIO) returns (data: bytes, ok: bool, ghost at: nat)
      requires Valid() && r.Valid() && this !in r.h.Repr && 0 < len <= MAX_INT32 && offset + len <= MAX_INT64
      modifies r.h.Repr
      ensures r.Valid() && fresh(r.h.Repr - old(r.h.Repr)) && r.content == old(r.content)
      ensures |data| <= len && (r.readable && offset >= 0 ==> ok) && (offset < 0 ==> data == [])
      ensures offset >= 0 ==> data <= FlatRead(Overlaid(r.content, ps), offset, len)
      ensures offset >= 0 && ok && |data| == len ==> data == FlatRead(Overlaid(r.content, ps), offset, len)
      ensures ok && |data| < len ==> at < |ps| && ps[at].IsSentinel() && ReadTo(r.content, ps, at, offset, data, len)
    {
      data, ok := [], true;
      ReadStart(r.content, ps, offset, len);
      var i := 0;
      while !ps[i].IsSentinel()
        invariant r.Valid() && fresh(r.h.Repr - old(r.h.Repr)) && r.content == old(r.content)
        invariant 0 <= i < |ps| && |data| < len && ok
        invariant ReadTo(r.content, ps, i, offset, data, len)
        decreases |ps| - i
      {
        ReadTurn(r.content, ps, i, offset, data, len);
        if offset + |data| <= ps[i].Right() {
          data, ok := ReadPatch(len, offset, r, i, data);
          if !ok || |data| == len {
            return data, ok, i;
          }
        }
        i := i + 1;
      }
      ReadPart(r.content, ps, i, offset, data, len);
      ReadLast(r.content, ps, i, offset, data, len);
      at := i;
    }

    /** After all patches, a read takes the backing file. */
    method ReadRest(len: nat, offset: int, r: ChunkedFileIO, ghost i: nat, data0: bytes) returns (data: bytes, ok: bool)
      requires r.Valid() && this !in r.h.Repr && |data0| < len
      requires i < |ps| && ps[i].IsSentinel() && ReadTo(r.content, ps, i, offset, data0, len)
      modifies r.h.Repr
      ensures r.Valid() && fresh(r.h.Repr - old(r.h.Repr)) && r.content == old(r.content)
      ensures r.readable && offset >= 0 ==> ok
      ensures offset < 0 ==> !ok && data == []
      ensures offset >= 0 ==> data <= FlatRead(Overlaid(r.content, ps), offset, len)
      ensures offset >= 0 && ok ==> data == FlatRead(Overlaid(r.content, ps), offset, len)
    {
      ReadPart(r.content, ps, i, offset, data0, len);
      ReadLast(r.content, ps, i, offset, data0, len);
      var n, buf;
      n, buf, ok := r.ReadAt(len - |data0|, offset + |data0|, 0);
      data := if ok then data0 + buf[..n] else data0;
    }

    /** Up to where patch `i` begins, a read takes the backing file. */
    method ReadBefore(len: nat, offset: int, r: ChunkedFileIO, i: nat, data0: bytes) returns (data: bytes, ok: bool)
      requires r.Valid() && this !in r.h.Repr
      requires i + 1 < |ps| && |data0| < len && ReadTo(r.content, ps, i, offset, data0, len)
      requires offset + |data0| < ps[i].Left() && (offset < 0 ==> data0 == [])
      modifies r.h.Repr
      ensures r.Valid() && fresh(r.h.Repr - old(r.h.Repr)) && r.content == old(r.content)
      ensures ok <==> offset + |data0| >= 0 && r.readable
      ensures !ok ==> data == data0
      ensures ok ==> |data| == Min(len, ps[i].Left() - offset) && ReadTo(r.content, ps, i, offset, data, len)
    {
      var fallbackLen := Min(len - |data0|, ps[i].Left() - (offset + |data0|));
      var out;
      out, ok := ReadZeroFilled(r, offset + |data0|, fallbackLen);
      data := data0;
      if ok {
        ReadFallback(r.content, ps, i, offset, data0, len, out);
        data := data0 + out;
      }
    }

    /** The turn of a read at patch `i`: the backing file up to it, then the patch. */
    method ReadPatch(len: nat, offset: int, r: ChunkedFileIO, i: nat, data0: bytes) returns (data: bytes, ok: bool)
      requires Valid() && r.Valid() && this !in r.h.Repr && len <= MAX_INT32
      requires i + 1 < |ps| && |data0| < len && ReadTo(r.content, ps, i, offset, data0, len)
      requires 0 <= ps[i].Left() && |ps[i].p| <= MAX_INT32 && (offset < 0 ==> data0 == [])
      requires offset + |data0| <= ps[i].Right() && !ps[i].IsSentinel()
      modifies r.h.Repr
      ensures r.Valid() && fresh(r.h.Repr - old(r.h.Repr)) && r.content == old(r.content)
      ensures r.readable && offset >= 0 ==> ok
      ensures !ok ==> data == data0
      ensures offset < 0 ==> !ok
      ensures |data| <= len && (offset >= 0 ==> data <= FlatRead(Overlaid(r.content, ps), offset, len))
      ensures ok && |data| == len ==> data == FlatRead(Overlaid(r.content, ps), offset, len)
      ensures ok && |data| < len ==> ReadTo(r.content, ps, i + 1, offset, data, len)
    {
      data, ok := data0, true;
      if offset + |data| < ps[i].Left() {
        data, ok := ReadBefore(len, offset, r, i, data0);
      }
      ReadPart(r.content, ps, i, offset, data, len);
      if !ok || |data| == len {
        return;
      }
      assert offset + |data| - ps[i].offset <= MAX_INT32;
      data := data + ApplyPatch(r.content, i, offset, data, len);
      ReadPart(r.content, ps, i + 1, offset, data, len);
    }

    /** What patch `i` adds to a read that has reached it. */
    function ApplyPatch(ghost base: bytes, i: nat, offset: int, data: bytes, len: nat): (part: bytes)
      requires i + 1 < |ps| && ReadTo(base, ps, i, offset, data, len) && |data| < len
      requires ps[i].Left() <= offset + |data| <= ps[i].Right()
      reads this
      ensures ReadTo(base, ps, i + 1, offset, data + part, len)
    {
      var applyOffset := offset + |data| - ps[i].offset;
      var applyLen := Min(|ps[i].p| - applyOffset, len - |data|);
      ReadApply(base, ps, i, offset, data, len, applyLen);
      ps[i].p[applyOffset..applyOffset + applyLen]
    }

    method ContentLen() returns (l: nat)
      ensures l == PendingLen(ps)
    {
      l := 0;
      var i := 0;
      while i < |ps|
        invariant 0 <= i <= |ps| && l + PendingLen(ps[i..]) == PendingLen(ps)
      {
        assert ps[i..][1..] == ps[i + 1..];
        l := l + |ps[i].p|;
        i := i + 1;
      }
    }

    /** The end of the first patch, which is the end of what is pending exactly when there is one patch. */
    method Right() returns (r: int)
      ensures r == if ps == [] then 0 else ps[0].Right()
      ensures Valid() ==> (r == PendingRight(ps) <==> |ps| == 2)
      ensures Valid() && |ps| == 1 ==> r == MAX_INT64
    {
      if |ps| == 0 {
        return 0;
      }
      assert Unfolded(0);
      r := ps[0].Right();
    }

    method NeedsSync() returns (r: bool)
      ensures r <==> |ps| > MAX_PATCHES || PendingLen(ps) > MAX_PATCH_CONTENT_LEN
    {
      if |ps| > MAX_PATCHES {
        return true;
      }
      var l := ContentLen();
      r := l > MAX_PATCH_CONTENT_LEN;
    }

    /**
     * Writes the patches back, one write per run of touching patches. When all writes succeed the
     * backing file is the logical file; when one fails, even half way, the logical file is unchanged
     * and the patches are kept.
     */
    method Sync(bh: ChunkedFileIO) returns (ok: bool, ghost writes: seq<Patch>)
      requires Valid() && bh.Valid() && this !in bh.h.Repr && Reaching(ps, |bh.content|)
      modifies this, bh, bh.h.Repr
      ensures Valid() && bh.Valid() && fresh(bh.h.Repr - old(bh.h.Repr))
      ensures ok ==> ps == [SENTINEL] && bh.content == Overlaid(old(bh.content), old(ps)) && writes == Runs(old(ps))
      ensures !ok ==> ps == old(ps) && Overlaid(bh.content, ps) == Overlaid(old(bh.content), ps) && writes <= Runs(ps)
      ensures |old(bh.content)| <= |bh.content|
      ensures !ok ==> !bh.writable || exists k :: bh.pathFails(k)
    {
      ok, writes := WriteBack(bh);
      if ok {
        ps := [SENTINEL];
      }
    }

    /** The loop of a write-back. */
    method WriteBack(bh: ChunkedFileIO) returns (ok: bool, ghost writes: seq<Patch>)
      requires Valid() && bh.Valid() && this !in bh.h.Repr && Reaching(ps, |bh.content|)
      modifies bh, bh.h.Repr
      ensures bh.Valid() && fresh(bh.h.Repr - old(bh.h.Repr)) && |old(bh.content)| <= |bh.content|
      ensures ok ==> bh.content == Overlaid(old(bh.content), ps) && writes == Runs(ps)
      ensures !ok ==> Overlaid(bh.content, ps) == Overlaid(old(bh.content), ps) && writes <= Runs(ps)
      ensures !ok ==> !bh.writable || exists k :: bh.pathFails(k)
    {
      writes := [];
      var cont := SENTINEL;
      ghost var a := 0;
      ghost var base := bh.content;
      SyncStart(base, ps);
      var i := 0;
      while i < |ps|
        invariant bh.Valid() && fresh(bh.h.Repr - old(bh.h.Repr))
        invariant 0 <= i <= |ps| && (i == 0 ==> a == 0)
        invariant SyncAt(base, bh.content, ps, i, a, cont, writes)
      {
        ok, cont, a, writes := SyncTurn(bh, i, cont, base, a, writes);
        if !ok {
          return;
        }
        i := i + 1;
      }
      SyncDone(base, bh.content, ps, a, cont, writes);
      ok := true;
    }

    /** The turn of a write-back at patch `i`: it joins the gathered run, or that run is written first. */
    method SyncTurn(bh: ChunkedFileIO, i: nat, cont0: Patch, ghost base: bytes, ghost a0: nat,
                    ghost writes0: seq<Patch>)
      returns (ok: bool, cont: Patch, ghost a: nat, ghost writes: seq<Patch>)
      requires bh.Valid() && this !in bh.h.Repr && (i == 0 ==> a0 == 0)
      requires i < |ps| && SyncAt(base, bh.content, ps, i, a0, cont0, writes0)
      modifies bh, bh.h.Repr
      ensures bh.Valid() && fresh(bh.h.Repr - old(bh.h.Repr))
      ensures ok ==> SyncAt(base, bh.content, ps, i + 1, a, cont, writes)
      ensures !ok ==> Overlaid(bh.content, ps) == Overlaid(base, ps) && |base| <= |bh.content| && writes <= Runs(ps)
      ensures !ok ==> !bh.writable || exists k :: bh.pathFails(k)
    {
      ok, cont, a, writes := true, cont0, a0, writes0;
      var p, started := ps[i], i > 0;
      if !p.IsSentinel() && started && p.offset == cont.Right() {
        SyncGrow(base, bh.content, ps, i, a, cont, writes);
        cont := Patch(cont.offset, cont.p + p.p);
        return;
      }
      if started {
        ok := Flush(bh, cont, base, i, a, writes);
        if !ok {
          return;
        }
        writes := writes + [cont];
      } else {
        SyncFirst(base, bh.content, ps, cont, writes);
      }
      cont, a := p, i;
    }

    /** Writes the gathered run. */
    method Flush(bh: ChunkedFileIO, cont: Patch, ghost base: bytes, ghost i: nat, ghost a: nat,
                 ghost writes: seq<Patch>)
      returns (ok: bool)
      requires bh.Valid() && this !in bh.h.Repr
      requires 0 < i < |ps| && SyncAt(base, bh.content, ps, i, a, cont, writes)
      requires ps[i].IsSentinel() || ps[i].offset != cont.Right()
      modifies bh, bh.h.Repr
      ensures bh.Valid() && fresh(bh.h.Repr - old(bh.h.Repr))
      ensures Overlaid(bh.content, ps) == Overlaid(base, ps) && |base| <= |bh.content| && writes <= Runs(ps)
      ensures ok ==> SyncAt(base, bh.content, ps, i + 1, i, ps[i], writes + [cont])
      ensures !ok ==> !bh.writable || exists k :: bh.pathFails(k)
    {
      ghost var before, done := bh.content, 0;
      FlushReady(base, before, ps, i, a, cont, writes);
      ok, done := bh.PWrite(cont.p, cont.offset);
      Flushed(base, before, ps, i, a, cont, writes, done);
    }
  }

  /** How many bytes are pending. */
  function PendingLen(ps: seq<Patch>): nat
  {
    if ps == [] then 0 else |ps[0].p| + PendingLen(ps[1..])
  }

  lemma {:induction false} IntervalSize(lo: int, n: nat, s: set<int>)
    requires forall x {:trigger x in s} :: x in s <==> lo <= x < lo + n
    ensures |s| == n
    decreases n
  {
    if n == 0 {
      assert forall x :: x !in s;
      assert s == {};
    } else {
      IntervalSize(lo, n - 1, s - {lo + n - 1});
    }
  }

  /** It counts the positions at which a byte is pending. */
  lemma {:induction false} PendingCount(ps: seq<Patch>, s: set<int>)
    requires Patches.Valid(ps) && forall x {:trigger x in s} :: x in s <==> ByteAt(ps, x).Some?
    ensures PendingLen(ps) == |s|
    decreases |ps|
  {
    if ps[0].IsSentinel() {
      SentinelLast(ps, 0);
      forall x ensures ByteAt(ps, x) == None { ByteAtNone(ps, x); }
      assert forall x :: x !in s;
      assert s == {};
      assert ps[1..] == [];
    } else {
      TailValid(ps);
      var here := set x | x in s && ps[0].Covers(x);
      forall x | ps[0].Covers(x) ensures x in s && ByteAt(ps[1..], x) == None {
        assert ByteAt(ps, x).Some?;
        ByteAtNone(ps[1..], x);
      }
      IntervalSize(ps[0].offset, |ps[0].p|, here);
      PendingCount(ps[1..], s - here);
    }
  }
}
