/**
 * Random access to a chunk blob (chunkstore/chunkstore.go) over an in-memory blob
 * (blobstore/memblobstore.go). `payload` is the flat byte array a `ChunkIO` stands for.
 */
module ChunkStore {
  import opened Bytes
  import opened Btncrypt
  import opened ChunkFormat

  datatype IoResult<+T> = Ok(value: T) | Err | Panic

  class MemBlobHandle {
    var content: bytes

    constructor ()
      ensures content == []
    {
      content := [];
    }

    method PRead(len: nat, offset: nat) returns (r: Option<bytes>)
      ensures r == if offset + len <= |content| then Some(content[offset..offset + len]) else None
    {
      if offset > |content| || offset + len > |content| {
        return None;
      }
      r := Some(content[offset..offset + len]);
    }

    method PWrite(p: bytes, offset: nat)
      modifies this
      ensures content == Overwrite(old(content), p, offset)
    {
      if |p| == 0 {
        return;
      }
      var right := offset + |p|;
      if right > |content| {
        content := content + Zeros(right - |content|);
      }
      content := content[..offset] + p + content[right..];
      assert content == Overwrite(old(content), p, offset) by {
        SameBytes(content, Overwrite(old(content), p, offset));
      }
    }
  }

  datatype Frame = Frame(index: nat, p: bytes, offset: nat, isLast: bool)

  predicate InFrame(x: nat, i: nat)
  {
    FrameStart(i) <= x < FrameStart(i) + FRAME_MAX_PAYLOAD
  }

  /** The frame that holds payload position `x`. */
  function FrameIndex(x: nat): (i: nat)
    ensures InFrame(x, i)
  {
    x / 0x40000
  }

  lemma InFrameUnique(x: nat, i: nat)
    requires InFrame(x, i)
    ensures FrameIndex(x) == i
  {
  }

  /** How many frames the positions from `lo` up to `hi` lie in. */
  function FramesIn(lo: nat, hi: nat): nat
  {
    if lo >= hi then 0 else FrameIndex(hi - 1) - FrameIndex(lo) + 1
  }

  /** How many frames a write of `n` bytes at `off` into a content of `len` touches, with those it fills with zeros. */
  function FramesTouched(len: nat, off: nat, n: nat): nat
  {
    FramesIn(len, off) + FramesIn(off, off + n)
  }

  /** A write of something makes another version, whatever it writes. */
  lemma WriteNewVersion(v: int64, len: nat, off: nat, n: nat)
    requires 0 < n && off + n <= MAX_CHUNK_PAYLOAD_LEN
    ensures Advanced(v, FramesTouched(len, off, n)) != v
  {
    AdvancedIs(v, FramesTouched(len, off, n));
  }

  /** A part that starts a frame, or starts it all, is in one frame more. */
  lemma OneFrameMore(lo: nat, x: nat, n: nat, i: nat)
    requires lo <= x && 0 < n && InFrame(x, i) && x + n <= FrameStart(i) + FRAME_MAX_PAYLOAD
    requires x == lo || OnBoundary(x)
    ensures FramesIn(lo, x + n) == FramesIn(lo, x) + 1
  {
    InFrameUnique(x, i);
    InFrameUnique(x + n - 1, i);
  }

  lemma ZeroExtendStep(b: bytes, m: nat, n: nat)
    requires |b| <= m
    ensures ZeroExtend(b, m) + Zeros(n) == ZeroExtend(b, m + n)
  {
  }

  /** Appending zeros to the last frame, or a zero frame, replaces one frame. */
  lemma ZerosReplaceFrame(p: bytes, i: nat, n: nat)
    requires n > 0 && FrameStart(i) <= |p| && |p| + n <= FrameStart(i) + FRAME_MAX_PAYLOAD
    ensures FrameReplaced(p, p + Zeros(n), i)
    ensures FramePart(p + Zeros(n), i) == p[FrameStart(i)..] + Zeros(n)
  {
  }

  /** A write inside one frame of the payload replaces that frame. */
  lemma WriteReplacesFrame(p: bytes, i: nat, q: bytes, at: nat)
    requires q != [] && FrameStart(i) <= at <= |p| && at + |q| <= FrameStart(i) + FRAME_MAX_PAYLOAD
    ensures var np := Overwrite(p, q, at);
            && FrameReplaced(p, np, i)
            && FramePart(np, i) == Overwrite(FramePart(p, i), q, at - FrameStart(i))
  {
    var np := Overwrite(p, q, at);
    assert np[..FrameStart(i)] == p[..FrameStart(i)] by { OverwriteElsewhere(p, q, at, 0, FrameStart(i)); }
    var hi := FrameStart(i) + FRAME_MAX_PAYLOAD;
    if |p| > hi {
      OverwriteElsewhere(p, q, at, hi, |p|);
      assert np[hi..|p|] == np[hi..] && p[hi..|p|] == p[hi..];
    }
    PartOverwritten(p, FrameStart(i), FRAME_MAX_PAYLOAD, q, at);
  }

  /** Copying into a buffer that was extended just far enough is a positioned write. */
  lemma SplicedOverwrite(p: bytes, buf: bytes, q: bytes, at: nat)
    requires q != [] && at <= |p| && at + |q| <= |buf| == Max(|p|, at + |q|) && buf[..|p|] == p
    ensures buf[..at] + q + buf[at + |q|..] == Overwrite(p, q, at)
  {
    var r := buf[..at] + q + buf[at + |q|..];
    forall x | 0 <= x < |r| ensures At(r, x) == At(Overwrite(p, q, at), x) {
      if x < |p| { assert buf[x] == buf[..|p|][x] == p[x]; }
    }
    SameBytes(r, Overwrite(p, q, at));
  }

  lemma FrameSlice(p: bytes, i: nat, at: nat, n: nat)
    requires FrameStart(i) <= |p| && at + n <= |FramePart(p, i)|
    ensures FramePart(p, i)[at..at + n] == p[FrameStart(i) + at..FrameStart(i) + at + n]
  {
    var a, b := FramePart(p, i)[at..at + n], p[FrameStart(i) + at..FrameStart(i) + at + n];
    assert forall x :: 0 <= x < n ==> a[x] == At(FramePart(p, i), at + x);
    SameBytes(a, b);
  }

  lemma OverwriteExtended(b: bytes, p: bytes, off: nat)
    requires p != []
    ensures Overwrite(ZeroExtend(b, off), p, off) == Overwrite(b, p, off)
  {
    SameBytes(Overwrite(ZeroExtend(b, off), p, off), Overwrite(b, p, off));
  }

  /** Where the frame starts in which a content of the greatest length ends. */
  const LAST_START: nat := 0x7ffc_0000

  /**
   * A failing write of `n` bytes at `at` in frame `i`, into a content of `len`, loses the mark of the
   * cached last frame: the frame was read, not made, and the write runs past its end.
   */
  predicate FlagLost(len: nat, at: nat, n: nat, i: nat)
  {
    !(at == len && FrameStart(i) == at) && at + n > FrameStart(i) + FRAME_MAX_PAYLOAD
  }

  /** How much of a failing write is in place, and whether the mark is lost. */
  lemma FailedWrite(b: bytes, p: bytes, off: nat, done: nat, i: nat)
    requires done <= |p| && off <= |b| && MAX_CHUNK_PAYLOAD_LEN < off + |p|
    requires InFrame(off + done, i) && FrameStart(i) == LAST_START
    requires done > 0 ==> off + done == LAST_START
    ensures done == Max(0, LAST_START - off)
    ensures FlagLost(|Overwrite(b, p[..done], off)|, off + done, |p| - done, i)
       <==> off + |p| > LAST_START + FRAME_MAX_PAYLOAD && |b| > LAST_START
  {
  }

  predicate OnBoundary(x: nat) { x % 0x40000 == 0 }

  /** The turn of the write loop that would exceed the greatest length is the one in the last possible frame. */
  lemma LastFrameOnly(remo: nat, n: nat, i: nat)
    requires InFrame(remo, i) && remo <= MAX_CHUNK_PAYLOAD_LEN < remo + n <= FrameStart(i) + FRAME_MAX_PAYLOAD
    ensures FrameStart(i) == LAST_START && (OnBoundary(remo) ==> remo == LAST_START)
  {
  }

  lemma NextFrame(remo: nat, n: nat, len: nat, i: nat)
    requires InFrame(remo, i) && n == Min(len, FrameStart(i) + FRAME_MAX_PAYLOAD - remo)
    ensures n < len ==> OnBoundary(remo + n)
  {
    assert FrameStart(i) + FRAME_MAX_PAYLOAD == FrameStart(i + 1);
  }

  lemma ZeroTurn(before: bytes, zfoff: nat, zflen: nat, n: nat, i: nat)
    requires |before| <= zfoff && 0 < n && InFrame(zfoff, i) && (zfoff == |before| || OnBoundary(zfoff))
    requires n == Min(zflen, FrameStart(i) + FRAME_MAX_PAYLOAD - zfoff)
    ensures ZeroExtend(before, zfoff) + Zeros(n) == ZeroExtend(before, zfoff + n)
    ensures n < zflen ==> OnBoundary(zfoff + n)
    ensures FramesIn(|before|, zfoff + n) == FramesIn(|before|, zfoff) + 1
  {
    ZeroExtendStep(before, zfoff, n);
    OneFrameMore(|before|, zfoff, n, i);
    NextFrame(zfoff, n, zflen, i);
  }

  lemma TurnDone(before: bytes, p: bytes, offset: nat, done: nat, n: nat, i: nat)
    requires done < |p| && offset <= |before| && InFrame(offset + done, i)
    requires n == Min(|p| - done, FrameStart(i) + FRAME_MAX_PAYLOAD - (offset + done))
    requires done > 0 ==> OnBoundary(offset + done)
    ensures Overwrite(Overwrite(before, p[..done], offset), p[done..][..n], offset + done)
         == Overwrite(before, p[..done + n], offset)
    ensures done + n < |p| ==> OnBoundary(offset + done + n)
    ensures FramesIn(offset, offset + done + n) == FramesIn(offset, offset + done) + 1
  {
    OverwriteOn(before, p, 0, done, n, offset);
    NextFrame(offset + done, n, |p| - done, i);
    OneFrameMore(offset, offset + done, n, i);
    assert p[done..][..n] == p[done..done + n];
  }

  class ChunkIO {
    const bh: MemBlobHandle
    const f: Format
    var didReadHeader: bool
    var header: ChunkHeader
    var needsHeaderUpdate: bool
    var cachedFrame: Option<Frame>
    var drawn: nat
    ghost var payload: bytes
    ghost var version: int64

    /** A frame with the content stored at its index. */
    ghost predicate FrameGood(fr: Frame)
      reads this
    {
      && FrameStart(fr.index) < |payload|
      && fr.p == FramePart(payload, fr.index)
      && fr.offset == FrameStart(fr.index)
    }

    ghost predicate IsLastFrame(i: nat)
      reads this
    {
      |payload| <= FrameStart(i) + FRAME_MAX_PAYLOAD
    }

    ghost predicate LastFlagRight()
      reads this
    {
      cachedFrame.Some? ==> (cachedFrame.value.isLast <==> IsLastFrame(cachedFrame.value.index))
    }

    /** The blob, the header in memory and the cached content describe `payload`. */
    ghost predicate Stored()
      reads this, bh
    {
      && f.Lawful()
      && |payload| <= MAX_CHUNK_PAYLOAD_LEN
      && Body(f.c, bh.content, payload)
      && (cachedFrame.Some? ==> FrameGood(cachedFrame.value))
      && (if didReadHeader then header.payloadLen == |payload|
          else !needsHeaderUpdate && cachedFrame == None && (|bh.content| == 0 ==> header.payloadLen == 0))
      && (!needsHeaderUpdate ==> Holds(f, bh.content, payload))
      && VersionStored()
    }

    /** The header in memory, and, when it is not to be written yet, the one in the blob, have `version`. */
    ghost predicate VersionStored()
      reads this, bh
    {
      && (didReadHeader || bh.content == [] ==> header.payloadVersion == version)
      && (!needsHeaderUpdate ==> OfVersion(f, bh.content, version))
    }

    ghost predicate Valid()
      reads this, bh
    {
      Stored() && LastFlagRight()
    }

    /** `Valid`, carried folded by clients: mentioning `Unfolded` unfolds it. */
    ghost predicate Sound()
      reads this, bh
    {
      forall z {:trigger Unfolded(z)} :: Unfolded(z) ==> Valid()
    }

    lemma Fold()
      ensures Valid() <==> Sound()
    {
      assert Unfolded(0);
    }

    constructor (bh: MemBlobHandle, f: Format, ghost payload: bytes, ghost version: int64)
      requires f.Lawful() && Holds(f, bh.content, payload) && |payload| <= MAX_CHUNK_PAYLOAD_LEN
      requires OfVersion(f, bh.content, version)
      ensures Valid() && this.bh == bh && this.f == f && this.payload == payload && this.version == version
    {
      this.bh, this.f, this.payload, this.version := bh, f, payload, version;
      didReadHeader, needsHeaderUpdate, cachedFrame, drawn := false, false, None, 0;
      header := ChunkHeader(0, 1);
    }

    method EnsureHeader()
      requires Valid()
      modifies this`didReadHeader, this`header
      ensures Valid() && didReadHeader && header == ChunkHeader(|payload|, version)
    {
      if didReadHeader {
        return;
      }
      if |payload| > 0 {
        var _ := LastFrame(|payload|);
      }
      if |bh.content| != 0 {
        header := f.ParseHeader(bh.content).value;
      }
      didReadHeader := true;
    }

    method ExpandLengthBy(n: nat) returns (ok: bool)
      modifies this`header, this`needsHeaderUpdate
      ensures ok <==> n == 0 || old(header.payloadLen) + n <= MAX_CHUNK_PAYLOAD_LEN
      ensures header == if ok then old(header).(payloadLen := old(header.payloadLen) + n) else old(header)
      ensures needsHeaderUpdate == (old(needsHeaderUpdate) || (ok && n > 0))
    {
      if n == 0 {
        return true;
      }
      if header.payloadLen + n > MAX_CHUNK_PAYLOAD_LEN {
        return false;
      }
      header := header.(payloadLen := header.payloadLen + n);
      needsHeaderUpdate := true;
      ok := true;
    }

    /**
     * Reads and caches frame `i`. A frame past the end of the content is an error, or, when it starts
     * more than a frame overhead past the end, a slice-bounds panic.
     */
    method ReadContentFrame(i: nat) returns (r: IoResult<Frame>)
      requires Stored() && didReadHeader
      modifies this`cachedFrame
      ensures if FrameStart(i) < |payload|
              then r.Ok? && r.value.index == i && cachedFrame == Some(r.value) && Valid()
              else cachedFrame == old(cachedFrame)
                   && r == if FrameStart(i) > |payload| + FRAME_OVERHEAD then Panic else Err
    {
      var offset := FrameStart(i);
      var framePayloadLen: int := FRAME_MAX_PAYLOAD;
      var isLast := false;
      var distToLast := header.payloadLen - offset;
      if distToLast <= FRAME_MAX_PAYLOAD {
        framePayloadLen := distToLast;
        isLast := true;
      }
      if framePayloadLen + FRAME_OVERHEAD < 0 {
        return Panic;
      }
      if offset < |payload| {
        assert FrameStored(f.c, bh.content, payload, i);
      } else if |payload| > 0 {
        var _ := LastFrame(|payload|);
      }
      var enc := bh.PRead(framePayloadLen + FRAME_OVERHEAD, FrameOffset(i));
      if enc == None {
        return Err;
      }
      var dec := f.c.DecryptFrame(enc.value);
      if dec == None {
        return Err;
      }
      cachedFrame := Some(Frame(i, dec.value, offset, isLast));
      r := Ok(cachedFrame.value);
    }

    method ReadCachedContentFrame(i: nat) returns (r: IoResult<Frame>)
      requires Valid() && didReadHeader
      modifies this`cachedFrame
      ensures Valid()
      ensures if FrameStart(i) < |payload|
              then r.Ok? && r.value.index == i && cachedFrame == Some(r.value)
              else r == if FrameStart(i) > |payload| + FRAME_OVERHEAD then Panic else Err
    {
      if cachedFrame.Some? && cachedFrame.value.index == i {
        return Ok(cachedFrame.value);
      }
      r := ReadContentFrame(i);
    }

    /** Writes frame `i` back, turning the payload into `np`, whose length the header already has. */
    method WriteContentFrame(i: nat, p: bytes, ghost np: bytes)
      requires f.Lawful() && Body(f.c, bh.content, payload) && didReadHeader
      requires FrameReplaced(payload, np, i) && p == FramePart(np, i)
      requires header.payloadLen == |np| <= MAX_CHUNK_PAYLOAD_LEN
      requires header.payloadVersion == version
      modifies this`cachedFrame, this`header, this`needsHeaderUpdate, this`drawn, this`payload, this`version, bh
      ensures Valid() && payload == np && cachedFrame == None && version == NextVersion(old(version))
      ensures header == ChunkHeader(|np|, version) && drawn == old(drawn) + 1
    {
      cachedFrame := None;
      FrameWritten(f.c, bh.content, payload, np, i, drawn);
      bh.PWrite(f.c.EncryptFrame(drawn, p), FrameOffset(i));
      drawn := drawn + 1;
      header := header.(payloadVersion := NextVersion(header.payloadVersion));
      needsHeaderUpdate := true;
      payload, version := np, NextVersion(version);
    }

    /** One turn of the read loop: what the frame of `remo` has of the next `want` bytes. */
    method ReadFromFrame(remo: nat, want: nat) returns (r: IoResult<bytes>)
      requires Valid() && didReadHeader && want > 0
      modifies this`cachedFrame
      ensures Valid()
      ensures var i := FrameIndex(remo);
              if FrameStart(i) >= |payload| then r == if FrameStart(i) > |payload| + FRAME_OVERHEAD then Panic else Err
              else if IsLastFrame(i) && remo + want > |payload| then r == Err
              else r.Ok? && 0 < |r.value| && remo + |r.value| <= |payload| && r.value == payload[remo..remo + |r.value|]
                   && (|r.value| == want || (|r.value| < want && remo + |r.value| < |payload|))
    {
      var i := FrameIndex(remo);
      var rd := ReadCachedContentFrame(i);
      if !rd.Ok? {
        return if rd.Panic? then Panic else Err;
      }
      var fr := rd.value;
      var inframeOffset := remo - fr.offset;
      var n: int := want;
      var valid := |fr.p| - inframeOffset;
      if n > valid {
        if fr.isLast {
          return Err;
        }
        n := valid;
      }
      FrameSlice(payload, i, inframeOffset, n);
      r := Ok(fr.p[inframeOffset..inframeOffset + n]);
    }

    /** Positioned read of exactly `len` bytes; every outcome is determined by the payload. */
    method PRead(len: nat, offset: int) returns (r: IoResult<bytes>)
      requires Valid()
      modifies this`didReadHeader, this`header, this`cachedFrame
      ensures Valid()
      ensures r == if offset < 0 || MAX_INT32 < offset then Err
                   else if len == 0 then Ok([])
                   else if offset + len <= |payload| then Ok(payload[offset..offset + len])
                   else if FrameStart(FrameIndex(offset)) > |payload| + FRAME_OVERHEAD then Panic
                   else Err
    {
      EnsureHeader();
      if offset < 0 || MAX_INT32 < offset {
        return Err;
      }
      var remo := offset;
      var data := [];
      while |data| < len
        invariant Valid() && didReadHeader
        invariant |data| <= len && remo == offset + |data|
        invariant 0 < |data| ==> remo <= |payload| && data == payload[offset..remo]
        invariant 0 < |data| < len ==> remo < |payload|
      {
        var part := ReadFromFrame(remo, len - |data|);
        if !part.Ok? {
          return part;
        }
        SliceJoin(payload, offset, remo, remo + |part.value|);
        data := data + part.value;
        remo := remo + |part.value|;
      }
      r := Ok(data);
    }

    /** Fills with zeros from the end of the content up to `upTo`. */
    method ZeroFill(upTo: nat)
      requires Valid() && didReadHeader && |payload| <= upTo <= MAX_CHUNK_PAYLOAD_LEN
      modifies this, bh
      ensures Valid() && didReadHeader && payload == ZeroExtend(old(payload), upTo)
      ensures version == Advanced(old(version), FramesIn(|old(payload)|, upTo))
    {
      var zfoff := header.payloadLen;
      var zflen := upTo - zfoff;
      while zflen > 0
        invariant Valid() && didReadHeader
        invariant zfoff == |payload| && zfoff + zflen == upTo && zflen >= 0
        invariant |old(payload)| <= zfoff && payload == ZeroExtend(old(payload), zfoff)
        invariant zflen > 0 ==> zfoff == |old(payload)| || OnBoundary(zfoff)
        invariant version == Advanced(old(version), FramesIn(|old(payload)|, zfoff))
      {
        var i := FrameIndex(zfoff);
        var fOffset := FrameStart(i);
        var inframeOffset := zfoff - fOffset;
        var n := Min(zflen, FRAME_MAX_PAYLOAD - inframeOffset);
        ZeroTurn(old(payload), zfoff, zflen, n, i);
        ZeroFillFrame(i, inframeOffset, n);
        zfoff := zfoff + n;
        zflen := zflen - n;
      }
    }

    /** Appends zeros within frame `i`, a new one or the last one. */
    method ZeroFillFrame(i: nat, inframeOffset: nat, n: nat)
      requires Valid() && didReadHeader && |payload| == FrameStart(i) + inframeOffset
      requires 0 < n && inframeOffset + n <= FRAME_MAX_PAYLOAD && |payload| + n <= MAX_CHUNK_PAYLOAD_LEN
      modifies this, bh
      ensures Valid() && didReadHeader && payload == old(payload) + Zeros(n) && version == NextVersion(old(version))
    {
      ZerosReplaceFrame(payload, i, n);
      ghost var np := payload + Zeros(n);
      if inframeOffset == 0 {
        var _ := ExpandLengthBy(n);
        WriteContentFrame(i, Zeros(n), np);
      } else {
        var fr := ReadCachedContentFrame(i);
        var p := fr.value.p[..inframeOffset] + Zeros(n);
        var _ := ExpandLengthBy(n);
        WriteContentFrame(i, p, np);
      }
    }

    /** The frame to modify for a write at `remo`: a new one at the very end of full frames, else the stored one. */
    method FrameToWrite(remo: nat, i: nat) returns (fr: Frame, isNew: bool)
      requires Valid() && didReadHeader && remo <= |payload| && InFrame(remo, i)
      modifies this`cachedFrame
      ensures Valid()
      ensures fr.index == i && fr.offset == FrameStart(i)
      ensures fr.p == FramePart(payload, fr.index) && (fr.isLast <==> IsLastFrame(fr.index))
      ensures isNew <==> remo == |payload| && fr.offset == remo
      ensures !isNew ==> cachedFrame == Some(fr)
    {
      var fOffset := FrameStart(i);
      isNew := remo == header.payloadLen && fOffset == remo;
      if isNew {
        fr := Frame(i, [], fOffset, true);
      } else {
        var rd := ReadCachedContentFrame(i);
        fr := rd.value;
      }
    }

    /** One turn of the write loop: the part of `remp` that falls into the frame of `remo`. */
    method WriteToFrame(remp: bytes, remo: nat, i: nat) returns (n: nat, ok: bool)
      requires Valid() && didReadHeader && remp != [] && remo <= |payload| && InFrame(remo, i)
      modifies this, bh
      ensures didReadHeader && Stored()
      ensures n == Min(|remp|, FrameStart(i) + FRAME_MAX_PAYLOAD - remo)
      ensures ok <==> remo + n <= MAX_CHUNK_PAYLOAD_LEN
      ensures ok ==> Valid() && payload == Overwrite(old(payload), remp[..n], remo)
      ensures version == if ok then NextVersion(old(version)) else old(version)
      ensures !ok ==> payload == old(payload) && (Valid() <==> !FlagLost(|payload|, remo, |remp|, i))
    {
      var fr, isNew := FrameToWrite(remo, i);
      var inframeOffset := remo - fr.offset;
      var valid := |fr.p| - inframeOffset;
      n := Min(|remp|, FRAME_MAX_PAYLOAD - inframeOffset);
      ok := true;
      if |remp| > valid && fr.isLast {
        fr, ok := ExpandLast(fr, isNew, inframeOffset, |remp|);
        if !ok {
          return;
        }
        valid := |fr.p| - inframeOffset;
      }
      assert n == Min(|remp|, valid);
      PatchFrame(fr, inframeOffset, remp[..n]);
    }

    /**
     * Expands the last frame for `want` bytes at `inframeOffset`. The mark is taken off before the
     * length is checked, so a failure can leave the cached frame without it.
     */
    method ExpandLast(fr0: Frame, isNew: bool, inframeOffset: nat, want: nat) returns (fr: Frame, ok: bool)
      requires Valid() && didReadHeader && (!isNew ==> cachedFrame == Some(fr0))
      requires fr0.offset == FrameStart(fr0.index) <= |payload| <= fr0.offset + FRAME_MAX_PAYLOAD
      requires fr0.p == FramePart(payload, fr0.index) && fr0.isLast
      requires inframeOffset <= |fr0.p| < inframeOffset + want && inframeOffset < FRAME_MAX_PAYLOAD
      modifies this`header, this`needsHeaderUpdate, this`cachedFrame
      ensures header.payloadVersion == old(header.payloadVersion)
      ensures fr.index == fr0.index && fr.offset == fr0.offset
      ensures var newSize := Min(inframeOffset + want, FRAME_MAX_PAYLOAD);
              && (ok <==> fr.offset + newSize <= MAX_CHUNK_PAYLOAD_LEN)
              && (ok ==> header.payloadLen == fr.offset + newSize && |fr.p| == newSize && fr.p[..|fr0.p|] == fr0.p)
      ensures !ok ==> Stored() && (Valid() <==> isNew || inframeOffset + want <= FRAME_MAX_PAYLOAD)
    {
      fr := fr0;
      var newSize := inframeOffset + want;
      if newSize > FRAME_MAX_PAYLOAD {
        fr := fr.(isLast := false);
        newSize := FRAME_MAX_PAYLOAD;
      }
      ok := ExpandLengthBy(newSize - |fr.p|);
      if !ok {
        if !isNew {
          cachedFrame := Some(fr); // the frame in hand is the cached one
        }
        return;
      }
      fr := fr.(p := fr.p + Zeros(newSize - |fr.p|)); // unspecified bytes, all overwritten later
    }

    /** Copies `q` into the frame in hand, whose buffer is long enough, and writes it back. */
    method PatchFrame(fr: Frame, inframeOffset: nat, q: bytes)
      requires f.Lawful() && Body(f.c, bh.content, payload) && didReadHeader
      requires fr.offset == FrameStart(fr.index) && fr.offset + inframeOffset <= |payload|
      requires q != [] && inframeOffset + |q| <= FRAME_MAX_PAYLOAD
      requires var part := FramePart(payload, fr.index);
               |fr.p| == Max(|part|, inframeOffset + |q|) && fr.p[..|part|] == part
      requires header.payloadLen == Max(|payload|, fr.offset + inframeOffset + |q|) <= MAX_CHUNK_PAYLOAD_LEN
      requires header.payloadVersion == version
      modifies this`cachedFrame, this`header, this`needsHeaderUpdate, this`drawn, this`payload, this`version, bh
      ensures Valid() && payload == Overwrite(old(payload), q, fr.offset + inframeOffset)
      ensures version == NextVersion(old(version))
    {
      var p := fr.p[..inframeOffset] + q + fr.p[inframeOffset + |q|..];
      SplicedOverwrite(FramePart(payload, fr.index), fr.p, q, inframeOffset);
      WriteReplacesFrame(payload, fr.index, q, fr.offset + inframeOffset);
      WriteContentFrame(fr.index, p, Overwrite(payload, q, fr.offset + inframeOffset));
    }

    /** A turn of the write loop with `done` bytes of `p` in place. */
    method WriteTurn(p: bytes, offset: nat, done: nat, ghost before: bytes, ghost first: int64)
      returns (n: nat, ok: bool)
      requires Valid() && didReadHeader && done < |p| && offset <= |before| && offset + done <= |payload|
      requires payload == Overwrite(before, p[..done], offset)
      requires done > 0 ==> OnBoundary(offset + done) && offset + done <= MAX_CHUNK_PAYLOAD_LEN
      requires version == Advanced(first, FramesIn(offset, offset + done))
      modifies this, bh
      ensures didReadHeader && Stored() && 0 < n <= |p| - done
      ensures ok ==> Valid() && payload == Overwrite(before, p[..done + n], offset)
      ensures ok ==> offset + done + n <= MAX_CHUNK_PAYLOAD_LEN
      ensures ok && done + n < |p| ==> OnBoundary(offset + done + n)
      ensures ok ==> version == Advanced(first, FramesIn(offset, offset + done + n))
      ensures !ok ==> version == Advanced(first, FramesIn(offset, Max(offset, LAST_START)))
      ensures !ok ==> MAX_CHUNK_PAYLOAD_LEN < offset + |p|
      ensures !ok ==> payload == Overwrite(before, p[..Max(0, LAST_START - offset)], offset)
      ensures !ok ==> (Valid() <==> offset + |p| <= LAST_START + FRAME_MAX_PAYLOAD || |before| <= LAST_START)
    {
      var i := FrameIndex(offset + done);
      n, ok := WriteToFrame(p[done..], offset + done, i);
      if ok {
        TurnDone(before, p, offset, done, n, i);
      } else {
        LastFrameOnly(offset + done, n, i);
        FailedWrite(before, p, offset, done, i);
      }
    }

    /**
     * The write loop. It fails only in the last possible frame; the frames before it are then written,
     * and the cached frame keeps its mark unless the write ran past the end of a frame in the cache.
     */
    method WriteFrames(p: bytes, offset: nat) returns (ok: bool)
      requires Valid() && didReadHeader && offset <= |payload|
      modifies this, bh
      ensures Stored()
      ensures ok <==> p == [] || offset + |p| <= MAX_CHUNK_PAYLOAD_LEN
      ensures ok ==> Valid() && payload == Overwrite(old(payload), p, offset)
      ensures version == Advanced(old(version), FramesIn(offset, if ok then offset + |p| else Max(offset, LAST_START)))
      ensures !ok ==>
                && payload == Overwrite(old(payload), p[..Max(0, LAST_START - offset)], offset)
                && (Valid() <==> offset + |p| <= LAST_START + FRAME_MAX_PAYLOAD || |old(payload)| <= LAST_START)
    {
      var done := 0;
      while done < |p|
        invariant Valid() && didReadHeader
        invariant 0 <= done <= |p| && offset + done <= |payload|
        invariant payload == Overwrite(old(payload), p[..done], offset)
        invariant 0 < done < |p| ==> OnBoundary(offset + done)
        invariant 0 < done ==> offset + done <= MAX_CHUNK_PAYLOAD_LEN
        invariant version == Advanced(old(version), FramesIn(offset, offset + done))
      {
        var n, wrote := WriteTurn(p, offset, done, old(payload), old(version));
        if !wrote {
          return false;
        }
        done := done + n;
      }
      assert p[..done] == p;
      ok := true;
    }

    /**
     * Positioned write on the flat array, zero-filling up to the offset. A write past the greatest
     * chunk length fails with its frames before the last one written; exactly when the last frame was
     * in the cache and the write runs past its end, that cached frame is left without its mark.
     */
    method PWrite(p: bytes, offset: int) returns (ok: bool)
      requires Valid()
      modifies this, bh
      ensures Stored()
      ensures ok <==> p == [] || (0 <= offset && offset + |p| <= MAX_CHUNK_PAYLOAD_LEN)
      ensures ok ==> Valid() && payload == if p == [] then old(payload) else Overwrite(old(payload), p, offset)
      ensures !ok && !(0 <= offset <= MAX_INT32) ==> Valid() && payload == old(payload)
      ensures !ok && 0 <= offset <= MAX_INT32 ==>
                && payload == Overwrite(ZeroExtend(old(payload), offset), p[..Max(0, LAST_START - offset)], offset)
                && (Valid() <==> || offset + |p| <= LAST_START + FRAME_MAX_PAYLOAD
                                 || Max(offset, |old(payload)|) <= LAST_START)
      ensures p == [] || !(0 <= offset <= MAX_INT32) ==> version == old(version)
      ensures p != [] && 0 <= offset <= MAX_INT32 ==>
                var n := if ok then |p| else Max(0, LAST_START - offset);
                version == Advanced(old(version), FramesTouched(|old(payload)|, offset, n))
    {
      EnsureHeader();
      if |p| == 0 {
        return true;
      }
      if offset < 0 || MAX_INT32 < offset {
        return false;
      }
      ok := WriteAt(p, offset);
    }

    /** A write whose offset is in range: zeros up to it, then the frames. */
    method WriteAt(p: bytes, offset: nat) returns (ok: bool)
      requires Valid() && didReadHeader && p != [] && offset <= MAX_INT32
      modifies this, bh
      ensures Stored()
      ensures ok <==> offset + |p| <= MAX_CHUNK_PAYLOAD_LEN
      ensures ok ==> Valid() && payload == Overwrite(old(payload), p, offset)
      ensures !ok ==>
                && payload == Overwrite(ZeroExtend(old(payload), offset), p[..Max(0, LAST_START - offset)], offset)
                && (Valid() <==> || offset + |p| <= LAST_START + FRAME_MAX_PAYLOAD
                                 || Max(offset, |old(payload)|) <= LAST_START)
      ensures var n := if ok then |p| else Max(0, LAST_START - offset);
              version == Advanced(old(version), FramesTouched(|old(payload)|, offset, n))
    {
      if offset > header.payloadLen {
        ZeroFill(offset);
        OverwriteExtended(old(payload), p, offset);
      }
      ok := WriteFrames(p, offset);
      AdvancedMore(old(version), FramesIn(|old(payload)|, offset),
                   FramesIn(offset, if ok then offset + |p| else Max(offset, LAST_START)));
    }

    /** Writes the header if it changed; afterwards the blob alone holds the payload, and says its version. */
    method Sync()
      requires Valid()
      modifies this`needsHeaderUpdate, this`drawn, bh
      ensures Valid() && !needsHeaderUpdate
      ensures drawn == old(drawn) + if old(needsHeaderUpdate) then 1 else 0
      ensures Holds(f, bh.content, payload) && OfVersion(f, bh.content, version)
    {
      if needsHeaderUpdate {
        HeaderWritten(f, bh.content, payload, drawn, header);
        var b := f.WriteHeader(drawn, header);
        bh.PWrite(b, 0);
        drawn := drawn + 1;
        needsHeaderUpdate := false;
      }
    }
  }

  /** A sequential writer: closed on a plaintext of the declared length, `StreamedBlobHolds` applies to its output. */
  method NewChunkWriter(f: Format, h: ChunkHeader, refuses: nat -> bool) returns (w: WriteCloser?)
    requires f.Lawful()
    ensures w != null <==> h.payloadLen <= MAX_CHUNK_PAYLOAD_LEN
    ensures w != null ==>
              && w.Valid() && w.c == f.c && w.plain == [] && w.lenTotal == h.payloadLen
              && f.GobInverted(h) && w.prefix == f.HeaderBytes(0, h)
  {
    if h.payloadLen > MAX_CHUNK_PAYLOAD_LEN {
      return null;
    }
    var header := f.WriteHeader(0, h);
    w := new WriteCloser(f.c, header, h.payloadLen, refuses);
  }

  /** A sequential reader of a blob that holds `payload`, however that blob came about, delivers exactly `payload`. */
  method NewChunkReader(f: Format, src: bytes, ghost payload: bytes) returns (r: Reader?)
    requires f.Lawful()
    ensures r == null <==> f.ParseHeader(src) == None
    ensures r != null ==> r.Valid() && r.lenRead == 0
    ensures Holds(f, src, payload) && src != [] ==> r != null && r.plain == payload && r.Genuine()
  {
    var h := f.ParseHeader(src);
    if h == None {
      return null;
    }
    ghost var plain := if |payload| == h.value.payloadLen then payload else Zeros(h.value.payloadLen);
    if Holds(f, src, payload) { BodyIffCarries(f.c, src, payload); }
    r := new Reader(f.c, src, CHUNK_HEADER_LENGTH, h.value.payloadLen, plain);
  }
}
