/**
 * The layout of a chunk blob (chunkstore/chunkheader.go, chunkstore/chunkstore.go): a 4096-byte header
 * and the content in encrypted frames, frame `i` at a fixed offset.
 */
module ChunkFormat {
  import opened Bytes
  import opened Btncrypt

  const CHUNK_HEADER_LENGTH: nat := 4096
  const MAX_CHUNK_PAYLOAD_LEN: nat := 0x7fff_ffff
  const MAGIC: bytes := [0x05, 0xa6, 0x03]
  const HEADER_FRAME_LEN: nat := 4065 // 4096 - 28 - 3

  type uint32 = x: int | 0 <= x <= 0xffff_ffff
  type int64 = x: int | -0x8000_0000_0000_0000 <= x <= 0x7fff_ffff_ffff_ffff

  /** The next version; after the greatest comes the least. */
  function NextVersion(v: int64): int64 { if v == 0x7fff_ffff_ffff_ffff then -0x8000_0000_0000_0000 else v + 1 }

  /** Version `v` after `n` steps. */
  function Advanced(v: int64, n: nat): int64 { if n == 0 then v else NextVersion(Advanced(v, n - 1)) }

  /** It is a counter of 64 bits: fewer steps than it has values lead to another version. */
  lemma {:induction false} AdvancedIs(v: int64, n: nat)
    ensures (Advanced(v, n) - v - n) % 0x1_0000_0000_0000_0000 == 0
    ensures 0 < n < 0x1_0000_0000_0000_0000 ==> Advanced(v, n) != v
  {
    if n > 0 { AdvancedIs(v, n - 1); }
  }

  lemma {:induction false} AdvancedMore(v: int64, m: nat, n: nat)
    ensures Advanced(Advanced(v, m), n) == Advanced(v, m + n)
  {
    if n > 0 { AdvancedMore(v, m, n - 1); }
  }

  datatype ChunkHeader = ChunkHeader(payloadLen: uint32, payloadVersion: int64)

  /** A cipher together with the header serialisation, which is opaque up to its inverse and length laws. */
  datatype Format = Format(c: Cipher, gob: ChunkHeader -> bytes, ungob: bytes -> Option<ChunkHeader>) {
    ghost predicate GobInverted(h: ChunkHeader)
    {
      |gob(h)| <= HEADER_FRAME_LEN && ungob(gob(h) + Zeros(HEADER_FRAME_LEN - |gob(h)|)) == Some(h)
    }

    ghost predicate Lawful()
    {
      c.Lawful() && forall h :: GobInverted(h)
    }

    /** What `ChunkHeader.WriteTo` leaves at the start of a blob. */
    ghost function HeaderBytes(k: nat, h: ChunkHeader): bytes
      requires GobInverted(h)
    {
      MAGIC + c.EncryptFrame(k, gob(h) + Zeros(HEADER_FRAME_LEN - |gob(h)|))
    }

    /** `ChunkHeader.ReadFrom`: magic, format byte, one frame, its decoding. */
    function ParseHeader(b: bytes): Option<ChunkHeader>
    {
      if |b| < CHUNK_HEADER_LENGTH || b[..3] != MAGIC then None
      else
        var dec := c.DecryptFrame(b[3..CHUNK_HEADER_LENGTH]);
        if dec == None then None else ungob(dec.value)
    }

    /** The version of a chunk blob: 0 for one too short to hold even the magic, `None` for a broken one. */
    function QueryVersion(b: bytes): Option<int>
    {
      if |b| < 3 then Some(0)
      else
        var h := ParseHeader(b);
        if h == None then None else Some(h.value.payloadVersion)
    }

    lemma HeaderRoundTrip(k: nat, h: ChunkHeader, rest: bytes)
      requires Lawful()
      ensures GobInverted(h) && |HeaderBytes(k, h)| == CHUNK_HEADER_LENGTH
      ensures ParseHeader(HeaderBytes(k, h) + rest) == Some(h)
      ensures QueryVersion(HeaderBytes(k, h) + rest) == Some(h.payloadVersion)
    {
      assert GobInverted(h);
      var plain := gob(h) + Zeros(HEADER_FRAME_LEN - |gob(h)|);
      var b := HeaderBytes(k, h) + rest;
      c.FrameRoundTrip(k, plain);
      assert b[..3] == MAGIC;
      assert b[3..CHUNK_HEADER_LENGTH] == c.EncryptFrame(k, plain);
    }

    /** A header cut short has no version, except that one cut within the magic counts as never written. */
    lemma HeaderCut(k: nat, h: ChunkHeader, n: nat)
      requires Lawful() && GobInverted(h) && n < CHUNK_HEADER_LENGTH
      ensures |HeaderBytes(k, h)| == CHUNK_HEADER_LENGTH
      ensures QueryVersion(HeaderBytes(k, h)[..n]) == if n < 3 then Some(0) else None
    {
      HeaderRoundTrip(k, h, []);
    }

    method WriteHeader(k: nat, h: ChunkHeader) returns (b: bytes)
      requires Lawful()
      ensures GobInverted(h) && b == HeaderBytes(k, h)
    {
      assert GobInverted(h);
      var encoded := gob(h);
      b := MAGIC + c.EncryptFrame(k, encoded + Zeros(HEADER_FRAME_LEN - |encoded|));
    }
  }

  // ---------------------------------------------------------------- the laws can be met

  /** The `k` lowest base-256 digits of `v`, lowest first. */
  function Digits(v: nat, k: nat): (d: bytes)
    ensures |d| == k
  {
    if k == 0 then [] else [(v % 256) as byte] + Digits(v / 256, k - 1)
  }

  function Undigits(d: bytes): nat
  {
    if d == [] then 0 else d[0] as int + 256 * Undigits(d[1..])
  }

  function Power(k: nat): nat { if k == 0 then 1 else 256 * Power(k - 1) }

  lemma {:induction false} DigitsInverted(v: nat, k: nat)
    requires v < Power(k)
    ensures Undigits(Digits(v, k)) == v
  {
    if k > 0 {
      assert v / 256 < Power(k - 1);
      DigitsInverted(v / 256, k - 1);
      assert Digits(v, k)[1..] == Digits(v / 256, k - 1);
    }
  }

  /** One way to write a header: its length in four digits and its version, made non-negative, in eight. */
  function PlainGob(h: ChunkHeader): bytes
  {
    Digits(h.payloadLen, 4) + Digits(h.payloadVersion + 0x8000_0000_0000_0000, 8)
  }

  function PlainUngob(b: bytes): Option<ChunkHeader>
  {
    if |b| < 12 then None
    else
      var l, v := Undigits(b[..4]), Undigits(b[4..12]) - 0x8000_0000_0000_0000;
      if l <= 0xffff_ffff && v <= 0x7fff_ffff_ffff_ffff then Some(ChunkHeader(l, v)) else None
  }

  lemma Powers()
    ensures Power(4) == 0x1_0000_0000 && Power(8) == 0x1_0000_0000_0000_0000
  {
    assert Power(1) == 256 && Power(2) == 0x1_0000 && Power(3) == 0x100_0000;
    assert Power(4) == 0x1_0000_0000;
    assert Power(5) == 0x100_0000_0000 && Power(6) == 0x1_0000_0000_0000;
    assert Power(7) == 0x100_0000_0000_0000;
  }

  /** There is a lawful format, whatever the lawful cipher: nothing below is about no format at all. */
  lemma FormatExists(c: Cipher)
    requires c.Lawful()
    ensures exists f: Format :: f.c == c && f.Lawful()
  {
    var f := Format(c, PlainGob, PlainUngob);
    forall h: ChunkHeader ensures f.GobInverted(h) {
      Powers();
      DigitsInverted(h.payloadLen, 4);
      DigitsInverted(h.payloadVersion + 0x8000_0000_0000_0000, 8);
      var b := PlainGob(h) + Zeros(HEADER_FRAME_LEN - 12);
      assert b[..4] == Digits(h.payloadLen, 4);
      assert b[4..12] == Digits(h.payloadVersion + 0x8000_0000_0000_0000, 8);
    }
    assert f.Lawful();
  }

  lemma LawfulExists()
    ensures exists f: Format :: f.Lawful()
  {
    CipherExists();
    var c: Cipher :| c.Lawful();
    FormatExists(c);
  }

  /** Where frame `i` starts in the blob. */
  function FrameOffset(i: nat): nat { 4096 + i * 0x4001c }

  /** The part of a payload that frame `i` carries. */
  function FramePart(p: bytes, i: nat): bytes
    requires FrameStart(i) <= |p|
  {
    Part(p, FrameStart(i), FRAME_MAX_PAYLOAD)
  }

  ghost predicate FrameStored(c: Cipher, b: bytes, p: bytes, i: nat)
    requires FrameStart(i) < |p|
  {
    var end := FrameOffset(i) + EncryptedFrameSize(|FramePart(p, i)|);
    end <= |b| && c.DecryptFrame(b[FrameOffset(i)..end]) == Some(FramePart(p, i))
  }

  /** Frame `i` is the last frame of a content of `n` bytes. */
  predicate EndsIn(n: nat, i: nat)
  {
    FrameStart(i) < n <= FrameStart(i) + FRAME_MAX_PAYLOAD
  }

  lemma LastFrame(n: nat) returns (i: nat)
    requires n > 0
    ensures EndsIn(n, i)
  {
    i := (n - 1) / 0x40000;
  }

  /** The exact size of a blob whose content has `n` bytes. */
  ghost predicate BlobLen(len: nat, n: nat)
  {
    if n == 0 then len == 0 || len == CHUNK_HEADER_LENGTH
    else forall i {:trigger EndsIn(n, i)} ::
           EndsIn(n, i) ==> len == FrameOffset(i) + EncryptedFrameSize(n - FrameStart(i))
  }

  /** The frames of `b` hold exactly the payload `p`, tiled back to back up to the end of the blob. */
  ghost predicate Body(c: Cipher, b: bytes, p: bytes)
  {
    && BlobLen(|b|, |p|)
    && forall i {:trigger FrameStored(c, b, p, i)} :: FrameStart(i) < |p| ==> FrameStored(c, b, p, i)
  }

  /** A closed chunk blob: header and frames describe the payload `p`. A blob never written to holds nothing. */
  ghost predicate Holds(f: Format, b: bytes, p: bytes)
  {
    && Body(f.c, b, p)
    && (|b| > 0 ==> f.ParseHeader(b).Some? && f.ParseHeader(b).value.payloadLen == |p|)
  }

  /** A closed chunk blob is of version `v`; one never written to is to start from 1. */
  ghost predicate OfVersion(f: Format, b: bytes, v: int64)
  {
    if b == [] then v == 1 else f.QueryVersion(b) == Some(v)
  }

  lemma FramePartOfTail(p: bytes, i: nat)
    requires FrameStart(i) < |p|
    ensures var q := p[FrameStart(i)..]; var n := Min(|q|, FRAME_MAX_PAYLOAD);
            && q[..n] == FramePart(p, i)
            && (n == FRAME_MAX_PAYLOAD ==> q[n..] == p[FrameStart(i + 1)..])
            && (n < FRAME_MAX_PAYLOAD ==> q[n..] == [])
  {
  }

  /** Random-access layout implies sequential layout, from any frame on. */
  lemma {:induction false} BodyCarriesFrom(c: Cipher, b: bytes, p: bytes, i: nat)
    requires Body(c, b, p) && FrameStart(i) <= |p|
    ensures Carries(c, b, FrameOffset(i), p[FrameStart(i)..])
    decreases |p| - FrameStart(i)
  {
    if FrameStart(i) < |p| {
      FramePartOfTail(p, i);
      assert FrameStored(c, b, p, i);
      if FrameStart(i + 1) <= |p| { BodyCarriesFrom(c, b, p, i + 1); }
    }
  }

  /** Sequential layout implies random-access layout, frame by frame. */
  lemma {:induction false} CarriesFrame(c: Cipher, b: bytes, p: bytes, j: nat, i: nat)
    requires j <= i && FrameStart(i) < |p|
    requires Carries(c, b, FrameOffset(j), p[FrameStart(j)..])
    ensures FrameStored(c, b, p, i)
    decreases i - j
  {
    FramePartOfTail(p, j);
    if j < i { CarriesFrame(c, b, p, j + 1, i); }
  }

  /** Both views of a blob of the exact size agree. */
  lemma BodyIffCarries(c: Cipher, b: bytes, p: bytes)
    requires BlobLen(|b|, |p|)
    ensures Body(c, b, p) <==> Carries(c, b, CHUNK_HEADER_LENGTH, p)
  {
    assert p[FrameStart(0)..] == p;
    if Body(c, b, p) {
      BodyCarriesFrom(c, b, p, 0);
    }
    if Carries(c, b, CHUNK_HEADER_LENGTH, p) {
      forall i | FrameStart(i) < |p| ensures FrameStored(c, b, p, i) { CarriesFrame(c, b, p, 0, i); }
    }
  }

  /** `np` is `p` with the content of frame `i`, which exists or is the next to append, replaced and not shortened. */
  ghost predicate FrameReplaced(p: bytes, np: bytes, i: nat)
  {
    && FrameStart(i) <= |p| <= |np|
    && FrameStart(i) < |np|
    && np[..FrameStart(i)] == p[..FrameStart(i)]
    && (if |p| > FrameStart(i) + FRAME_MAX_PAYLOAD
        then |np| == |p| && np[FrameStart(i) + FRAME_MAX_PAYLOAD..] == p[FrameStart(i) + FRAME_MAX_PAYLOAD..]
        else |np| <= FrameStart(i) + FRAME_MAX_PAYLOAD)
  }

  lemma SamePrefixSlice(a: bytes, b: bytes, n: nat, lo: nat, hi: nat)
    requires lo <= hi <= n <= |a| && n <= |b| && a[..n] == b[..n]
    ensures a[lo..hi] == b[lo..hi]
  {
    assert a[..n][lo..hi] == a[lo..hi] && b[..n][lo..hi] == b[lo..hi];
  }

  lemma SameSuffixSlice(a: bytes, b: bytes, n: nat, lo: nat, hi: nat)
    requires n <= lo <= hi <= |a| == |b| && a[n..] == b[n..]
    ensures a[lo..hi] == b[lo..hi]
  {
    assert a[n..][lo - n..hi - n] == a[lo..hi] && b[n..][lo - n..hi - n] == b[lo..hi];
  }

  /** Every other frame keeps its content and its place. */
  lemma OtherFrameKept(p: bytes, np: bytes, i: nat, j: nat)
    requires FrameReplaced(p, np, i) && j != i && FrameStart(j) < |np|
    ensures FrameStart(j) < |p| && FramePart(np, j) == FramePart(p, j)
    ensures j < i ==> |FramePart(p, j)| == FRAME_MAX_PAYLOAD
  {
    if j < i {
      SamePrefixSlice(np, p, FrameStart(i), FrameStart(j), FrameStart(j) + FRAME_MAX_PAYLOAD);
    } else {
      SameSuffixSlice(np, p, FrameStart(i) + FRAME_MAX_PAYLOAD, FrameStart(j),
                      Min(FrameStart(j) + FRAME_MAX_PAYLOAD, |np|));
    }
  }

  /** A positioned write puts its bytes in place. */
  lemma OverwriteHere(b: bytes, e: bytes, off: nat)
    requires e != []
    ensures Overwrite(b, e, off)[off..off + |e|] == e
  {
    var r := Overwrite(b, e, off);
    assert forall i :: 0 <= i < |e| ==> r[off..off + |e|][i] == At(r, off + i) == e[i];
  }

  /** A positioned write leaves every slice it does not touch as it was. */
  lemma OverwriteElsewhere(b: bytes, e: bytes, off: nat, lo: nat, hi: nat)
    requires lo <= hi <= |b| && (hi <= off || off + |e| <= lo)
    ensures Overwrite(b, e, off)[lo..hi] == b[lo..hi]
  {
    var r := Overwrite(b, e, off);
    assert forall i :: lo <= i < hi ==> r[i] == At(r, i) == At(b, i) == b[i];
  }

  /** Replacing frame `i` makes the blob as long as the new content needs. */
  lemma GrownBlobLen(len: nat, p: bytes, np: bytes, i: nat)
    requires FrameReplaced(p, np, i) && BlobLen(len, |p|)
    ensures BlobLen(Max(len, FrameOffset(i) + EncryptedFrameSize(|FramePart(np, i)|)), |np|)
  {
    if p == [] {
      assert EndsIn(|np|, i);
    } else {
      var l := LastFrame(|p|);
      assert len == FrameOffset(l) + EncryptedFrameSize(|p| - FrameStart(l));
      assert EndsIn(|np|, Max(l, i));
    }
  }

  lemma OtherFrameStored(c: Cipher, b: bytes, p: bytes, np: bytes, i: nat, j: nat, e: bytes)
    requires FrameReplaced(p, np, i) && j != i && FrameStart(j) < |np|
    requires FrameStart(j) < |p| ==> FrameStored(c, b, p, j)
    requires |e| == EncryptedFrameSize(|FramePart(np, i)|)
    ensures FrameStored(c, Overwrite(b, e, FrameOffset(i)), np, j)
  {
    OtherFrameKept(p, np, i, j);
    OverwriteElsewhere(b, e, FrameOffset(i), FrameOffset(j), FrameOffset(j) + EncryptedFrameSize(|FramePart(p, j)|));
  }

  /** Writing a frame's encryption at its offset makes the blob hold the new payload. */
  lemma FrameWritten(c: Cipher, b: bytes, p: bytes, np: bytes, i: nat, k: nat)
    requires c.Lawful() && Body(c, b, p) && FrameReplaced(p, np, i)
    ensures Body(c, Overwrite(b, c.EncryptFrame(k, FramePart(np, i)), FrameOffset(i)), np)
  {
    var e := c.EncryptFrame(k, FramePart(np, i));
    c.FrameRoundTrip(k, FramePart(np, i));
    GrownBlobLen(|b|, p, np, i);
    OverwriteHere(b, e, FrameOffset(i));
    forall j | FrameStart(j) < |np| ensures FrameStored(c, Overwrite(b, e, FrameOffset(i)), np, j) {
      if j != i { OtherFrameStored(c, b, p, np, i, j, e); }
    }
  }

  /** Writing the header touches no frame. */
  lemma HeaderWritten(f: Format, b: bytes, p: bytes, k: nat, h: ChunkHeader)
    requires f.Lawful() && Body(f.c, b, p) && h.payloadLen == |p|
    ensures f.GobInverted(h) && Holds(f, Overwrite(b, f.HeaderBytes(k, h), 0), p)
    ensures f.ParseHeader(Overwrite(b, f.HeaderBytes(k, h), 0)) == Some(h)
  {
    f.HeaderRoundTrip(k, h, []);
    var e := f.HeaderBytes(k, h);
    var r := Overwrite(b, e, 0);
    OverwriteHere(b, e, 0);
    f.HeaderRoundTrip(k, h, r[CHUNK_HEADER_LENGTH..]);
    assert r == e + r[CHUNK_HEADER_LENGTH..];
    forall j | FrameStart(j) < |p| ensures FrameStored(f.c, r, p, j) {
      assert FrameStored(f.c, b, p, j);
      OverwriteElsewhere(b, e, 0, FrameOffset(j), FrameOffset(j) + EncryptedFrameSize(|FramePart(p, j)|));
    }
  }

  lemma {:induction false} EncStreamLen(c: Cipher, k: nat, p: bytes)
    requires c.Lawful()
    ensures BlobLen(CHUNK_HEADER_LENGTH + |EncStream(c, k, p)|, |p|)
    decreases |p|
  {
    if p != [] {
      var n := Min(|p|, FRAME_MAX_PAYLOAD);
      c.FrameRoundTrip(k, p[..n]);
      EncStreamLen(c, k + 1, p[n..]);
      forall i: nat | EndsIn(|p|, i)
        ensures CHUNK_HEADER_LENGTH + |EncStream(c, k, p)| == FrameOffset(i) + EncryptedFrameSize(|p| - FrameStart(i))
      {
        if |p| > n { assert i != 0; assert EndsIn(|p[n..]|, i - 1); } else { assert EncStream(c, k + 1, p[n..]) == []; }
      }
    }
  }

  /** A header followed by an encrypted stream is a chunk blob that random access can read. */
  lemma StreamedBlobHolds(f: Format, k: nat, h: ChunkHeader, k': nat, p: bytes)
    requires f.Lawful() && h.payloadLen == |p|
    ensures f.GobInverted(h) && Holds(f, f.HeaderBytes(k, h) + EncStream(f.c, k', p), p)
  {
    f.HeaderRoundTrip(k, h, EncStream(f.c, k', p));
    var b := f.HeaderBytes(k, h) + EncStream(f.c, k', p);
    EncStreamLen(f.c, k', p);
    EncStreamCarries(f.c, k', p, f.HeaderBytes(k, h), []);
    assert b + [] == b;
    BodyIffCarries(f.c, b, p);
  }
}
