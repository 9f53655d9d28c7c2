/**
 * The encrypted frame format as a stream (btncrypt/btncrypt.go).
 *
 * AES-GCM and the random source are parameters: a `Cipher` is any pair of functions with the inverse
 * and length laws of an AEAD, together with the nonces it will draw. Nothing here needs nonces to differ.
 */
module Btncrypt {
  import opened Bytes

  const FRAME_MAX_PAYLOAD: nat := 0x40000

  // AES-GCM with the standard nonce: 12 bytes in front, a 16-byte tag behind.
  const NONCE_SIZE: nat := 12
  const TAG_SIZE: nat := 16
  const FRAME_OVERHEAD: nat := 28

  /** Where the `i`-th frame of a plaintext starts. */
  function FrameStart(i: nat): nat { i * 0x40000 }

  function EncryptedFrameSize(payloadLen: nat): nat { payloadLen + FRAME_OVERHEAD }

  datatype Cipher = Cipher(
    seal: (bytes, bytes) -> bytes,
    open: (bytes, bytes) -> Option<bytes>,
    nonce: nat -> bytes)
  {
    ghost predicate NonceSized(k: nat) { |nonce(k)| == NONCE_SIZE }

    ghost predicate SealInverted(n: bytes, p: bytes)
    {
      |n| == NONCE_SIZE ==> |seal(n, p)| == |p| + TAG_SIZE && open(n, seal(n, p)) == Some(p)
    }

    ghost predicate OpenSized(n: bytes, e: bytes)
    {
      |n| == NONCE_SIZE && open(n, e).Some? ==> |open(n, e).value| + TAG_SIZE == |e|
    }

    ghost predicate Lawful()
    {
      && (forall k :: NonceSized(k))
      && (forall n, p :: SealInverted(n, p))
      && (forall n, e :: OpenSized(n, e))
    }

    /** Encrypts with the `k`-th nonce drawn. */
    function EncryptFrame(k: nat, p: bytes): bytes
    {
      nonce(k) + seal(nonce(k), p)
    }

    function DecryptFrame(e: bytes): Option<bytes>
    {
      if |e| < NONCE_SIZE then None else open(e[..NONCE_SIZE], e[NONCE_SIZE..])
    }

    lemma FrameRoundTrip(k: nat, p: bytes)
      requires Lawful()
      ensures |EncryptFrame(k, p)| == EncryptedFrameSize(|p|)
      ensures DecryptFrame(EncryptFrame(k, p)) == Some(p)
    {
      var n := nonce(k);
      var e := EncryptFrame(k, p);
      assert NonceSized(k) && SealInverted(n, p);
      assert e[..NONCE_SIZE] == n && e[NONCE_SIZE..] == seal(n, p);
    }

    lemma DecryptedLength(e: bytes)
      requires Lawful() && DecryptFrame(e).Some?
      ensures EncryptedFrameSize(|DecryptFrame(e).value|) == |e|
    {
      assert OpenSized(e[..NONCE_SIZE], e[NONCE_SIZE..]);
    }
  }

  /** Seals by appending a tag of zeros. */
  function PlainSeal(n: bytes, p: bytes): bytes { p + Zeros(TAG_SIZE) }

  function PlainOpen(n: bytes, e: bytes): Option<bytes>
  {
    if |e| < TAG_SIZE || e[|e| - TAG_SIZE..] != Zeros(TAG_SIZE) then None else Some(e[..|e| - TAG_SIZE])
  }

  /** There is a lawful cipher: nothing below is about no cipher at all. */
  lemma CipherExists()
    ensures exists c: Cipher :: c.Lawful()
  {
    var c := Cipher(PlainSeal, PlainOpen, k => Zeros(NONCE_SIZE));
    forall n, p ensures c.SealInverted(n, p) {
      var e := PlainSeal(n, p);
      assert e[|e| - TAG_SIZE..] == Zeros(TAG_SIZE) && e[..|e| - TAG_SIZE] == p;
    }
    assert c.Lawful();
  }

  /** The frames of `plain`, drawing nonces from the `k`-th on: full frames, then what is left. */
  function EncStream(c: Cipher, k: nat, plain: bytes): bytes
    decreases |plain|
  {
    if plain == [] then []
    else
      var n := Min(|plain|, FRAME_MAX_PAYLOAD);
      c.EncryptFrame(k, plain[..n]) + EncStream(c, k + 1, plain[n..])
  }

  /** `b` holds at `pos`, back to back, frames that decrypt to `plain`. */
  ghost predicate Carries(c: Cipher, b: bytes, pos: nat, plain: bytes)
    decreases |plain|
  {
    plain == []
    || (var n := Min(|plain|, FRAME_MAX_PAYLOAD);
        var end := pos + EncryptedFrameSize(n);
        && end <= |b|
        && c.DecryptFrame(b[pos..end]) == Some(plain[..n])
        && Carries(c, b, end, plain[n..]))
  }

  /** Frame `i` of a stream lies at a fixed place. */
  lemma {:induction false} EncStreamAt(c: Cipher, k: nat, plain: bytes, i: nat)
    requires c.Lawful() && FrameStart(i) < |plain|
    ensures var e := c.EncryptFrame(k + i, Part(plain, FrameStart(i), FRAME_MAX_PAYLOAD));
            var at := i * EncryptedFrameSize(FRAME_MAX_PAYLOAD);
            at + |e| <= |EncStream(c, k, plain)| && EncStream(c, k, plain)[at..at + |e|] == e
    decreases i
  {
    var n := Min(|plain|, FRAME_MAX_PAYLOAD);
    var e, rest := c.EncryptFrame(k, plain[..n]), EncStream(c, k + 1, plain[n..]);
    if i == 0 {
      assert Part(plain, 0, FRAME_MAX_PAYLOAD) == plain[..n];
      assert (e + rest)[..|e|] == e;
    } else {
      c.FrameRoundTrip(k, plain[..n]);
      EncStreamAt(c, k + 1, plain[n..], i - 1);
      PartLater(plain, FrameStart(i - 1));
      var a := (i - 1) * EncryptedFrameSize(FRAME_MAX_PAYLOAD);
      EncLater(e, rest, a, a + |c.EncryptFrame(k + i, Part(plain, FrameStart(i), FRAME_MAX_PAYLOAD))|);
    }
  }

  lemma PartLater(plain: bytes, at: nat)
    requires FRAME_MAX_PAYLOAD + at < |plain|
    ensures Part(plain, FRAME_MAX_PAYLOAD + at, FRAME_MAX_PAYLOAD)
         == Part(plain[FRAME_MAX_PAYLOAD..], at, FRAME_MAX_PAYLOAD)
  {
    var p, q := Part(plain, FRAME_MAX_PAYLOAD + at, FRAME_MAX_PAYLOAD),
                Part(plain[FRAME_MAX_PAYLOAD..], at, FRAME_MAX_PAYLOAD);
    assert |p| == |q| && forall x :: 0 <= x < |p| ==> p[x] == plain[FRAME_MAX_PAYLOAD + at + x] == q[x];
  }

  /** A frame starts with the nonce it was sealed with, one of its own draw. */
  lemma FrameLayout(c: Cipher, k: nat, p: bytes)
    requires c.Lawful()
    ensures var e := c.EncryptFrame(k, p);
            |e| == |p| + 28 && e[..12] == c.nonce(k) && e[12..] == c.seal(c.nonce(k), p)
  {
    c.FrameRoundTrip(k, p);
    assert c.NonceSized(k);
  }

  lemma EncLater(e: bytes, rest: bytes, lo: nat, hi: nat)
    requires lo <= hi <= |rest|
    ensures (e + rest)[|e| + lo..|e| + hi] == rest[lo..hi]
  {
  }

  /** Encoding is compositional after `m` full frames. */
  lemma {:induction false} EncStreamAppend(c: Cipher, k: nat, a: bytes, m: nat, b: bytes)
    requires |a| == FrameStart(m)
    ensures EncStream(c, k, a + b) == EncStream(c, k, a) + EncStream(c, k + m, b)
    decreases m
  {
    if m == 0 {
      assert a + b == b;
    } else {
      var n := FRAME_MAX_PAYLOAD;
      assert (a + b)[..n] == a[..n] && (a + b)[n..] == a[n..] + b;
      EncStreamAppend(c, k + 1, a[n..], m - 1, b);
    }
  }

  /** A frame after `m` full ones. */
  lemma EncStreamSnoc(c: Cipher, a: bytes, m: nat, p: bytes)
    requires |a| == FrameStart(m) && 0 < |p| <= FRAME_MAX_PAYLOAD
    ensures EncStream(c, 0, a + p) == EncStream(c, 0, a) + c.EncryptFrame(m, p)
  {
    EncStreamAppend(c, 0, a, m, p);
    assert p[..|p|] == p && p[|p|..] == [];
    assert EncStream(c, m + 1, p[|p|..]) == [];
  }

  lemma Regroup(pre: bytes, e: bytes, tail: bytes, post: bytes)
    ensures pre + (e + tail) + post == (pre + e) + tail + post
    ensures (pre + (e + tail) + post)[|pre|..|pre| + |e|] == e
  {
  }

  /** An encoded stream carries its plaintext wherever it is embedded. */
  lemma {:induction false} EncStreamCarries(c: Cipher, k: nat, plain: bytes, pre: bytes, post: bytes)
    requires c.Lawful()
    ensures Carries(c, pre + EncStream(c, k, plain) + post, |pre|, plain)
    decreases |plain|
  {
    if plain != [] {
      var n := Min(|plain|, FRAME_MAX_PAYLOAD);
      var e := c.EncryptFrame(k, plain[..n]);
      c.FrameRoundTrip(k, plain[..n]);
      Regroup(pre, e, EncStream(c, k + 1, plain[n..]), post);
      EncStreamCarries(c, k + 1, plain[n..], pre + e, post);
    }
  }

  lemma Unappend(a: bytes, b: bytes)
    ensures (a + b)[..|a|] == a && (a + b)[|a|..] == b
  {
  }

  /** Encrypts what is written to it; `plain` is everything accepted so far. The destination may refuse frames. */
  class WriteCloser {
    const c: Cipher
    const lenTotal: int
    const refuses: nat -> bool
    ghost const prefix: bytes
    ghost var plain: bytes
    var dst: bytes
    var lenWritten: nat
    var remBuf: bytes
    var drawn: nat

    ghost predicate Valid()
      reads this
    {
      && c.Lawful()
      && |remBuf| < FRAME_MAX_PAYLOAD
      && lenWritten == |plain|
      && |plain| == FrameStart(drawn) + |remBuf|
      && plain[FrameStart(drawn)..] == remBuf
      && dst == prefix + EncStream(c, 0, plain[..FrameStart(drawn)])
    }

    /** The destination has the first `m` frames of `all`, which are full, and refuses the next. */
    ghost predicate Stopped(all: bytes, m: nat)
      reads this
    {
      FrameStart(m) <= |all| && dst == prefix + EncStream(c, 0, all[..FrameStart(m)]) && refuses(m)
    }

    constructor (c: Cipher, dst: bytes, lenTotal: int, refuses: nat -> bool)
      requires c.Lawful()
      ensures Valid()
      ensures this.c == c && prefix == dst && this.lenTotal == lenTotal && plain == [] && this.refuses == refuses
    {
      this.c, this.dst, this.lenTotal, this.refuses, prefix := c, dst, lenTotal, refuses, dst;
      lenWritten, remBuf, drawn, plain := 0, [], 0, [];
    }

    /** Appends one frame after the full frames emitted so far. */
    method EmitFrame(p: bytes, ghost done: bytes) returns (ok: bool)
      requires c.Lawful()
      requires 0 < |p| <= FRAME_MAX_PAYLOAD && |done| == FrameStart(drawn)
      requires dst == prefix + EncStream(c, 0, done)
      modifies this`dst, this`drawn
      ensures ok == !refuses(old(drawn))
      ensures ok ==> dst == prefix + EncStream(c, 0, done + p) && drawn == old(drawn) + 1
      ensures !ok ==> dst == old(dst) && drawn == old(drawn)
    {
      EncStreamSnoc(c, done, drawn, p);
      var enc := c.EncryptFrame(drawn, p);
      if refuses(drawn) {
        return false;
      }
      dst := dst + enc;
      drawn := drawn + 1;
      ok := true;
    }

    method Write(p0: bytes) returns (n: nat, ok: bool)
      requires Valid()
      modifies this
      ensures ok ==> Valid() && n == |p0| && plain == old(plain) + p0
      ensures !ok ==> n == 0 && exists m: nat :: Stopped(old(plain) + p0, m)
    {
      var p := p0;
      n, ok := |p|, true;
      if n == 0 {
        assert old(plain) + p0 == plain;
        return;
      }
      if |remBuf| > 0 && |remBuf| + |p| < FRAME_MAX_PAYLOAD {
        Buffer(p);
        return;
      }
      ghost var done := plain[..FrameStart(drawn)];
      assert plain == done + remBuf;
      if |remBuf| > 0 {
        var consume := FRAME_MAX_PAYLOAD - |remBuf|;
        ok := EmitFrame(remBuf + p[..consume], done);
        if !ok {
          Unappend(done, remBuf + p0);
          assert plain + p0 == done + (remBuf + p0);
          assert Stopped(old(plain) + p0, drawn);
          return 0, false;
        }
        done := done + (remBuf + p[..consume]);
        p := p[consume..];
      }
      assert plain + p0 == done + p;
      ok, done, p := EmitFull(p, done);
      if !ok {
        Unappend(done, p);
        assert Stopped(old(plain) + p0, drawn);
        return 0, false;
      }
      remBuf := p;
      lenWritten := lenWritten + n;
      plain := plain + p0;
      Unappend(done, remBuf);
    }

    /** What does not fill a frame waits in the buffer. */
    method Buffer(p: bytes)
      requires Valid() && |remBuf| + |p| < FRAME_MAX_PAYLOAD
      modifies this`remBuf, this`lenWritten, this`plain
      ensures Valid() && plain == old(plain) + p
    {
      remBuf := remBuf + p;
      lenWritten := lenWritten + |p|;
      plain := plain + p;
      assert plain[..FrameStart(drawn)] == old(plain)[..FrameStart(drawn)];
    }

    /** The loop over the full frames of what is left to write. */
    method EmitFull(p0: bytes, ghost done0: bytes) returns (ok: bool, ghost done: bytes, p: bytes)
      requires c.Lawful()
      requires |done0| == FrameStart(drawn)
      requires dst == prefix + EncStream(c, 0, done0)
      modifies this`dst, this`drawn
      ensures done + p == done0 + p0 && |done| == FrameStart(drawn)
      ensures dst == prefix + EncStream(c, 0, done)
      ensures if ok then |p| < FRAME_MAX_PAYLOAD else refuses(drawn)
    {
      ok, done, p := true, done0, p0;
      while |p| >= FRAME_MAX_PAYLOAD
        invariant done + p == done0 + p0
        invariant |done| == FrameStart(drawn)
        invariant dst == prefix + EncStream(c, 0, done)
      {
        ok := EmitFrame(p[..FRAME_MAX_PAYLOAD], done);
        if !ok {
          return;
        }
        assert done + p == (done + p[..FRAME_MAX_PAYLOAD]) + p[FRAME_MAX_PAYLOAD..];
        done := done + p[..FRAME_MAX_PAYLOAD];
        p := p[FRAME_MAX_PAYLOAD..];
      }
      ok := true;
    }

    /**
     * However the plaintext was cut into writes, the closed stream is the frames of the whole
     * plaintext. A length other than the declared one is an error, and so is a last frame refused.
     */
    method Close() returns (ok: bool)
      requires Valid()
      modifies this
      ensures ok <==> lenTotal == |old(plain)| && (old(remBuf) == [] || !refuses(old(drawn)))
      ensures ok ==> dst == prefix + EncStream(c, 0, old(plain))
      ensures !ok ==> Valid() && plain == old(plain)
    {
      if lenTotal != lenWritten {
        return false;
      }
      ghost var done := plain[..FrameStart(drawn)];
      assert plain == done + remBuf;
      if |remBuf| > 0 {
        ok := EmitFrame(remBuf, done);
        if !ok {
          return;
        }
        remBuf := [];
      } else {
        assert plain == done;
      }
      ok := true;
    }
  }

  /** Into a buffer, which refuses nothing. */
  method Encrypt(c: Cipher, plain: bytes) returns (env: bytes)
    requires c.Lawful()
    ensures env == EncStream(c, 0, plain)
  {
    var bew := new WriteCloser(c, [], |plain|, _ => false);
    var _, ok := bew.Write(plain);
    assert ok && bew.plain == plain;
    var _ := bew.Close();
    env := bew.dst;
  }

  lemma SliceJoin(p: bytes, a: nat, b: nat, d: nat)
    requires a <= b <= d <= |p|
    ensures p[a..b] + p[b..d] == p[a..d]
  {
  }

  datatype ReadError = NoError | Eof | Corrupt

  /**
   * Decrypts a source frame by frame; `pos` is how far the source has been consumed. `plain` is the
   * plaintext a caller hopes to find; the reader is `Genuine` while the source does hold it.
   */
  class Reader {
    const c: Cipher
    const src: bytes
    const lenTotal: nat
    ghost const plain: bytes
    var pos: nat
    var lenRead: nat
    var unread: bytes

    ghost predicate Valid()
      reads this
    {
      c.Lawful() && pos <= |src| && lenRead + |unread| <= lenTotal == |plain|
    }

    ghost predicate Genuine()
      requires Valid()
      reads this
    {
      && unread == plain[lenRead..lenRead + |unread|]
      && Carries(c, src, pos, plain[lenRead + |unread|..])
    }

    constructor (c: Cipher, src: bytes, pos: nat, lenTotal: nat, ghost plain: bytes)
      requires c.Lawful() && pos <= |src| && |plain| == lenTotal
      ensures Valid() && (Genuine() <==> Carries(c, src, pos, plain))
      ensures this.c == c && this.src == src && this.lenTotal == lenTotal && this.plain == plain
      ensures lenRead == 0
    {
      this.c, this.src, this.pos, this.lenTotal, this.plain := c, src, pos, lenTotal, plain;
      lenRead, unread := 0, [];
      assert plain[0..] == plain;
    }

    method DecryptNextFrame() returns (ok: bool)
      requires Valid() && unread == [] && lenRead < lenTotal
      modifies this`pos, this`unread
      ensures Valid() && (ok ==> unread != [])
      ensures old(Genuine()) ==> ok && Genuine()
    {
      var frameLen := Min(lenTotal - lenRead, FRAME_MAX_PAYLOAD);
      var end := pos + EncryptedFrameSize(frameLen);
      if end > |src| {
        return false;
      }
      var dec := c.DecryptFrame(src[pos..end]);
      if dec == None {
        pos := end;
        return false;
      }
      c.DecryptedLength(src[pos..end]);
      ghost var left := plain[lenRead..];
      assert left[..frameLen] == plain[lenRead..lenRead + frameLen];
      assert left[frameLen..] == plain[lenRead + frameLen..];
      pos, unread := end, dec.value;
      ok := true;
    }

    /** Reads of any sizes deliver the plaintext in order, then end-of-file. */
    method Read(len: nat) returns (data: bytes, err: ReadError)
      requires Valid()
      modifies this
      ensures Valid()
      ensures lenRead == old(lenRead) + |data| <= old(lenRead) + len
      ensures err == Eof <==> len == 0 || old(lenRead) == lenTotal
      ensures err == NoError ==> |data| == Min(len, lenTotal - old(lenRead))
      ensures old(Genuine()) ==> Genuine() && err != Corrupt && data == plain[old(lenRead)..lenRead]
    {
      var nr := Min(len, lenTotal - lenRead);
      data := [];
      if nr == 0 {
        return data, Eof;
      }
      while |data| < nr
        invariant Valid()
        invariant |data| <= nr && lenRead == old(lenRead) + |data|
        invariant old(Genuine()) ==> Genuine() && data == plain[old(lenRead)..lenRead]
      {
        if |unread| == 0 {
          var ok := DecryptNextFrame();
          if !ok {
            return data, Corrupt;
          }
        }
        ghost var at := lenRead;
        var out := Consume(nr - |data|);
        SliceJoin(plain, old(lenRead), at, lenRead);
        data := data + out;
      }
      err := NoError;
    }

    /** Takes what the current frame has, up to `left` bytes. */
    method Consume(left: nat) returns (out: bytes)
      requires Valid() && unread != [] && left > 0
      modifies this`unread, this`lenRead
      ensures Valid() && lenRead == old(lenRead) + |out| && 0 < |out| <= left
      ensures old(Genuine()) ==> Genuine() && out == plain[old(lenRead)..lenRead]
    {
      var consumeLen := Min(|unread|, left);
      out := unread[..consumeLen];
      unread := unread[consumeLen..];
      lenRead := lenRead + consumeLen;
    }
  }

  /** `io.ReadFull` on a fresh reader: `Read` fills the buffer or fails. */
  method Decrypt(c: Cipher, envelope: bytes, lenTotal: nat) returns (r: Option<bytes>)
    requires c.Lawful()
    ensures r.Some? ==> |r.value| == lenTotal
    ensures forall plain :: |plain| == lenTotal && Carries(c, envelope, 0, plain) ==> r == Some(plain)
  {
    if lenTotal == 0 {
      return Some([]);
    }
    ghost var plain := if q :| |q| == lenTotal && Carries(c, envelope, 0, q) then q else Zeros(lenTotal);
    var bdr := new Reader(c, envelope, 0, lenTotal, plain);
    var data, err := bdr.Read(lenTotal);
    r := if err == NoError then Some(data) else None;
    forall q | |q| == lenTotal && Carries(c, envelope, 0, q) ensures r == Some(q) {
      CarriesUnique(c, envelope, 0, plain, q);
      assert plain[0..lenTotal] == plain;
    }
  }

  /** A blob carries at most one plaintext of a given length. */
  lemma {:induction false} CarriesUnique(c: Cipher, b: bytes, pos: nat, p: bytes, q: bytes)
    requires |p| == |q| && Carries(c, b, pos, p) && Carries(c, b, pos, q)
    ensures p == q
    decreases |p|
  {
    if p != [] {
      var n := Min(|p|, FRAME_MAX_PAYLOAD);
      CarriesUnique(c, b, pos + EncryptedFrameSize(n), p[n..], q[n..]);
      assert p == p[..n] + p[n..] && q == q[..n] + q[n..];
    }
  }

  method RoundTrip(c: Cipher, plain: bytes) returns (r: Option<bytes>)
    requires c.Lawful()
    ensures r == Some(plain)
  {
    var env := Encrypt(c, plain);
    EncStreamCarries(c, 0, plain, [], []);
    assert [] + env + [] == env;
    r := Decrypt(c, env, |plain|);
  }
}
