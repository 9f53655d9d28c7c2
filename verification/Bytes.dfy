/** Byte strings with zero extension: what every layer of the byte stack reads and writes. */
module Bytes {

  newtype byte = x: int | 0 <= x < 256

  type bytes = seq<byte>

  const MAX_INT32: nat := 0x7fff_ffff
  const MAX_INT64: nat := 0x7fff_ffff_ffff_ffff

  datatype Option<+T> = None | Some(value: T)

  function Min(a: int, b: int): int { if a < b then a else b }

  function Max(a: int, b: int): int { if a < b then b else a }

  function Zeros(n: nat): bytes { seq(n, _ => 0) }

  /** The byte at position `i` of `b` continued with zeros. */
  function At(b: bytes, i: int): byte
  {
    if 0 <= i < |b| then b[i] else 0
  }

  function ZeroExtend(b: bytes, n: nat): (r: bytes)
    ensures |r| == Max(|b|, n)
    ensures forall i {:trigger At(r, i)} :: At(r, i) == At(b, i)
  {
    if n <= |b| then b else b + Zeros(n - |b|)
  }

  /** `r` is `b` after a positioned write: grown with zeros up to the write, unchanged outside it. */
  ghost predicate IsOverwrite(b: bytes, p: bytes, off: nat, r: bytes)
  {
    && |r| == (if p == [] then |b| else Max(|b|, off + |p|))
    && forall i {:trigger At(r, i)} :: At(r, i) == if off <= i < off + |p| then p[i - off] else At(b, i)
  }

  /** The one byte string that a positioned write leaves; an empty write changes nothing. */
  ghost function Overwrite(b: bytes, p: bytes, off: nat): (r: bytes)
    ensures IsOverwrite(b, p, off, r)
    ensures p == [] ==> r == b
  {
    var e := ZeroExtend(b, if p == [] then 0 else off + |p|);
    assert IsOverwrite(b, p, off, if p == [] then b else e[..off] + p + e[off + |p|..]);
    var r :| IsOverwrite(b, p, off, r);
    assert p == [] ==> r == b by { if p == [] { SameBytes(r, b); } }
    r
  }

  /** A positioned read of at most `len` bytes, cut short at the end of the file. */
  function FlatRead(b: bytes, off: nat, len: nat): (r: bytes)
    ensures |r| == Max(0, Min(len, |b| - off))
    ensures forall i :: 0 <= i < |r| ==> r[i] == At(b, off + i)
  {
    if off >= |b| then [] else b[off..Min(off + len, |b|)]
  }

  /** Byte strings of one length that agree at every position are the same. */
  lemma SameBytes(a: bytes, b: bytes)
    requires |a| == |b|
    requires forall i :: 0 <= i < |a| ==> At(a, i) == At(b, i)
    ensures a == b
  {
    assert forall i :: 0 <= i < |a| ==> a[i] == At(a, i) == At(b, i) == b[i];
  }

  /** The part of `p` that a container of `size` bytes at `lo` holds. */
  function Part(p: bytes, lo: nat, size: nat): (r: bytes)
    requires lo <= |p|
    ensures |r| == Min(size, |p| - lo)
    ensures forall x {:trigger At(r, x)} :: 0 <= x < size ==> At(r, x) == At(p, lo + x)
  {
    p[lo..Min(lo + size, |p|)]
  }

  /** A write inside a container's range is a write to its part. */
  lemma PartOverwritten(p: bytes, lo: nat, size: nat, q: bytes, at: nat)
    requires q != [] && lo <= |p| && lo <= at && at + |q| <= lo + size
    ensures Part(Overwrite(p, q, at), lo, size) == Overwrite(Part(p, lo, size), q, at - lo)
  {
    SameBytes(Part(Overwrite(p, q, at), lo, size), Overwrite(Part(p, lo, size), q, at - lo));
  }

  /** A write outside a container's range leaves its part, if it is full or the write does not extend `p`. */
  lemma PartKept(p: bytes, lo: nat, size: nat, q: bytes, at: nat)
    requires lo <= |p| && (lo + size <= |p| || at + |q| <= |p|)
    requires at + |q| <= lo || lo + size <= at
    ensures Part(Overwrite(p, q, at), lo, size) == Part(p, lo, size)
  {
    SameBytes(Part(Overwrite(p, q, at), lo, size), Part(p, lo, size));
  }

  /** Two adjacent writes, the second starting where the first ends, are one write. */
  lemma OverwriteJoin(b: bytes, x: bytes, y: bytes, off: nat)
    ensures Overwrite(Overwrite(b, x, off), y, off + |x|) == Overwrite(b, x + y, off)
  {
    SameBytes(Overwrite(Overwrite(b, x, off), y, off + |x|), Overwrite(b, x + y, off));
  }

  /** A write of `p` from its `a`-th byte on, after `m - a` bytes, continued with `n` more. */
  lemma OverwriteOn(b: bytes, p: bytes, a: nat, m: nat, n: nat, off: nat)
    requires a <= m && m + n <= |p|
    ensures p[m..][..n] == p[m..m + n]
    ensures Overwrite(Overwrite(b, p[a..m], off), p[m..m + n], off + (m - a)) == Overwrite(b, p[a..m + n], off)
  {
    assert p[a..m] + p[m..m + n] == p[a..m + n];
    OverwriteJoin(b, p[a..m], p[m..m + n], off);
  }

  /**
   * A predicate stated as a quantifier over `z` with this trigger is carried folded: its definition is
   * only seen where a proof mentions `Unfolded`.
   */
  ghost predicate Unfolded(z: int) { true }
}
