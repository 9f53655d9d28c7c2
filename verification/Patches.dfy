/**
 * The sorted list of pending write patches (filewritecache/patch.go).
 *
 * A list means a partial byte string: `ByteAt(ps, x)` is the pending byte at file position `x`, if
 * any. Every operation is stated through that meaning.
 */
module Patches {
  import opened Bytes

  datatype Patch = Patch(offset: int, p: bytes) {
    function Left(): int { offset }

    function Right(): int { offset + |p| }

    predicate IsSentinel() { offset == MAX_INT64 }

    predicate Covers(x: int) { Left() <= x < Right() }

    function Byte(x: int): byte
      requires Covers(x)
    {
      p[x - offset]
    }
  }

  const SENTINEL := Patch(MAX_INT64, [])

  /** Patches before the sentinel are non-empty and strictly ordered without overlap. */
  ghost predicate Ordered(ps: seq<Patch>)
  {
    && (forall i :: 0 <= i < |ps| - 1 ==> |ps[i].p| > 0)
    && (forall i, j :: 0 <= i < j < |ps| ==> ps[i].Right() <= ps[j].Left())
  }

  ghost predicate Valid(ps: seq<Patch>)
  {
    |ps| > 0 && ps[|ps| - 1] == SENTINEL && Ordered(ps)
  }

  /** No patch is longer than an `int32` can say, which is what reading through the list relies on. */
  ghost predicate Small(ps: seq<Patch>)
  {
    forall i {:trigger ps[i]} :: 0 <= i < |ps| ==> |ps[i].p| <= MAX_INT32
  }

  /** The pending byte at position `x`. */
  function ByteAt(ps: seq<Patch>, x: int): Option<byte>
  {
    if ps == [] then None
    else if ps[0].Covers(x) then Some(ps[0].Byte(x))
    else ByteAt(ps[1..], x)
  }

  lemma {:induction false} ByteAtConcat(a: seq<Patch>, b: seq<Patch>, x: int)
    ensures ByteAt(a + b, x) == if ByteAt(a, x).Some? then ByteAt(a, x) else ByteAt(b, x)
  {
    if a == [] {
      assert a + b == b;
    } else {
      assert (a + b)[1..] == a[1..] + b;
      ByteAtConcat(a[1..], b, x);
    }
  }

  lemma {:induction false} ByteAtNone(ps: seq<Patch>, x: int)
    requires forall i :: 0 <= i < |ps| ==> !ps[i].Covers(x)
    ensures ByteAt(ps, x) == None
  {
    if ps != [] { ByteAtNone(ps[1..], x); }
  }

  lemma {:induction false} ByteAtSome(ps: seq<Patch>, k: nat, x: int)
    requires Ordered(ps) && k < |ps| && ps[k].Covers(x)
    ensures ByteAt(ps, x) == Some(ps[k].Byte(x))
  {
    if k > 0 {
      assert ps[0].Right() <= ps[k].Left();
      ByteAtSome(ps[1..], k - 1, x);
    }
  }

  /** Which patches a new one meets: `l..r` inclusive, empty when `r == l - 1`. Touching counts at the left end. */
  ghost predicate Meets(ps: seq<Patch>, newp: Patch, l: int, r: int)
  {
    && 0 <= l < |ps|
    && l - 1 <= r < |ps| - 1
    && (forall i :: 0 <= i < l ==> ps[i].Right() < newp.Left())
    && newp.Left() <= ps[l].Right()
    && (forall i :: l <= i <= r ==> ps[i].Left() < newp.Right())
    && newp.Right() <= ps[r + 1].Left()
  }

  /** Neither scan runs off the list: the sentinel stops both. */
  method FindLRIndex(ps: seq<Patch>, newp: Patch) returns (lefti: int, righti: int)
    requires Valid(ps)
    requires newp.Right() <= MAX_INT64
    ensures Meets(ps, newp, lefti, righti)
  {
    lefti := 0;
    while newp.Left() > ps[lefti].Right()
      invariant 0 <= lefti < |ps|
      invariant forall i :: 0 <= i < lefti ==> ps[i].Right() < newp.Left()
      decreases |ps| - lefti
    {
      lefti := lefti + 1;
    }

    righti := lefti;
    while newp.Right() > ps[righti].Left()
      invariant lefti <= righti < |ps|
      invariant forall i :: lefti <= i < righti ==> ps[i].Left() < newp.Right()
      decreases |ps| - righti
    {
      righti := righti + 1;
    }
    righti := righti - 1;
  }

  /** Go's `copy(dst[at:], src)`: as many elements as fit, read before written. */
  function CopyInto(dst: seq<Patch>, at: nat, src: seq<Patch>): (r: seq<Patch>)
    requires at <= |dst|
    ensures |r| == |dst|
  {
    var n := Min(|src|, |dst| - at);
    dst[..at] + src[..n] + dst[at + n..]
  }

  /** Splices `newps` over `ps[lefti..righti]` with slice moves. */
  method Replace(ps0: seq<Patch>, lefti: nat, righti: int, newps: seq<Patch>) returns (ps: seq<Patch>)
    requires lefti - 1 <= righti < |ps0|
    requires lefti <= |ps0|
    ensures ps == ps0[..lefti] + newps + ps0[righti + 1..]
  {
    ps := ps0;
    var ndel := Max(righti - lefti + 1, 0);
    var nexp := Max(0, |newps| - ndel);
    var i := 0;
    while i < nexp
      invariant 0 <= i <= nexp
      invariant |ps| == |ps0| + i && ps[..|ps0|] == ps0
    {
      ps := ps + [SENTINEL];
      i := i + 1;
    }

    var newr := |ps| - nexp + |newps| - ndel;
    var tail := CopyInto(ps[..newr], lefti + |newps|, ps[righti + 1..]);
    assert tail[lefti + |newps|..] == ps0[righti + 1..];
    ps := CopyInto(tail, lefti, newps);
    assert tail[..lefti] == ps0[..lefti];
    assert ps == tail[..lefti] + newps + tail[lefti + |newps|..];
  }

  /** What is left of `ps[l]` before the new patch. */
  function LeftPiece(ps: seq<Patch>, newp: Patch, l: nat): seq<Patch>
    requires l < |ps| && newp.Left() <= ps[l].Right()
  {
    if l < |ps| - 1 && newp.Left() > ps[l].Left()
    then [Patch(ps[l].offset, ps[l].p[..newp.Left() - ps[l].Left()])] else []
  }

  /** What is left of `ps[r]` after the new patch. */
  function RightPiece(ps: seq<Patch>, newp: Patch, r: int): seq<Patch>
    requires -1 <= r < |ps|
  {
    if r >= 0 && ps[r].Left() <= newp.Right() < ps[r].Right()
    then [Patch(newp.Right(), ps[r].p[newp.Right() - ps[r].Left()..])] else []
  }

  function Pieces(ps: seq<Patch>, newp: Patch, l: nat, r: int): seq<Patch>
    requires l < |ps| && newp.Left() <= ps[l].Right() && -1 <= r < |ps|
  {
    LeftPiece(ps, newp, l) + [newp] + RightPiece(ps, newp, r)
  }

  /** Two ordered lists on either side of a cut make one ordered list. */
  lemma OrderedConcat(a: seq<Patch>, b: seq<Patch>, cut: int)
    requires Ordered(a) && Ordered(b)
    requires forall i :: 0 <= i < |a| ==> |a[i].p| > 0 && a[i].Right() <= cut
    requires forall i :: 0 <= i < |b| ==> cut <= b[i].Left()
    ensures Ordered(a + b)
  {
  }

  lemma PiecesOrdered(ps: seq<Patch>, newp: Patch, l: int, r: int)
    requires Valid(ps) && |newp.p| > 0 && Meets(ps, newp, l, r)
    ensures var newps := Pieces(ps, newp, l, r);
            && Ordered(newps)
            && forall i :: 0 <= i < |newps| ==>
                 && |newps[i].p| > 0
                 && Min(newp.Left(), ps[l].Left()) <= newps[i].Left()
                 && newps[i].Right() <= ps[r + 1].Left()
  {
    assert r >= 0 ==> ps[r].Right() <= ps[r + 1].Left();
  }

  lemma HeadOrdered(ps: seq<Patch>, l: nat)
    requires Ordered(ps) && l < |ps|
    ensures Ordered(ps[..l])
    ensures forall i {:trigger ps[..l][i]} :: 0 <= i < l ==> |ps[..l][i].p| > 0 && ps[..l][i].Right() <= ps[l].Left()
  {
  }

  /** What lies before the first patch not met, once the new one is spliced in. */
  lemma SplicedHead(ps: seq<Patch>, newp: Patch, l: int, r: int)
    requires Valid(ps) && |newp.p| > 0 && Meets(ps, newp, l, r)
    ensures var head := ps[..l] + Pieces(ps, newp, l, r);
            && Ordered(head)
            && forall i {:trigger head[i]} :: 0 <= i < |head| ==> |head[i].p| > 0 && head[i].Right() <= ps[r + 1].Left()
  {
    var newps := Pieces(ps, newp, l, r);
    PiecesOrdered(ps, newp, l, r);
    HeadOrdered(ps, l);
    OrderedConcat(ps[..l], newps, Min(newp.Left(), ps[l].Left()));
    assert ps[l].Left() <= ps[r + 1].Left() || l == r + 1 by {
      if l < r + 1 { assert ps[l].Right() <= ps[r + 1].Left(); }
    }
  }

  lemma TailOrdered(ps: seq<Patch>, r: nat)
    requires Ordered(ps) && r < |ps|
    ensures Ordered(ps[r..])
    ensures forall i {:trigger ps[r..][i]} :: 0 <= i < |ps| - r ==> ps[r].Left() <= ps[r..][i].Left()
  {
    forall i | 0 <= i < |ps| - r ensures ps[r].Left() <= ps[r..][i].Left() {
      if i > 0 { assert ps[r].Right() <= ps[r + i].Left(); }
    }
  }

  lemma SplicedOrdered(ps: seq<Patch>, newp: Patch, l: int, r: int)
    requires Valid(ps) && |newp.p| > 0 && Meets(ps, newp, l, r)
    ensures Valid(ps[..l] + Pieces(ps, newp, l, r) + ps[r + 1..])
  {
    SplicedHead(ps, newp, l, r);
    TailOrdered(ps, r + 1);
    OrderedConcat(ps[..l] + Pieces(ps, newp, l, r), ps[r + 1..], ps[r + 1].Left());
  }

  lemma SplicedSmall(ps: seq<Patch>, newp: Patch, l: int, r: int)
    requires Meets(ps, newp, l, r)
    ensures Small(ps) && |newp.p| <= MAX_INT32 ==> Small(ps[..l] + Pieces(ps, newp, l, r) + ps[r + 1..])
  {
  }

  lemma ByteAtOne(p: Patch, x: int)
    ensures ByteAt([p], x) == if p.Covers(x) then Some(p.Byte(x)) else None
  {
    assert [p][1..] == [];
  }

  lemma ByteAtThree(a: seq<Patch>, m: seq<Patch>, b: seq<Patch>, x: int)
    ensures ByteAt(a + m + b, x)
         == if ByteAt(a, x).Some? then ByteAt(a, x) else if ByteAt(m, x).Some? then ByteAt(m, x) else ByteAt(b, x)
  {
    ByteAtConcat(a + m, b, x);
    ByteAtConcat(a, m, x);
  }

  /** Left of a position that its first patch reaches, only the first patch of an ordered list says anything. */
  lemma ByteAtFirst(qs: seq<Patch>, x: int)
    requires Ordered(qs) && qs != [] && x < qs[0].Right()
    ensures ByteAt(qs, x) == if qs[0].Covers(x) then Some(qs[0].Byte(x)) else None
  {
    if !qs[0].Covers(x) {
      assert forall i :: 0 < i < |qs| ==> qs[0].Right() <= qs[i].Left();
      ByteAtNone(qs, x);
    }
  }

  /** Right of where its last patch begins, only the last patch of an ordered list says anything. */
  lemma ByteAtLast(qs: seq<Patch>, x: int)
    requires Ordered(qs) && qs != [] && qs[|qs| - 1].Left() <= x
    ensures ByteAt(qs, x) == if qs[|qs| - 1].Covers(x) then Some(qs[|qs| - 1].Byte(x)) else None
  {
    if qs[|qs| - 1].Covers(x) {
      ByteAtSome(qs, |qs| - 1, x);
    } else {
      assert forall i :: 0 <= i < |qs| - 1 ==> qs[i].Right() <= qs[|qs| - 1].Left();
      ByteAtNone(qs, x);
    }
  }

  lemma LeftPieceMeaning(ps: seq<Patch>, newp: Patch, l: nat, x: int)
    requires l < |ps| && newp.Left() <= ps[l].Right() && ps[|ps| - 1] == SENTINEL
    ensures ByteAt(LeftPiece(ps, newp, l), x)
         == if x < newp.Left() && ps[l].Covers(x) then Some(ps[l].Byte(x)) else None
  {
    if l < |ps| - 1 && newp.Left() > ps[l].Left() {
      ByteAtOne(LeftPiece(ps, newp, l)[0], x);
    }
  }

  lemma RightPieceMeaning(ps: seq<Patch>, newp: Patch, r: nat, x: int)
    requires r < |ps| && ps[r].Left() <= newp.Right()
    ensures ByteAt(RightPiece(ps, newp, r), x)
         == if newp.Right() <= x && ps[r].Covers(x) then Some(ps[r].Byte(x)) else None
  {
    if newp.Right() < ps[r].Right() {
      ByteAtOne(RightPiece(ps, newp, r)[0], x);
    }
  }

  /** Outside the new patch the pieces mean what the patches they replace meant. */
  lemma PiecesMeaning(ps: seq<Patch>, newp: Patch, l: int, r: int, x: int)
    requires Valid(ps) && |newp.p| > 0 && Meets(ps, newp, l, r)
    ensures ByteAt(Pieces(ps, newp, l, r), x)
         == if newp.Covers(x) then Some(newp.Byte(x)) else ByteAt(ps[l..r + 1], x)
  {
    ByteAtThree(LeftPiece(ps, newp, l), [newp], RightPiece(ps, newp, r), x);
    ByteAtOne(newp, x);
    LeftPieceMeaning(ps, newp, l, x);
    if l <= r {
      RightPieceMeaning(ps, newp, r, x);
      var mid := ps[l..r + 1];
      assert mid[0] == ps[l] && mid[|mid| - 1] == ps[r];
      if x < newp.Left() {
        ByteAtFirst(mid, x);
      } else if x >= newp.Right() {
        ByteAtLast(mid, x);
      }
    }
  }

  lemma ThreeParts(ps: seq<Patch>, l: nat, m: nat)
    requires l <= m <= |ps|
    ensures ps == ps[..l] + ps[l..m] + ps[m..]
  {
  }

  /** Before the patches met, nothing is pending where the new patch is. */
  lemma HeadNone(ps: seq<Patch>, newp: Patch, l: nat, x: int)
    requires l <= |ps| && newp.Covers(x) && forall i :: 0 <= i < l ==> ps[i].Right() < newp.Left()
    ensures ByteAt(ps[..l], x) == None
  {
    ByteAtNone(ps[..l], x);
  }

  /** Splicing the pieces in leaves every byte outside the new patch as it was. */
  lemma SplicedMeaning(ps: seq<Patch>, newp: Patch, l: int, r: int, x: int)
    requires Valid(ps) && |newp.p| > 0 && Meets(ps, newp, l, r)
    ensures ByteAt(ps[..l] + Pieces(ps, newp, l, r) + ps[r + 1..], x)
         == if newp.Covers(x) then Some(newp.Byte(x)) else ByteAt(ps, x)
  {
    ThreeParts(ps, l, r + 1);
    ByteAtThree(ps[..l], Pieces(ps, newp, l, r), ps[r + 1..], x);
    ByteAtThree(ps[..l], ps[l..r + 1], ps[r + 1..], x);
    PiecesMeaning(ps, newp, l, r, x);
    if newp.Covers(x) { HeadNone(ps, newp, l, x); }
  }

  /** A merged patch wins over what was pending, everything else stays, and the list grows by at most two. */
  method Merge(ps: seq<Patch>, newp: Patch) returns (r: seq<Patch>)
    requires Valid(ps)
    requires |newp.p| > 0 && newp.Right() <= MAX_INT64
    ensures Valid(r)
    ensures |r| <= |ps| + 2
    ensures Small(ps) && |newp.p| <= MAX_INT32 ==> Small(r)
    ensures forall x :: ByteAt(r, x) == if newp.Covers(x) then Some(newp.Byte(x)) else ByteAt(ps, x)
  {
    var lefti, righti := FindLRIndex(ps, newp);
    var newps := [newp];
    if lefti < |ps| - 1 {
      var psl := ps[lefti];
      if newp.Left() > psl.Left() {
        psl := psl.(p := psl.p[..newp.Left() - psl.Left()]);
        if |psl.p| > 0 {
          newps := [psl, newp];
        }
      }
    }
    if righti >= 0 {
      var psr := ps[righti];
      if psr.Right() > newp.Right() {
        psr := Patch(newp.Right(), psr.p[newp.Right() - psr.Left()..]);
        if |psr.p| != 0 {
          newps := newps + [psr];
        }
      }
    }
    assert newps == Pieces(ps, newp, lefti, righti);
    r := Replace(ps, lefti, righti, newps);
    SplicedOrdered(ps, newp, lefti, righti);
    SplicedSmall(ps, newp, lefti, righti);
    forall x ensures ByteAt(r, x) == if newp.Covers(x) then Some(newp.Byte(x)) else ByteAt(ps, x) {
      SplicedMeaning(ps, newp, lefti, righti, x);
    }
  }

  /** The part of a patch before `size`. */
  function Cut(p: Patch, size: int): Patch
    requires p.Left() < size
  {
    if p.Right() > size then p.(p := p.p[..size - p.Left()]) else p
  }

  lemma CutOrdered(ps: seq<Patch>, i: nat, size: int)
    requires Valid(ps) && i < |ps| && ps[i].Left() < size <= MAX_INT64
    ensures Valid(ps[..i] + [Cut(ps[i], size)] + [SENTINEL])
  {
    OrderedConcat(ps[..i], [Cut(ps[i], size)], ps[i].Left());
    OrderedConcat(ps[..i] + [Cut(ps[i], size)], [SENTINEL], MAX_INT64);
  }

  /** Scans from the right, dropping patches at or past `size` and cutting the one that straddles it. */
  method Truncate(ps: seq<Patch>, size: int) returns (r: seq<Patch>)
    requires Valid(ps) && size <= MAX_INT64
    ensures Valid(r) && (Small(ps) ==> Small(r))
    ensures forall x :: ByteAt(r, x) == if x < size then ByteAt(ps, x) else None
  {
    var i := |ps| - 1;
    while i >= 0
      invariant -1 <= i < |ps|
      invariant forall j :: i < j < |ps| ==> ps[j].Left() >= size
    {
      var p := ps[i];
      if p.Left() < size {
        if p.Right() > size {
          p := p.(p := p.p[..size - p.Left()]);
        }
        r := ps[..i] + [p] + [SENTINEL];
        CutOrdered(ps, i, size);
        forall x ensures ByteAt(r, x) == if x < size then ByteAt(ps, x) else None {
          CutMeaning(ps, i, size, x);
        }
        return;
      }
      i := i - 1;
    }
    r := [SENTINEL];
    forall x ensures ByteAt(r, x) == if x < size then ByteAt(ps, x) else None {
      ByteAtOne(SENTINEL, x);
      if x < size { ByteAtNone(ps, x); }
    }
  }

  lemma CutMeaning(ps: seq<Patch>, i: nat, size: int, x: int)
    requires Valid(ps) && i < |ps| && ps[i].Left() < size <= MAX_INT64
    requires forall j :: i < j < |ps| ==> ps[j].Left() >= size
    ensures ByteAt(ps[..i] + [Cut(ps[i], size)] + [SENTINEL], x) == if x < size then ByteAt(ps, x) else None
  {
    var p := Cut(ps[i], size);
    ByteAtThree(ps[..i], [p], [SENTINEL], x);
    ByteAtOne(p, x);
    ByteAtOne(SENTINEL, x);
    assert ps == ps[..i] + [ps[i]] + ps[i + 1..];
    ByteAtThree(ps[..i], [ps[i]], ps[i + 1..], x);
    ByteAtOne(ps[i], x);
    if x < size {
      ByteAtNone(ps[i + 1..], x);
    } else {
      assert forall j :: 0 <= j < i ==> ps[j].Right() <= ps[i].Left();
      ByteAtNone(ps[..i], x);
    }
  }

  /** Only the last patch is the sentinel. */
  lemma SentinelLast(ps: seq<Patch>, i: nat)
    requires Valid(ps) && i < |ps|
    ensures ps[i].IsSentinel() <==> i == |ps| - 1
  {
    assert i < |ps| - 1 ==> ps[i].Right() <= ps[|ps| - 1].Left();
  }

  /** Where the last pending byte ends; 0 when nothing is pending. */
  function PendingRight(ps: seq<Patch>): int
    requires |ps| > 0
  {
    if |ps| == 1 then 0 else ps[|ps| - 2].Right()
  }

  /** Pending bytes lie before `PendingRight`, and the byte just before it is pending. */
  lemma PendingBounds(ps: seq<Patch>, x: int)
    requires Valid(ps)
    ensures ByteAt(ps, x).Some? ==> |ps| > 1 && x < PendingRight(ps)
    ensures |ps| > 1 ==> ByteAt(ps, PendingRight(ps) - 1).Some?
  {
    if |ps| > 1 {
      assert ps[|ps| - 2].Covers(PendingRight(ps) - 1);
      ByteAtSome(ps, |ps| - 2, PendingRight(ps) - 1);
    }
    if |ps| == 1 || x >= PendingRight(ps) {
      forall i | 0 <= i < |ps| ensures !ps[i].Covers(x) {
        assert |ps| > 1 && i < |ps| - 2 ==> ps[i].Right() <= ps[|ps| - 2].Left();
      }
      ByteAtNone(ps, x);
    }
  }

  /** The first patch that ends past `x`, if its predecessors end at or before `x`, decides about `x`. */
  lemma ByteAtIndex(ps: seq<Patch>, k: nat, x: int)
    requires Valid(ps) && k < |ps|
    requires forall j {:trigger ps[j]} :: 0 <= j < k ==> ps[j].Right() <= x
    requires x < ps[k].Right() || (k == |ps| - 1 && x < MAX_INT64)
    ensures ByteAt(ps, x) == if ps[k].Covers(x) then Some(ps[k].Byte(x)) else None
  {
    if ps[k].Covers(x) {
      ByteAtSome(ps, k, x);
    } else {
      forall j | 0 <= j < |ps| ensures !ps[j].Covers(x) {
        assert j > k ==> ps[k].Right() <= ps[j].Left();
      }
      ByteAtNone(ps, x);
    }
  }
}
