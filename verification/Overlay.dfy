/** What a patch list pending on top of a backing file means, and the runs in which it is written back. */
module Overlay {
  import opened Bytes
  import opened Patches

  /** The byte at `x` of the backing file with the pending patches on top. */
  function OverlayAt(base: bytes, ps: seq<Patch>, x: int): byte
  {
    match ByteAt(ps, x)
    case Some(b) => b
    case None => At(base, x)
  }

  ghost predicate IsOverlaid(base: bytes, ps: seq<Patch>, r: bytes)
    requires |ps| > 0
  {
    && |r| == Max(|base|, PendingRight(ps))
    && forall x {:trigger At(r, x)} :: 0 <= x < |r| ==> At(r, x) == OverlayAt(base, ps, x)
  }

  /** The logical file: as long as the backing file or the last patch reaches, zero where neither says anything. */
  ghost function Overlaid(base: bytes, ps: seq<Patch>): (r: bytes)
    requires |ps| > 0
    ensures IsOverlaid(base, ps, r)
  {
    assert IsOverlaid(base, ps, seq(Max(|base|, PendingRight(ps)), x => OverlayAt(base, ps, x)));
    var r :| IsOverlaid(base, ps, r);
    r
  }

  lemma OverlaidNothing(base: bytes)
    ensures Overlaid(base, [SENTINEL]) == base
  {
    forall x | 0 <= x < |base| ensures At(base, x) == At(Overlaid(base, [SENTINEL]), x) {
      ByteAtOne(SENTINEL, x);
    }
    SameBytes(Overlaid(base, [SENTINEL]), base);
  }

  /** Merging a patch into the list is a positioned write to the logical file. */
  lemma OverlaidMerge(base: bytes, ps: seq<Patch>, newp: Patch, ps': seq<Patch>)
    requires Valid(ps) && Valid(ps') && newp.offset >= 0 && |newp.p| > 0
    requires forall x :: ByteAt(ps', x) == if newp.Covers(x) then Some(newp.Byte(x)) else ByteAt(ps, x)
    ensures Overlaid(base, ps') == Overwrite(Overlaid(base, ps), newp.p, newp.offset)
  {
    MergedRight(ps, newp, ps');
    var a, b := Overlaid(base, ps'), Overwrite(Overlaid(base, ps), newp.p, newp.offset);
    forall x | 0 <= x < |a| ensures At(a, x) == At(b, x) {
      PendingBounds(ps, x);
    }
    SameBytes(a, b);
  }

  lemma MergedRight(ps: seq<Patch>, newp: Patch, ps': seq<Patch>)
    requires Valid(ps) && Valid(ps') && newp.offset >= 0 && |newp.p| > 0
    requires forall x :: ByteAt(ps', x) == if newp.Covers(x) then Some(newp.Byte(x)) else ByteAt(ps, x)
    ensures PendingRight(ps') == Max(PendingRight(ps), newp.Right())
  {
    PendingBounds(ps', newp.Right() - 1);
    assert newp.Covers(newp.Right() - 1) && ByteAt(ps', newp.Right() - 1).Some?;
    PendingBounds(ps, PendingRight(ps') - 1);
    PendingBounds(ps', PendingRight(ps) - 1);
  }

  /** `base'` differs from `base` only where a patch is pending, and is no longer than the logical file. */
  ghost predicate Absorbed(base: bytes, base': bytes, ps: seq<Patch>)
    requires |ps| > 0
  {
    && |base| <= |base'| <= Max(|base|, PendingRight(ps))
    && forall x {:trigger At(base', x)} :: 0 <= x ==> At(base', x) == At(base, x) || ByteAt(ps, x).Some?
  }

  /** Writing back some of the patches, even partly, leaves the logical file as it was. */
  lemma AbsorbedSameFile(base: bytes, base': bytes, ps: seq<Patch>)
    requires Valid(ps) && Absorbed(base, base', ps)
    ensures Overlaid(base', ps) == Overlaid(base, ps)
  {
    var a, b := Overlaid(base', ps), Overlaid(base, ps);
    forall x | 0 <= x < |a| ensures At(a, x) == At(b, x) {
      assert At(base', x) == At(base, x) || ByteAt(ps, x).Some?;
    }
    SameBytes(a, b);
  }

  /** The patches of `qs` are in the backing file. */
  ghost predicate Landed(base: bytes, qs: seq<Patch>)
  {
    forall x {:trigger ByteAt(qs, x)} :: ByteAt(qs, x).Some? ==> x < |base| && At(base, x) == ByteAt(qs, x).value
  }

  /** Once every patch is in it, the backing file is the logical file. */
  lemma AllLanded(base: bytes, base': bytes, ps: seq<Patch>)
    requires Valid(ps) && Absorbed(base, base', ps) && Landed(base', ps)
    ensures base' == Overlaid(base, ps)
  {
    PendingBounds(ps, 0);
    forall x | 0 <= x < |base'| ensures At(base', x) == At(Overlaid(base, ps), x) {
      assert At(base', x) == At(base, x) || ByteAt(ps, x).Some?;
    }
    SameBytes(base', Overlaid(base, ps));
  }

  /** Writes to make when `cur` is gathered so far and `rest` is still to come: touching patches go together. */
  function RunsFrom(cur: Patch, rest: seq<Patch>): seq<Patch>
    decreases |rest|
  {
    if rest == [] || rest[0].IsSentinel() then [cur]
    else if rest[0].offset == cur.Right() then RunsFrom(Patch(cur.offset, cur.p + rest[0].p), rest[1..])
    else [cur] + RunsFrom(rest[0], rest[1..])
  }

  /** The writes that write the list back. */
  function Runs(ps: seq<Patch>): seq<Patch>
  {
    if ps == [] || ps[0].IsSentinel() then [] else RunsFrom(ps[0], ps[1..])
  }

  lemma JoinMeaning(a: Patch, b: Patch, x: int)
    requires b.offset == a.Right()
    ensures ByteAt([Patch(a.offset, a.p + b.p)], x) == ByteAt([a] + [b], x)
  {
    ByteAtOne(Patch(a.offset, a.p + b.p), x);
    ByteAtConcat([a], [b], x);
    ByteAtOne(a, x);
    ByteAtOne(b, x);
  }

  /** Non-empty patches, each ending before those after it begin. */
  ghost predicate Apart(ws: seq<Patch>)
  {
    && (forall i {:trigger ws[i]} :: 0 <= i < |ws| ==> |ws[i].p| > 0)
    && (forall i, j {:trigger ws[i], ws[j]} :: 0 <= i < j < |ws| ==> ws[i].Right() < ws[j].Left())
  }

  lemma ApartMore(p: Patch, ws: seq<Patch>)
    requires |p.p| > 0 && Apart(ws) && (ws != [] ==> p.Right() < ws[0].Left())
    ensures Apart([p] + ws)
  {
    var all := [p] + ws;
    forall i, j | 0 <= i < j < |all| ensures all[i].Right() < all[j].Left() {
      if i == 0 && j > 1 { assert ws[0].Right() < ws[j - 1].Left(); }
    }
  }

  /** Runs are the maximal ones. */
  lemma {:induction false} RunsFromMaximal(cur: Patch, rest: seq<Patch>)
    requires |cur.p| > 0 && Valid(rest) && cur.Right() <= rest[0].Left()
    ensures var rs := RunsFrom(cur, rest);
            rs != [] && rs[0].offset == cur.offset && Apart(rs)
    decreases |rest|
  {
    if !rest[0].IsSentinel() {
      TailValid(rest);
      if rest[0].offset == cur.Right() {
        RunsFromMaximal(Patch(cur.offset, cur.p + rest[0].p), rest[1..]);
      } else {
        RunsFromMaximal(rest[0], rest[1..]);
        ApartMore(cur, RunsFrom(rest[0], rest[1..]));
      }
    }
  }

  lemma TailValid(ps: seq<Patch>)
    requires Valid(ps) && !ps[0].IsSentinel()
    ensures |ps| > 1 && Valid(ps[1..]) && |ps[0].p| > 0 && ps[0].Right() <= ps[1].Left()
  {
    SentinelLast(ps, 0);
  }

  /** Runs say what the patches say. */
  lemma {:induction false} RunsFromMeaning(cur: Patch, rest: seq<Patch>, x: int)
    requires Valid(rest)
    ensures ByteAt(RunsFrom(cur, rest), x) == ByteAt([cur] + rest, x)
    decreases |rest|
  {
    ByteAtConcat([cur], rest, x);
    if rest[0].IsSentinel() {
      SentinelLast(rest, 0);
      ByteAtOne(SENTINEL, x);
    } else {
      TailValid(rest);
      assert rest == [rest[0]] + rest[1..];
      ByteAtConcat([rest[0]], rest[1..], x);
      if rest[0].offset == cur.Right() {
        var both := Patch(cur.offset, cur.p + rest[0].p);
        RunsFromMeaning(both, rest[1..], x);
        JoinMeaning(cur, rest[0], x);
        ByteAtConcat([cur], [rest[0]], x);
        ByteAtConcat([both], rest[1..], x);
      } else {
        RunsFromMeaning(rest[0], rest[1..], x);
        ByteAtConcat([cur], RunsFrom(rest[0], rest[1..]), x);
      }
    }
  }

  lemma RunsMeaning(ps: seq<Patch>, x: int)
    requires Valid(ps)
    ensures ByteAt(Runs(ps), x) == ByteAt(ps, x)
  {
    if ps[0].IsSentinel() {
      SentinelLast(ps, 0);
      ByteAtNone(ps, x);
    } else {
      TailValid(ps);
      RunsFromMeaning(ps[0], ps[1..], x);
      assert [ps[0]] + ps[1..] == ps;
    }
  }

  lemma RunsSpec(ps: seq<Patch>)
    requires Valid(ps)
    ensures Apart(Runs(ps)) && forall x :: ByteAt(Runs(ps), x) == ByteAt(ps, x)
  {
    if !ps[0].IsSentinel() {
      TailValid(ps);
      RunsFromMaximal(ps[0], ps[1..]);
    }
    forall x ensures ByteAt(Runs(ps), x) == ByteAt(ps, x) { RunsMeaning(ps, x); }
  }

  ghost predicate NonNegative(ps: seq<Patch>)
  {
    forall i {:trigger ps[i]} :: 0 <= i < |ps| ==> ps[i].offset >= 0
  }

  lemma ApartBefore(ws: seq<Patch>, n: nat, x: int)
    requires Apart(ws) && n < |ws| && ws[n].Left() <= x
    ensures ByteAt(ws[..n], x) == None
  {
    forall i | 0 <= i < |ws[..n]| ensures !ws[..n][i].Covers(x) {
      assert ws[i].Right() < ws[n].Left();
    }
    ByteAtNone(ws[..n], x);
  }

  /** `base` after the positioned writes `ws`, in turn. */
  ghost function AfterWrites(base: bytes, ws: seq<Patch>): (r: bytes)
    requires NonNegative(ws)
  {
    if ws == [] then base
    else Overwrite(AfterWrites(base, ws[..|ws| - 1]), ws[|ws| - 1].p, ws[|ws| - 1].offset)
  }

  /** One more write, apart from those before. */
  lemma WriteLands(base: bytes, ws: seq<Patch>, before: bytes, x: int)
    requires NonNegative(ws) && Apart(ws) && ws != [] && 0 <= x
    requires At(before, x) == OverlayAt(base, ws[..|ws| - 1], x)
    ensures At(Overwrite(before, ws[|ws| - 1].p, ws[|ws| - 1].offset), x) == OverlayAt(base, ws, x)
  {
    var n := |ws| - 1;
    assert ws == ws[..n] + [ws[n]];
    ByteAtConcat(ws[..n], [ws[n]], x);
    ByteAtOne(ws[n], x);
    if ws[n].Covers(x) { ApartBefore(ws, n, x); }
  }

  /** Writes that keep apart land, and change nothing else. */
  lemma {:induction false} WritesLand(base: bytes, ws: seq<Patch>)
    requires NonNegative(ws) && Apart(ws)
    ensures |AfterWrites(base, ws)| == if ws == [] then |base| else Max(|base|, ws[|ws| - 1].Right())
    ensures forall x {:trigger At(AfterWrites(base, ws), x)} ::
              0 <= x ==> At(AfterWrites(base, ws), x) == OverlayAt(base, ws, x)
    decreases |ws|
  {
    if ws != [] {
      var before := ws[..|ws| - 1];
      WritesLand(base, before);
      forall x | 0 <= x ensures At(AfterWrites(base, ws), x) == OverlayAt(base, ws, x) {
        assert At(AfterWrites(base, before), x) == OverlayAt(base, before, x);
        WriteLands(base, ws, AfterWrites(base, before), x);
      }
    }
  }

  /** Writes of which `k` are complete, and `done` bytes of the next are made. */
  function Begun(ws: seq<Patch>, k: nat, done: nat): (r: seq<Patch>)
    requires k < |ws| && done <= |ws[k].p|
  {
    ws[..k] + [Patch(ws[k].offset, ws[k].p[..done])]
  }

  lemma BegunApart(ws: seq<Patch>, k: nat, done: nat)
    requires Apart(ws) && k < |ws| && 0 < done <= |ws[k].p|
    ensures Apart(Begun(ws, k, done))
  {
    var b := Begun(ws, k, done);
    forall i, j | 0 <= i < j < |b| ensures b[i].Right() < b[j].Left() {
      assert ws[i].Right() < ws[j].Left();
    }
  }

  lemma BegunMeaning(ws: seq<Patch>, k: nat, done: nat, x: int)
    requires k < |ws| && done <= |ws[k].p|
    ensures ByteAt(Begun(ws, k, done), x).Some? ==> ByteAt(Begun(ws, k, done), x) == ByteAt(ws, x)
  {
    var r := ws[k];
    var cut := Patch(r.offset, r.p[..done]);
    assert ws == ws[..k] + ([r] + ws[k + 1..]);
    ByteAtConcat(ws[..k], [r] + ws[k + 1..], x);
    ByteAtConcat([r], ws[k + 1..], x);
    ByteAtConcat(ws[..k], [cut], x);
    ByteAtOne(r, x);
    ByteAtOne(cut, x);
  }

  /** What any beginning of the runs, the last of them perhaps cut short, has in it is pending. */
  lemma RunsBegun(ps: seq<Patch>, k: nat, done: nat, x: int)
    requires Valid(ps) && k < |Runs(ps)| && 0 < done <= |Runs(ps)[k].p|
    ensures var ws := Begun(Runs(ps), k, done);
            Apart(ws) && (ByteAt(ws, x).Some? ==> ByteAt(ws, x) == ByteAt(ps, x))
  {
    RunsSpec(ps);
    BegunApart(Runs(ps), k, done);
    BegunMeaning(Runs(ps), k, done, x);
  }

  lemma RunsNonNegative(ps: seq<Patch>)
    requires Valid(ps) && NonNegative(ps)
    ensures NonNegative(Runs(ps)) && Apart(Runs(ps))
  {
    RunsSpec(ps);
    var rs := Runs(ps);
    forall k | 0 <= k < |rs| ensures rs[k].offset >= 0 {
      RunsBegun(ps, k, 1, rs[k].offset);
      ApartBefore(rs, k, rs[k].offset);
      var cut := Patch(rs[k].offset, rs[k].p[..1]);
      ByteAtConcat(rs[..k], [cut], rs[k].offset);
      ByteAtOne(cut, rs[k].offset);
      if rs[k].offset < 0 { ByteAtNone(ps, rs[k].offset); }
    }
  }

  lemma RunsAbsorbed(base: bytes, ps: seq<Patch>, k: nat, done: nat)
    requires Valid(ps) && NonNegative(ps) && NonNegative(Runs(ps))
    requires k < |Runs(ps)| && 0 < done <= |Runs(ps)[k].p|
    ensures Absorbed(base, AfterWrites(base, Begun(Runs(ps), k, done)), ps)
  {
    var ws := Begun(Runs(ps), k, done);
    RunsBegun(ps, k, done, 0);
    forall x ensures ByteAt(ws, x).Some? ==> ByteAt(ps, x).Some? { RunsBegun(ps, k, done, x); }
    WritesAbsorbed(base, ws, ps);
  }

  lemma LastWrite(ws: seq<Patch>, ps: seq<Patch>)
    requires Valid(ps) && Apart(ws) && ws != []
    requires forall x :: ByteAt(ws, x).Some? ==> ByteAt(ps, x).Some?
    ensures ws[|ws| - 1].Right() <= PendingRight(ps)
  {
    var n := |ws| - 1;
    var x := ws[n].Right() - 1;
    ApartBefore(ws, n, x);
    assert ws == ws[..n] + [ws[n]];
    ByteAtConcat(ws[..n], [ws[n]], x);
    ByteAtOne(ws[n], x);
    PendingBounds(ps, x);
  }

  lemma WritesAbsorbed(base: bytes, ws: seq<Patch>, ps: seq<Patch>)
    requires Valid(ps) && NonNegative(ws) && Apart(ws) && ws != []
    requires forall x :: ByteAt(ws, x).Some? ==> ByteAt(ps, x).Some?
    ensures Absorbed(base, AfterWrites(base, ws), ps)
  {
    WritesLand(base, ws);
    LastWrite(ws, ps);
  }

  lemma RunsLanded(base: bytes, ps: seq<Patch>)
    requires Valid(ps) && NonNegative(ps) && NonNegative(Runs(ps))
    ensures Landed(AfterWrites(base, Runs(ps)), ps)
  {
    RunsSpec(ps);
    var rs := Runs(ps);
    WritesLand(base, rs);
    forall x | ByteAt(ps, x).Some? ensures 0 <= x && rs != [] && x < rs[|rs| - 1].Right() {
      if x < 0 { ByteAtNone(ps, x); }
      assert ByteAt(rs, x).Some?;
      var n := |rs| - 1;
      if x >= rs[n].Right() {
        ApartBefore(rs, n, x);
        assert rs == rs[..n] + [rs[n]];
        ByteAtConcat(rs[..n], [rs[n]], x);
        ByteAtOne(rs[n], x);
      }
    }
  }

  /**
   * Writing the runs to any flat file gives the logical file. Stopping anywhere, even within a run, leaves
   * the logical file as it was.
   */
  lemma RunsSynced(base: bytes, ps: seq<Patch>, k: nat, done: nat)
    requires Valid(ps) && NonNegative(ps)
    requires k < |Runs(ps)| && 0 < done <= |Runs(ps)[k].p|
    ensures NonNegative(Runs(ps)) && AfterWrites(base, Runs(ps)) == Overlaid(base, ps)
    ensures Overlaid(AfterWrites(base, Begun(Runs(ps), k, done)), ps) == Overlaid(base, ps)
  {
    RunsNonNegative(ps);
    var rs := Runs(ps);
    var last := |rs| - 1;
    RunsAbsorbed(base, ps, last, |rs[last].p|);
    assert Begun(rs, last, |rs[last].p|) == rs by { assert rs[last].p[..|rs[last].p|] == rs[last].p; }
    RunsLanded(base, ps);
    AllLanded(base, AfterWrites(base, rs), ps);
    RunsAbsorbed(base, ps, k, done);
    AbsorbedSameFile(base, AfterWrites(base, Begun(rs, k, done)), ps);
  }
}
