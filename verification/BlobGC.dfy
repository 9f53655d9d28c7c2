/**
 * Collecting unused blobs (gc/blobstoregc/gc.go, metadata/metadata.go): mark with `Fsck`, sweep what is
 * neither marked nor metadata. A cancelled context and a blob store that fails are choices made anew at
 * each point where the source looks.
 */
module BlobGC {
  import opened INodes
  import opened INodeGraph
  import opened INodeDB
  import W = FsckWalk

  const METADATA_PREFIX := "META_"

  predicate IsMetadataBlobpath(b: string) { METADATA_PREFIX <= b }

  lemma MetadataPaths(b: string)
    ensures IsMetadataBlobpath(b) <==> exists rest: string :: b == "META_" + rest
  {
    if METADATA_PREFIX <= b { assert b == "META_" + b[5..]; }
  }

  ghost predicate Listed(blobs: set<string>, l: seq<string>)
  {
    && (forall b {:trigger b in l} :: b in l <==> b in blobs)
    && (forall i, j {:trigger l[i], l[j]} :: 0 <= i < j < |l| ==> l[i] != l[j])
  }

  lemma ListedMore(blobs: set<string>, l: seq<string>, b: string)
    requires Listed(blobs, l) && b !in blobs
    ensures Listed(blobs + {b}, l + [b])
  {
    forall i, j | 0 <= i < j < |l + [b]| ensures (l + [b])[i] != (l + [b])[j] {
      assert l[i] in l;
    }
  }

  class BlobStore {
    var blobs: set<string>

    constructor ()
      ensures blobs == {}
    {
      blobs := {};
    }

    method ListBlobs() returns (ok: bool, l: seq<string>)
      ensures ok ==> Listed(blobs, l)
    {
      l := [];
      if * {
        return false, l;
      }
      var rest := blobs;
      while rest != {}
        invariant rest <= blobs && Listed(blobs - rest, l)
      {
        var b :| b in rest;
        ListedMore(blobs - rest, l, b);
        assert blobs - (rest - {b}) == blobs - rest + {b};
        l, rest := l + [b], rest - {b};
      }
      assert blobs - rest == blobs;
      ok := true;
    }

    method RemoveBlob(b: string) returns (ok: bool)
      modifies this
      ensures blobs == if ok then old(blobs) - {b} else old(blobs)
      ensures ok ==> b in old(blobs)
    {
      if b !in blobs {
        return false;
      }
      if * {
        return false;
      }
      blobs := blobs - {b};
      return true;
    }
  }

  datatype Outcome = Success | Cancelled | ListFailed | FsckFailed | RemoveFailed(blob: string)

  method ToSet(l: seq<string>) returns (s: set<string>)
    ensures forall b :: b in s <==> b in l
  {
    s := {};
    for i := 0 to |l|
      invariant forall b :: b in s <==> b in l[..i]
    {
      s := s + {l[i]};
    }
    assert l[..|l|] == l;
  }

  /** What `all` has that is neither used nor metadata, in its order. */
  function Unused(all: seq<string>, used: set<string>): seq<string>
  {
    if all == [] then []
    else
      var l, b := Unused(all[..|all| - 1], used), all[|all| - 1];
      if b in used || IsMetadataBlobpath(b) then l else l + [b]
  }

  lemma {:induction false} UnusedHas(all: seq<string>, used: set<string>, b: string)
    ensures b in Unused(all, used) <==> b in all && b !in used && !IsMetadataBlobpath(b)
  {
    if all != [] {
      var init, last := all[..|all| - 1], all[|all| - 1];
      UnusedHas(init, used, b);
      assert b in all <==> b in init || b == last;
    }
  }

  method ListUnused(all: seq<string>, used: set<string>) returns (l: seq<string>)
    ensures l == Unused(all, used)
  {
    l := [];
    for i := 0 to |all|
      invariant l == Unused(all[..i], used)
    {
      assert all[..i + 1][..i] == all[..i];
      if all[i] in used {
        continue;
      }
      if IsMetadataBlobpath(all[i]) {
        continue;
      }
      l := l + [all[i]];
    }
    assert all[..|all|] == all;
  }

  /** Removes the blobs listed, in order, until one cannot be removed. */
  method Sweep(bs: BlobStore, unused: seq<string>, dryrun: bool) returns (r: Outcome)
    modifies bs
    ensures exists n :: 0 <= n <= |unused| && bs.blobs == Without(old(bs.blobs), unused[..n]) && (dryrun ==> n == 0)
    ensures r.Success? ==> bs.blobs == if dryrun then old(bs.blobs) else Without(old(bs.blobs), unused)
    ensures r.Success? || r.Cancelled? || (r.RemoveFailed? && !dryrun && r.blob in unused)
  {
    assert old(bs.blobs) == Without(old(bs.blobs), unused[..0]);
    for i := 0 to |unused|
      invariant bs.blobs == if dryrun then old(bs.blobs) else Without(old(bs.blobs), unused[..i])
    {
      assert dryrun ==> bs.blobs == Without(old(bs.blobs), unused[..0]);
      if * {
        return Cancelled;
      }
      if !dryrun {
        var ok := bs.RemoveBlob(unused[i]);
        if !ok {
          return RemoveFailed(unused[i]);
        }
        assert Without(old(bs.blobs), unused[..i + 1]) == Without(old(bs.blobs), unused[..i]) - {unused[i]};
      }
    }
    assert unused[..|unused|] == unused;
    r := Success;
  }

  ghost function Without(blobs: set<string>, l: seq<string>): set<string>
  {
    set b | b in blobs && b !in l
  }

  /** The blobs a collection keeps. */
  ghost function Kept(nodes: map<ID, INode>, blobs: set<string>): set<string>
  {
    set b | b in blobs && (W.Used(nodes, b) || IsMetadataBlobpath(b))
  }

  /**
   * However a collection ends, all it has removed are blobs that no reachable file uses and that are not
   * metadata; one that succeeds and is not a dry run has removed all of those, and nothing else. Nothing
   * is removed while a reachable node is missing.
   */
  method GC(bs: BlobStore, db: DB, dryrun: bool) returns (r: Outcome)
    requires NamedOnce(db.state.nodes)
    modifies bs
    ensures Kept(db.state.nodes, old(bs.blobs)) <= bs.blobs <= old(bs.blobs)
    ensures r.Success? && !dryrun ==> bs.blobs == Kept(db.state.nodes, old(bs.blobs))
    ensures dryrun || r.ListFailed? || r.FsckFailed? ==> bs.blobs == old(bs.blobs)
    ensures r.FsckFailed? ==> db.readOnly || !W.Whole(db.state.nodes)
    ensures r.Success? || bs.blobs != old(bs.blobs) ==> !db.readOnly && W.Whole(db.state.nodes)
  {
    var ok, allbs := bs.ListBlobs();
    if !ok {
      return ListFailed;
    }
    if * {
      return Cancelled;
    }
    var usedbs, errs, met := db.Fsck();
    if usedbs.Err? || |errs| != 0 {
      return FsckFailed;
    }
    if * {
      return Cancelled;
    }
    var usedbset := ToSet(usedbs.value);
    if * {
      return Cancelled;
    }
    var unusedbs := ListUnused(allbs, usedbset);
    Marked(db.state.nodes, bs.blobs, allbs, usedbset);
    r := Sweep(bs, unusedbs, dryrun);
  }

  lemma Marked(nodes: map<ID, INode>, blobs: set<string>, all: seq<string>, used: set<string>)
    requires Listed(blobs, all) && forall b :: b in used <==> W.Used(nodes, b)
    ensures Without(blobs, Unused(all, used)) == Kept(nodes, blobs)
    ensures forall n :: 0 <= n <= |Unused(all, used)| ==> Kept(nodes, blobs) <= Without(blobs, Unused(all, used)[..n])
  {
    forall b ensures b in Unused(all, used) <==> b in all && b !in used && !IsMetadataBlobpath(b) {
      UnusedHas(all, used, b);
    }
  }
}
