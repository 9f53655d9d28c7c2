/**
 * Walking the directory tree (inodedb/inodedb.go: fsckRecursive, Fsck). A node named at most once is
 * reached by at most one path from the root, so the walk ends and meets every reachable node once.
 */
module FsckWalk {
  import opened INodes
  import opened INodeGraph

  ghost predicate Edge(nodes: map<ID, INode>, d: ID, t: ID)
  {
    exists n :: Names(nodes, d, n, t)
  }

  /** `p` leads from the root along directory entries; its last node may be missing. */
  ghost predicate RootPath(nodes: map<ID, INode>, p: seq<ID>)
  {
    if |p| <= 1 then p == [ROOT_DIR_ID]
    else RootPath(nodes, p[..|p| - 1]) && Edge(nodes, p[|p| - 2], p[|p| - 1])
  }

  ghost predicate Reachable(nodes: map<ID, INode>, x: ID)
  {
    exists p :: RootPath(nodes, p) && p[|p| - 1] == x
  }

  lemma {:induction false} PathPrefix(nodes: map<ID, INode>, p: seq<ID>, k: nat)
    requires RootPath(nodes, p) && 0 < k <= |p|
    ensures RootPath(nodes, p[..k])
  {
    if k < |p| {
      PathPrefix(nodes, p[..|p| - 1], k);
      assert p[..|p| - 1][..k] == p[..k];
    } else {
      assert p[..k] == p;
    }
  }

  /** There is one path to a node at most. */
  lemma {:induction false} PathUnique(nodes: map<ID, INode>, p: seq<ID>, q: seq<ID>)
    requires NamedOnce(nodes) && RootPath(nodes, p) && RootPath(nodes, q) && p[|p| - 1] == q[|q| - 1]
    ensures p == q
  {
    if |p| > 1 && |q| > 1 {
      PathUnique(nodes, p[..|p| - 1], q[..|q| - 1]);
      assert p == p[..|p| - 1] + [p[|p| - 1]] && q == q[..|q| - 1] + [q[|q| - 1]];
    }
  }

  /** A path never comes back to a node. */
  lemma PathDistinct(nodes: map<ID, INode>, p: seq<ID>, i: nat, j: nat)
    requires NamedOnce(nodes) && RootPath(nodes, p) && i < j < |p|
    ensures p[i] != p[j]
  {
    if p[i] == p[j] {
      PathPrefix(nodes, p, i + 1);
      PathPrefix(nodes, p, j + 1);
      PathUnique(nodes, p[..i + 1], p[..j + 1]);
    }
  }

  lemma PathStep(nodes: map<ID, INode>, p: seq<ID>, n: string, t: ID)
    requires NamedOnce(nodes) && RootPath(nodes, p) && Names(nodes, p[|p| - 1], n, t)
    ensures RootPath(nodes, p + [t]) && t !in p
  {
    var q := p + [t];
    assert q[..|q| - 1] == p;
    if t in p {
      var i :| 0 <= i < |p| && p[i] == t;
      PathDistinct(nodes, q, i, |p|);
    }
  }

  // ---------------------------------------------------------------- the walk

  /** `x` is reached from the root through all of `p`. */
  ghost predicate Under(nodes: map<ID, INode>, p: seq<ID>, x: ID)
  {
    exists q :: RootPath(nodes, q) && p <= q && q[|q| - 1] == x
  }

  /** `x` is reached through `p` and one of its children `cs`. */
  ghost predicate UnderOneOf(nodes: map<ID, INode>, p: seq<ID>, cs: set<ID>, x: ID)
  {
    exists c :: c in cs && Under(nodes, p + [c], x)
  }

  ghost predicate Distinct(s: seq<ID>)
  {
    forall i, j :: 0 <= i < j < |s| ==> s[i] != s[j]
  }

  function BlobPaths(chunks: seq<Chunk>): seq<string>
  {
    if chunks == [] then [] else BlobPaths(chunks[..|chunks| - 1]) + [chunks[|chunks| - 1].blobPath]
  }

  /** One path for each chunk, in the order of the chunks. */
  lemma {:induction false} BlobPathsAt(chunks: seq<Chunk>, k: nat)
    requires k < |chunks|
    ensures |BlobPaths(chunks)| == |chunks| && BlobPaths(chunks)[k] == chunks[k].blobPath
    decreases |chunks|
  {
    if |chunks| > 1 { BlobPathsAt(chunks[..|chunks| - 1], if k < |chunks| - 1 then k else 0); }
  }

  /** `x` is a file with a chunk in blob `b`. */
  ghost predicate PartOf(nodes: map<ID, INode>, x: ID, b: string)
  {
    x in nodes && nodes[x].FileNode? && exists k :: 0 <= k < |nodes[x].chunks| && nodes[x].chunks[k].blobPath == b
  }

  lemma PathsOfHas(nodes: map<ID, INode>, x: ID, b: string)
    ensures b in PathsOf(nodes, x) <==> PartOf(nodes, x, b)
  {
    if x in nodes && nodes[x].FileNode? {
      var cs := nodes[x].chunks;
      if cs != [] { BlobPathsAt(cs, 0); }
      forall k | 0 <= k < |cs| ensures BlobPaths(cs)[k] == cs[k].blobPath { BlobPathsAt(cs, k); }
    }
  }

  function PathsOf(nodes: map<ID, INode>, i: ID): seq<string>
  {
    if i in nodes && nodes[i].FileNode? then BlobPaths(nodes[i].chunks) else []
  }

  /** The blob paths of the files among `ids`, in that order. */
  function Found(nodes: map<ID, INode>, ids: seq<ID>): seq<string>
  {
    if ids == [] then [] else Found(nodes, ids[..|ids| - 1]) + PathsOf(nodes, ids[|ids| - 1])
  }

  function Missing(nodes: map<ID, INode>, ids: seq<ID>): seq<ID>
  {
    if ids == [] then []
    else Missing(nodes, ids[..|ids| - 1]) + if ids[|ids| - 1] in nodes then [] else [ids[|ids| - 1]]
  }

  lemma FoundLast(nodes: map<ID, INode>, a: seq<ID>, i: ID)
    ensures Found(nodes, a + [i]) == Found(nodes, a) + PathsOf(nodes, i)
  {
    assert (a + [i])[..|a|] == a;
  }

  lemma {:induction false} FoundJoin(nodes: map<ID, INode>, a: seq<ID>, b: seq<ID>)
    ensures Found(nodes, a + b) == Found(nodes, a) + Found(nodes, b)
  {
    if b == [] {
      assert a + b == a;
    } else {
      var c, i := b[..|b| - 1], b[|b| - 1];
      assert b == c + [i] && a + b == a + c + [i];
      FoundJoin(nodes, a, c);
      FoundLast(nodes, a + c, i);
      FoundLast(nodes, c, i);
      Associative(Found(nodes, a), Found(nodes, c), PathsOf(nodes, i));
    }
  }

  lemma Associative(a: seq<string>, b: seq<string>, c: seq<string>)
    ensures a + b + c == a + (b + c)
  {
  }

  lemma {:induction false} MissingJoin(nodes: map<ID, INode>, a: seq<ID>, b: seq<ID>)
    ensures Missing(nodes, a + b) == Missing(nodes, a) + Missing(nodes, b)
  {
    if b == [] {
      assert a + b == a;
    } else {
      var c := b[..|b| - 1];
      MissingJoin(nodes, a, c);
      assert (a + b)[..|a + b| - 1] == a + c && (a + b)[|a + b| - 1] == b[|b| - 1];
    }
  }

  lemma FoundOne(nodes: map<ID, INode>, i: ID)
    ensures Found(nodes, [i]) == PathsOf(nodes, i)
    ensures Missing(nodes, [i]) == if i in nodes then [] else [i]
  {
    assert [i][..0] == [];
  }

  function Children(nodes: map<ID, INode>, d: ID): set<ID>
  {
    if d in nodes && nodes[d].DirNode? then nodes[d].entries.Values else {}
  }

  /** The children that directory `d` has under `names`. */
  ghost function Targets(nodes: map<ID, INode>, d: ID, names: set<string>): set<ID>
    requires d in nodes && nodes[d].DirNode?
  {
    set n | n in names && n in nodes[d].entries :: nodes[d].entries[n]
  }

  lemma TargetsMore(nodes: map<ID, INode>, d: ID, names: set<string>, n: string)
    requires NamedOnce(nodes) && d in nodes && nodes[d].DirNode? && n in nodes[d].entries && n !in names
    ensures nodes[d].entries[n] !in Targets(nodes, d, names)
    ensures Targets(nodes, d, names + {n}) == Targets(nodes, d, names) + {nodes[d].entries[n]}
  {
    var c := nodes[d].entries[n];
    assert Names(nodes, d, n, c);
    if c in Targets(nodes, d, names) {
      var m :| m in names && m in nodes[d].entries && nodes[d].entries[m] == c;
      assert Names(nodes, d, m, c);
    }
  }

  lemma EdgeChild(nodes: map<ID, INode>, d: ID, t: ID)
    requires Edge(nodes, d, t)
    ensures t in Children(nodes, d)
  {
  }

  lemma PathChild(nodes: map<ID, INode>, p: seq<ID>, q: seq<ID>)
    requires RootPath(nodes, q) && 0 < |p| < |q| && p <= q
    ensures q[|p|] in Children(nodes, p[|p| - 1]) && p + [q[|p|]] <= q
  {
    PathPrefix(nodes, q, |p| + 1);
    LastEdge(nodes, q[..|p| + 1]);
    EdgeChild(nodes, q[|p| - 1], q[|p|]);
  }

  lemma LastEdge(nodes: map<ID, INode>, r: seq<ID>)
    requires RootPath(nodes, r) && |r| > 1
    ensures Edge(nodes, r[|r| - 2], r[|r| - 1])
  {
  }

  lemma UnderSplit(nodes: map<ID, INode>, p: seq<ID>, x: ID)
    requires RootPath(nodes, p) && Under(nodes, p, x) && x != p[|p| - 1]
    ensures UnderOneOf(nodes, p, Children(nodes, p[|p| - 1]), x)
  {
    var q :| RootPath(nodes, q) && p <= q && q[|q| - 1] == x;
    assert |q| == |p| ==> p == q;
    PathChild(nodes, p, q);
    assert Under(nodes, p + [q[|p|]], x);
  }

  lemma UnderJoin(nodes: map<ID, INode>, p: seq<ID>, cs: set<ID>, x: ID)
    requires UnderOneOf(nodes, p, cs, x)
    ensures Under(nodes, p, x)
  {
    var c :| c in cs && Under(nodes, p + [c], x);
    var q :| RootPath(nodes, q) && p + [c] <= q && q[|q| - 1] == x;
    assert p <= q;
  }

  /** Below a node there is the node, and what is below its children. */
  lemma UnderChildren(nodes: map<ID, INode>, p: seq<ID>, x: ID)
    requires RootPath(nodes, p)
    ensures Under(nodes, p, x) <==> x == p[|p| - 1] || UnderOneOf(nodes, p, Children(nodes, p[|p| - 1]), x)
  {
    var cs := Children(nodes, p[|p| - 1]);
    if Under(nodes, p, x) && x != p[|p| - 1] { UnderSplit(nodes, p, x); }
    if UnderOneOf(nodes, p, cs, x) { UnderJoin(nodes, p, cs, x); }
  }

  /** Different children lead to different nodes. */
  lemma UnderDisjoint(nodes: map<ID, INode>, p: seq<ID>, c: ID, e: ID, x: ID)
    requires NamedOnce(nodes) && Under(nodes, p + [c], x) && Under(nodes, p + [e], x)
    ensures c == e
  {
    var q :| RootPath(nodes, q) && p + [c] <= q && q[|q| - 1] == x;
    var r :| RootPath(nodes, r) && p + [e] <= r && r[|r| - 1] == x;
    PathUnique(nodes, q, r);
    assert q[|p|] == c && r[|p|] == e;
  }

  /** A node is not below its children. */
  lemma UnderSelf(nodes: map<ID, INode>, p: seq<ID>, c: ID)
    requires NamedOnce(nodes) && RootPath(nodes, p)
    ensures !Under(nodes, p + [c], p[|p| - 1])
  {
    if Under(nodes, p + [c], p[|p| - 1]) {
      var q :| RootPath(nodes, q) && p + [c] <= q && q[|q| - 1] == p[|p| - 1];
      PathUnique(nodes, p, q);
    }
  }

  /** What is below one more child was not met before. */
  lemma UnderNew(nodes: map<ID, INode>, p: seq<ID>, cs: set<ID>, c: ID, x: ID)
    requires NamedOnce(nodes) && RootPath(nodes, p) && c !in cs && Under(nodes, p + [c], x)
    ensures x != p[|p| - 1] && !UnderOneOf(nodes, p, cs, x)
  {
    UnderSelf(nodes, p, c);
    if UnderOneOf(nodes, p, cs, x) {
      var e :| e in cs && Under(nodes, p + [e], x);
      UnderDisjoint(nodes, p, c, e, x);
    }
  }

  lemma UnderOneMore(nodes: map<ID, INode>, p: seq<ID>, cs: set<ID>, c: ID, x: ID)
    ensures UnderOneOf(nodes, p, cs + {c}, x) <==> UnderOneOf(nodes, p, cs, x) || Under(nodes, p + [c], x)
  {
    if UnderOneOf(nodes, p, cs, x) {
      var e :| e in cs && Under(nodes, p + [e], x);
      assert e in cs + {c};
    }
    if Under(nodes, p + [c], x) { assert c in cs + {c}; }
  }

  lemma DistinctJoin(a: seq<ID>, b: seq<ID>)
    requires Distinct(a) && Distinct(b) && forall x :: x in b ==> x !in a
    ensures Distinct(a + b)
  {
    forall i: nat, j: nat | i < j < |a + b| ensures (a + b)[i] != (a + b)[j] {
      if j >= |a| { assert b[j - |a|] in b; }
    }
  }

  /** The nodes met are the directory `p` leads to and all that is below its children `cs`, each once. */
  ghost predicate Met(nodes: map<ID, INode>, p: seq<ID>, cs: set<ID>, met: seq<ID>)
    requires |p| > 0
  {
    && Distinct(met)
    && forall x: ID {:trigger UnderOneOf(nodes, p, cs, x)} ::
         x in met <==> x == p[|p| - 1] || UnderOneOf(nodes, p, cs, x)
  }

  lemma MetAt(nodes: map<ID, INode>, p: seq<ID>, cs: set<ID>, met: seq<ID>, x: ID)
    requires |p| > 0 && Met(nodes, p, cs, met)
    ensures x in met <==> x == p[|p| - 1] || UnderOneOf(nodes, p, cs, x)
  {
    var below := UnderOneOf(nodes, p, cs, x);
    assert x in met <==> x == p[|p| - 1] || below;
  }

  ghost predicate MetBelow(nodes: map<ID, INode>, p: seq<ID>, met: seq<ID>)
  {
    Distinct(met) && forall x: ID {:trigger Under(nodes, p, x)} :: x in met <==> Under(nodes, p, x)
  }

  /** A step of the walk: what is below one more child joins what was met before. */
  lemma WalkStep(nodes: map<ID, INode>, p: seq<ID>, met: seq<ID>, cs: set<ID>, c: ID, sub: seq<ID>)
    requires NamedOnce(nodes) && RootPath(nodes, p) && c !in cs
    requires Met(nodes, p, cs, met) && MetBelow(nodes, p + [c], sub)
    ensures Met(nodes, p, cs + {c}, met + sub)
  {
    forall x: ID | x in sub ensures x !in met {
      assert Under(nodes, p + [c], x);
      UnderNew(nodes, p, cs, c, x);
    }
    DistinctJoin(met, sub);
    forall x: ID ensures x in met + sub <==> x == p[|p| - 1] || UnderOneOf(nodes, p, cs + {c}, x) {
      UnderOneMore(nodes, p, cs, c, x);
    }
  }

  lemma WalkEnd(nodes: map<ID, INode>, p: seq<ID>, met: seq<ID>)
    requires RootPath(nodes, p) && Met(nodes, p, Children(nodes, p[|p| - 1]), met)
    ensures MetBelow(nodes, p, met)
  {
    forall x: ID ensures x in met <==> Under(nodes, p, x) {
      UnderChildren(nodes, p, x);
      MetAt(nodes, p, Children(nodes, p[|p| - 1]), met, x);
    }
  }

  lemma WalkStart(nodes: map<ID, INode>, p: seq<ID>)
    requires RootPath(nodes, p)
    ensures Met(nodes, p, {}, [p[|p| - 1]])
  {
  }

  method AppendBlobPaths(found: seq<string>, chunks: seq<Chunk>) returns (r: seq<string>)
    ensures r == found + BlobPaths(chunks)
  {
    r := found;
    for k := 0 to |chunks|
      invariant r == found + BlobPaths(chunks[..k])
    {
      assert chunks[..k + 1][..k] == chunks[..k];
      r := r + [chunks[k].blobPath];
    }
    assert chunks[..|chunks|] == chunks;
  }

  /** The nodes of `p`. */
  ghost function On(p: seq<ID>): set<ID> { set i | i in p }

  /**
   * The walk below the node `id` that `p` leads to. `met` are the nodes met, each once, in the order met:
   * all those below `id`. Only missing nodes are errors.
   */
  method FsckRecursive(nodes: map<ID, INode>, id: ID, found: seq<string>, errs: seq<ID>, ghost p: seq<ID>)
    returns (found': seq<string>, errs': seq<ID>, ghost met: seq<ID>)
    requires NamedOnce(nodes) && RootPath(nodes, p) && p[|p| - 1] == id
    ensures MetBelow(nodes, p, met)
    ensures found' == found + Found(nodes, met)
    ensures errs' == errs + Missing(nodes, met)
    decreases nodes.Keys - On(p), id in nodes, 2
  {
    if id !in nodes {
      LeafMet(nodes, p, found, errs);
      return found, errs + [id], [id];
    }
    if nodes[id].FileNode? {
      LeafMet(nodes, p, found, errs);
      found' := AppendBlobPaths(found, nodes[id].chunks);
      return found', errs, [id];
    }
    found', errs', met := FsckEntries(nodes, id, found, errs, p);
  }

  /** What is found at a node without children. */
  lemma LeafMet(nodes: map<ID, INode>, p: seq<ID>, found: seq<string>, errs: seq<ID>)
    requires RootPath(nodes, p) && (p[|p| - 1] in nodes ==> nodes[p[|p| - 1]].FileNode?)
    ensures MetBelow(nodes, p, [p[|p| - 1]])
    ensures found + PathsOf(nodes, p[|p| - 1]) == found + Found(nodes, [p[|p| - 1]])
    ensures errs + (if p[|p| - 1] in nodes then [] else [p[|p| - 1]]) == errs + Missing(nodes, [p[|p| - 1]])
    ensures found + [] == found && errs + [] == errs
  {
    FoundOne(nodes, p[|p| - 1]);
    WalkStart(nodes, p);
    WalkEnd(nodes, p, [p[|p| - 1]]);
  }

  /** The nodes met when all entries of directory `id` but `names` have been followed. */
  ghost predicate MetUnder(nodes: map<ID, INode>, id: ID, p: seq<ID>, names: set<string>, met: seq<ID>)
    requires id in nodes && nodes[id].DirNode? && |p| > 0
  {
    Met(nodes, p, Targets(nodes, id, nodes[id].entries.Keys - names), met)
  }

  lemma EntriesStart(nodes: map<ID, INode>, id: ID, p: seq<ID>)
    requires RootPath(nodes, p) && p[|p| - 1] == id && id in nodes && nodes[id].DirNode?
    ensures MetUnder(nodes, id, p, nodes[id].entries.Keys, [id])
  {
    WalkStart(nodes, p);
    assert Targets(nodes, id, nodes[id].entries.Keys - nodes[id].entries.Keys) == {};
  }

  lemma EntryStep(nodes: map<ID, INode>, id: ID, p: seq<ID>, names: set<string>, name: string, met: seq<ID>,
                  sub: seq<ID>)
    requires NamedOnce(nodes) && RootPath(nodes, p) && p[|p| - 1] == id && id in nodes && nodes[id].DirNode?
    requires name in nodes[id].entries && name in names && MetUnder(nodes, id, p, names, met)
    requires MetBelow(nodes, p + [nodes[id].entries[name]], sub)
    ensures MetUnder(nodes, id, p, names - {name}, met + sub)
  {
    var done := nodes[id].entries.Keys - names;
    assert nodes[id].entries.Keys - (names - {name}) == done + {name};
    TargetsMore(nodes, id, done, name);
    WalkStep(nodes, p, met, Targets(nodes, id, done), nodes[id].entries[name], sub);
  }

  lemma FoundMore(nodes: map<ID, INode>, found: seq<string>, errs: seq<ID>, met: seq<ID>, sub: seq<ID>)
    ensures found + Found(nodes, met) + Found(nodes, sub) == found + Found(nodes, met + sub)
    ensures errs + Missing(nodes, met) + Missing(nodes, sub) == errs + Missing(nodes, met + sub)
  {
    FoundJoin(nodes, met, sub);
    MissingJoin(nodes, met, sub);
    JoinRight(found, Found(nodes, met), Found(nodes, sub));
    JoinRight(errs, Missing(nodes, met), Missing(nodes, sub));
  }

  lemma JoinRight<T>(a: seq<T>, b: seq<T>, c: seq<T>)
    ensures a + b + c == a + (b + c)
  {
  }

  lemma EntriesEnd(nodes: map<ID, INode>, id: ID, p: seq<ID>, met: seq<ID>)
    requires RootPath(nodes, p) && p[|p| - 1] == id && id in nodes && nodes[id].DirNode?
    requires MetUnder(nodes, id, p, {}, met)
    ensures MetBelow(nodes, p, met)
  {
    assert nodes[id].entries.Keys - {} == nodes[id].entries.Keys;
    assert Targets(nodes, id, nodes[id].entries.Keys) == Children(nodes, id);
    WalkEnd(nodes, p, met);
  }

  method FsckEntries(nodes: map<ID, INode>, id: ID, found: seq<string>, errs: seq<ID>, ghost p: seq<ID>)
    returns (found': seq<string>, errs': seq<ID>, ghost met: seq<ID>)
    requires NamedOnce(nodes) && RootPath(nodes, p) && p[|p| - 1] == id
    requires id in nodes && nodes[id].DirNode?
    ensures MetBelow(nodes, p, met)
    ensures found' == found + Found(nodes, met)
    ensures errs' == errs + Missing(nodes, met)
    decreases nodes.Keys - On(p), true, 1
  {
    found', errs', met := found, errs, [id];
    FoundOne(nodes, id);
    EntriesStart(nodes, id, p);
    var names := nodes[id].entries.Keys;
    while names != {}
      invariant names <= nodes[id].entries.Keys && MetUnder(nodes, id, p, names, met)
      invariant found' == found + Found(nodes, met)
      invariant errs' == errs + Missing(nodes, met)
    {
      var name :| name in names;
      ghost var sub;
      found', errs', sub := FsckChild(nodes, id, name, found', errs', p);
      EntryStep(nodes, id, p, names, name, met, sub);
      FoundMore(nodes, found, errs, met, sub);
      names, met := names - {name}, met + sub;
    }
    EntriesEnd(nodes, id, p, met);
  }

  /** A child is not on the path, so fewer nodes are left off it, or the child is missing. */
  method FsckChild(nodes: map<ID, INode>, id: ID, name: string, found: seq<string>, errs: seq<ID>, ghost p: seq<ID>)
    returns (found': seq<string>, errs': seq<ID>, ghost met: seq<ID>)
    requires NamedOnce(nodes) && RootPath(nodes, p) && p[|p| - 1] == id
    requires id in nodes && nodes[id].DirNode? && name in nodes[id].entries
    ensures MetBelow(nodes, p + [nodes[id].entries[name]], met)
    ensures found' == found + Found(nodes, met)
    ensures errs' == errs + Missing(nodes, met)
    decreases nodes.Keys - On(p), true, 0
  {
    var cid := nodes[id].entries[name];
    assert Names(nodes, id, name, cid);
    PathStep(nodes, p, name, cid);
    assert On(p + [cid]) == On(p) + {cid};
    found', errs', met := FsckRecursive(nodes, cid, found, errs, p + [cid]);
  }

  /** What is below the root is what is reachable. */
  lemma UnderRoot(nodes: map<ID, INode>, x: ID)
    ensures Under(nodes, [ROOT_DIR_ID], x) <==> Reachable(nodes, x)
  {
    if Reachable(nodes, x) {
      var p :| RootPath(nodes, p) && p[|p| - 1] == x;
      PathPrefix(nodes, p, 1);
      assert p[..1] == [ROOT_DIR_ID];
    }
  }

  /** `met` are the reachable nodes, each once. */
  ghost predicate MetAll(nodes: map<ID, INode>, met: seq<ID>)
  {
    Distinct(met) && forall x: ID {:trigger Reachable(nodes, x)} :: x in met <==> Reachable(nodes, x)
  }

  /** Blob `b` holds a part of a reachable file. */
  ghost predicate Used(nodes: map<ID, INode>, b: string)
  {
    exists x: ID :: Reachable(nodes, x) && PartOf(nodes, x, b)
  }

  /** Every reachable node is there. */
  ghost predicate Whole(nodes: map<ID, INode>)
  {
    forall x: ID {:trigger Reachable(nodes, x)} :: Reachable(nodes, x) ==> x in nodes
  }

  lemma {:induction false} FoundHas(nodes: map<ID, INode>, ids: seq<ID>, b: string)
    ensures b in Found(nodes, ids) <==> exists x: ID :: x in ids && PartOf(nodes, x, b)
  {
    if ids != [] {
      var c, i := ids[..|ids| - 1], ids[|ids| - 1];
      FoundHas(nodes, c, b);
      PathsOfHas(nodes, i, b);
      assert forall x: ID :: x in ids <==> x in c || x == i;
    }
  }

  lemma {:induction false} MissingHas(nodes: map<ID, INode>, ids: seq<ID>, x: ID)
    ensures x in Missing(nodes, ids) <==> x in ids && x !in nodes
  {
    if ids != [] {
      var c, i := ids[..|ids| - 1], ids[|ids| - 1];
      MissingHas(nodes, c, x);
      assert x in ids <==> x in c || x == i;
    }
  }

  lemma {:induction false} MissingDistinct(nodes: map<ID, INode>, ids: seq<ID>)
    requires Distinct(ids)
    ensures Distinct(Missing(nodes, ids))
  {
    if ids != [] {
      var c, i := ids[..|ids| - 1], ids[|ids| - 1];
      MissingDistinct(nodes, c);
      forall k | 0 <= k < |Missing(nodes, c)| ensures Missing(nodes, c)[k] != i {
        MissingHas(nodes, c, Missing(nodes, c)[k]);
      }
    }
  }

  lemma ReachableExists(nodes: map<ID, INode>, x: ID)
    requires Closed(nodes) && Reachable(nodes, x)
    ensures x in nodes
  {
    var p :| RootPath(nodes, p) && p[|p| - 1] == x;
    if |p| > 1 { LastEdge(nodes, p); }
  }

  lemma MetUsed(nodes: map<ID, INode>, met: seq<ID>, b: string)
    requires MetAll(nodes, met)
    ensures b in Found(nodes, met) <==> Used(nodes, b)
  {
    FoundHas(nodes, met, b);
    if Used(nodes, b) {
      var x: ID :| Reachable(nodes, x) && PartOf(nodes, x, b);
      assert x in met;
    }
    if b in Found(nodes, met) {
      var x: ID :| x in met && PartOf(nodes, x, b);
      assert Reachable(nodes, x);
    }
  }

  /** `errs` are the reachable nodes that are missing, each once. */
  ghost predicate Reported(nodes: map<ID, INode>, errs: seq<ID>)
  {
    && Distinct(errs)
    && forall x: ID {:trigger Reachable(nodes, x)} :: x in errs <==> Reachable(nodes, x) && x !in nodes
  }

  lemma ReportedAll(nodes: map<ID, INode>, met: seq<ID>)
    requires MetAll(nodes, met)
    ensures Reported(nodes, Missing(nodes, met)) && (Missing(nodes, met) == [] <==> Whole(nodes))
  {
    MissingDistinct(nodes, met);
    forall x: ID ensures x in Missing(nodes, met) <==> Reachable(nodes, x) && x !in nodes {
      MissingHas(nodes, met, x);
    }
    if Missing(nodes, met) != [] { assert Missing(nodes, met)[0] in Missing(nodes, met); }
  }

  /**
   * The whole check. It ends, also when entries form cycles away from the root; it meets every reachable
   * node once; what it finds are the blobs that reachable files use; and it reports exactly the entries
   * that lead nowhere, hence nothing for a closed graph.
   */
  method Walk(nodes: map<ID, INode>) returns (found: seq<string>, errs: seq<ID>, ghost met: seq<ID>)
    requires NamedOnce(nodes)
    ensures MetAll(nodes, met) && found == Found(nodes, met)
    ensures forall b :: b in found <==> Used(nodes, b)
    ensures Reported(nodes, errs) && (errs == [] <==> Whole(nodes)) && (Closed(nodes) ==> errs == [])
  {
    found, errs, met := FsckRecursive(nodes, ROOT_DIR_ID, [], [], [ROOT_DIR_ID]);
    forall x: ID ensures x in met <==> Reachable(nodes, x) {
      UnderRoot(nodes, x);
    }
    forall b ensures b in found <==> Used(nodes, b) {
      MetUsed(nodes, met, b);
    }
    ReportedAll(nodes, met);
    if Closed(nodes) {
      forall x | Reachable(nodes, x) ensures x in nodes {
        ReachableExists(nodes, x);
      }
    }
  }

  // ---------------------------------------------------------------- renaming a directory into itself

  /** `x` is `id` or lies below it. */
  ghost predicate Within(nodes: map<ID, INode>, id: ID, x: ID)
  {
    exists p :: RootPath(nodes, p) && p[|p| - 1] == x && id in p
  }

  /** The entries `m` has that `nodes` has not all lead to `id`. */
  ghost predicate OnlyAdds(nodes: map<ID, INode>, m: map<ID, INode>, id: ID)
  {
    forall e, n, t {:trigger Names(m, e, n, t)} :: Names(m, e, n, t) && t != id ==> Names(nodes, e, n, t)
  }

  /** The entries `nodes` has that `m` has not all lead to `id`, or start in `d`. */
  ghost predicate OnlyDrops(nodes: map<ID, INode>, m: map<ID, INode>, id: ID, d: ID)
  {
    forall e, n, t {:trigger Names(nodes, e, n, t)} :: Names(nodes, e, n, t) && t != id && e != d ==> Names(m, e, n, t)
  }

  lemma {:induction false} PathBefore(nodes: map<ID, INode>, m: map<ID, INode>, id: ID, p: seq<ID>)
    requires OnlyAdds(nodes, m, id) && RootPath(m, p) && id !in p
    ensures RootPath(nodes, p)
  {
    if |p| > 1 { PathBefore(nodes, m, id, p[..|p| - 1]); }
  }

  lemma {:induction false} PathAfter(nodes: map<ID, INode>, m: map<ID, INode>, id: ID, d: ID, p: seq<ID>)
    requires OnlyDrops(nodes, m, id, d) && RootPath(nodes, p) && id !in p && d !in p[..|p| - 1]
    ensures RootPath(m, p)
  {
    if |p| > 1 {
      var q := p[..|p| - 1];
      assert q[..|q| - 1] <= q;
      PathAfter(nodes, m, id, d, q);
      assert p[|p| - 2] == q[|q| - 1] && p[|p| - 2] in q;
    }
  }

  lemma RenameOnly(s: State, op: Op, now: Time)
    requires op.Rename? && Renamed(s, op, now).Ok? && !Is(op.srcDirID, op.srcName, op.dstDirID, op.dstName)
    ensures var id, m := s.nodes[op.srcDirID].entries[op.srcName], Renamed(s, op, now).value.nodes;
            && OnlyAdds(s.nodes, m, id) && OnlyDrops(s.nodes, m, id, op.dstDirID)
            && Names(m, op.dstDirID, op.dstName, id) && Names(s.nodes, op.srcDirID, op.srcName, id)
  {
    RenamedEntries(s, op, now);
  }

  lemma StillReachable(nodes: map<ID, INode>, m: map<ID, INode>, id: ID, d: ID, n: string)
    requires NamedOnce(nodes) && NamedOnce(m) && OnlyDrops(nodes, m, id, d) && Names(m, d, n, id)
    requires Reachable(nodes, d) && !Within(nodes, id, d)
    ensures Reachable(m, id)
  {
    var p :| RootPath(nodes, p) && p[|p| - 1] == d;
    forall i | 0 <= i < |p| - 1 ensures p[i] != d {
      PathDistinct(nodes, p, i, |p| - 1);
    }
    PathAfter(nodes, m, id, d, p);
    PathStep(m, p, n, id);
    var q := p + [id];
    assert RootPath(m, q) && q[|q| - 1] == id;
  }

  lemma CutOff(nodes: map<ID, INode>, m: map<ID, INode>, id: ID, d: ID, n: string)
    requires NamedOnce(nodes) && NamedOnce(m) && OnlyAdds(nodes, m, id) && Names(m, d, n, id)
    requires Reachable(m, id)
    ensures !Within(nodes, id, d)
  {
    var q :| RootPath(m, q) && q[|q| - 1] == id;
    LastEdge(m, q);
    var r := q[..|q| - 1];
    assert r[|r| - 1] == d;
    forall i | 0 <= i < |r| ensures r[i] != id {
      PathDistinct(m, q, i, |r|);
    }
    PathBefore(nodes, m, id, r);
    if Within(nodes, id, d) {
      var p :| RootPath(nodes, p) && p[|p| - 1] == d && id in p;
      PathUnique(nodes, p, r);
    }
  }

  /**
   * A rename does not check where the destination lies. What is moved into a reachable directory stays
   * reachable if and only if that directory does not lie within what is moved.
   */
  lemma RenameReachable(s: State, op: Op, now: Time)
    requires op.Rename? && Renamed(s, op, now).Ok? && !Is(op.srcDirID, op.srcName, op.dstDirID, op.dstName)
    requires Graph(s.nodes) && Reachable(s.nodes, op.dstDirID)
    ensures var id := s.nodes[op.srcDirID].entries[op.srcName];
            Reachable(Renamed(s, op, now).value.nodes, id) <==> !Within(s.nodes, id, op.dstDirID)
  {
    var id, m := s.nodes[op.srcDirID].entries[op.srcName], Renamed(s, op, now).value.nodes;
    RenameOnly(s, op, now);
    RenamedGraph(s, op, now);
    if Reachable(m, id) {
      CutOff(s.nodes, m, id, op.dstDirID, op.dstName);
    } else if !Within(s.nodes, id, op.dstDirID) {
      StillReachable(s.nodes, m, id, op.dstDirID, op.dstName);
    }
  }

  /** `/a/b` exists; renaming `/a` to `/a/b/c` goes through, and neither `a` nor `b` is reachable any more. */
  lemma RenameIntoItself(a: Attrs)
    ensures var nodes :=
              map[1 := DirNode(a, 1, map["a" := 2]), 2 := DirNode(a, 1, map["b" := 3]), 3 := DirNode(a, 2, map[])];
            var s, op := State(nodes, 3, 5, 1, map[]), Rename(1, "a", 3, "c");
            Graph(nodes) && Reachable(nodes, 2) && Renamed(s, op, 0).Ok? && !Reachable(Renamed(s, op, 0).value.nodes, 2)
  {
    var nodes := map[1 := DirNode(a, 1, map["a" := 2]), 2 := DirNode(a, 1, map["b" := 3]), 3 := DirNode(a, 2, map[])];
    var s, op := State(nodes, 3, 5, 1, map[]), Rename(1, "a", 3, "c");
    assert Names(nodes, 1, "a", 2) && Names(nodes, 2, "b", 3);
    PathStep(nodes, [1], "a", 2);
    assert [1] + [2] == [1, 2];
    PathStep(nodes, [1, 2], "b", 3);
    assert [1, 2] + [3] == [1, 2, 3];
    assert RootPath(nodes, [1, 2]) && RootPath(nodes, [1, 2, 3]) && 2 in [1, 2, 3];
    assert Within(nodes, 2, 3);
    RenameReachable(s, op, 0);
  }
}
