/**
 * The graph of directory entries: what each operation does to it (inodedb/dboperation.go), the shape that
 * file system transactions keep (filesystem/filesystem.go: createNode, Rename, Remove, SetAttr), and what
 * that shape says about the paths from the root.
 */
module INodeGraph {
  import opened INodes

  /** Directory `d` has an entry `n` for node `t`. */
  predicate Names(nodes: map<ID, INode>, d: ID, n: string, t: ID)
  {
    d in nodes && nodes[d].DirNode? && n in nodes[d].entries && nodes[d].entries[n] == t
  }

  /** No node is named twice, the root not at all. */
  ghost predicate NamedOnce(nodes: map<ID, INode>)
  {
    && (forall d, n, t {:trigger Names(nodes, d, n, t)} :: Names(nodes, d, n, t) ==> t != ROOT_DIR_ID)
    && (forall d, n, e, m, t {:trigger Names(nodes, d, n, t), Names(nodes, e, m, t)} ::
          Names(nodes, d, n, t) && Names(nodes, e, m, t) ==> d == e && n == m)
  }

  /** The root is a directory, and every entry leads to a node. */
  ghost predicate Closed(nodes: map<ID, INode>)
  {
    && ROOT_DIR_ID in nodes && nodes[ROOT_DIR_ID].DirNode?
    && (forall d, n, t {:trigger Names(nodes, d, n, t)} :: Names(nodes, d, n, t) ==> t in nodes)
  }

  ghost predicate Graph(nodes: map<ID, INode>) { NamedOnce(nodes) && Closed(nodes) }

  ghost predicate Unnamed(nodes: map<ID, INode>, t: ID)
  {
    forall d, n {:trigger Names(nodes, d, n, t)} :: !Names(nodes, d, n, t)
  }

  /** The entries, and which nodes there are, do not depend on what a replay leaves out. */
  lemma SameCoreGraph(a: map<ID, INode>, b: map<ID, INode>)
    requires SameCore(a, b) && Graph(a)
    ensures Graph(b)
  {
    forall d, n, t | Names(b, d, n, t) ensures Names(a, d, n, t) {
      assert Core(a[d]) == Core(b[d]);
    }
    assert Core(a[ROOT_DIR_ID]) == Core(b[ROOT_DIR_ID]);
  }

  // ---------------------------------------------------------------- what the operations do to the entries

  /** Entries `d`/`n` and `e`/`m` are the same entry. */
  predicate Is(d: ID, n: string, e: ID, m: string) { d == e && n == m }

  lemma RenamedEntries(s: State, op: Op, now: Time)
    requires op.Rename? && Renamed(s, op, now).Ok? && !Is(op.srcDirID, op.srcName, op.dstDirID, op.dstName)
    ensures var id := s.nodes[op.srcDirID].entries[op.srcName];
            var m := Renamed(s, op, now).value.nodes;
            && m.Keys == s.nodes.Keys
            && (forall i :: i in m ==>
                  m[i].FileNode? == s.nodes[i].FileNode? && (m[i].FileNode? ==> m[i] == s.nodes[i]))
            && (forall d, n, t {:trigger Names(m, d, n, t)} {:trigger Names(s.nodes, d, n, t)} ::
                  Names(m, d, n, t) <==>
                  if Is(d, n, op.dstDirID, op.dstName) then t == id
                  else Names(s.nodes, d, n, t) && !Is(d, n, op.srcDirID, op.srcName))
  {
  }

  /** A rename of a directory records its new parent. */
  lemma RenamedParent(s: State, op: Op, now: Time)
    requires op.Rename? && Renamed(s, op, now).Ok? && !Is(op.srcDirID, op.srcName, op.dstDirID, op.dstName)
    ensures var id := s.nodes[op.srcDirID].entries[op.srcName];
            var n := Renamed(s, op, now).value.nodes[id];
            n.DirNode? ==> n.parent == op.dstDirID
  {
  }

  lemma RemovedEntries(s: State, op: Op, now: Time)
    requires op.Remove? && Removed(s, op, now).Ok?
    ensures var m := Removed(s, op, now).value.nodes;
            var gone := s.nodes[op.nlock.id].entries[op.name];
            && m.Keys == s.nodes.Keys
            && (forall i :: i in m ==>
                  m[i].FileNode? == s.nodes[i].FileNode? && (m[i].FileNode? ==> m[i] == s.nodes[i]))
            && (forall d, n, t {:trigger Names(m, d, n, t)} {:trigger Names(s.nodes, d, n, t)} ::
                  Names(m, d, n, t) <==> Names(s.nodes, d, n, t) && !Is(d, n, op.nlock.id, op.name))
            && (forall n, t {:trigger Names(s.nodes, gone, n, t)} :: !Names(s.nodes, gone, n, t))
  {
  }

  lemma CreatedEntries(s: State, op: Op, now: Time)
    requires op.CreateNode? && Created(s, op, now).Ok?
    ensures var m := Created(s, op, now).value.nodes;
            && op.nlock.id !in s.nodes && m.Keys == s.nodes.Keys + {op.nlock.id}
            && (forall i :: i in s.nodes ==> m[i] == s.nodes[i])
            && (forall d, n, t {:trigger Names(m, d, n, t)} {:trigger Names(s.nodes, d, n, t)} ::
                  Names(m, d, n, t) <==> Names(s.nodes, d, n, t))
  {
  }

  lemma LinkedEntries(s: State, op: Op, now: Time)
    requires op.HardLink? && Linked(s, op, now).Ok?
    ensures var m := Linked(s, op, now).value.nodes;
            && m.Keys == s.nodes.Keys && op.targetID in m
            && (forall i :: i in m ==>
                  m[i].FileNode? == s.nodes[i].FileNode? && (m[i].FileNode? ==> m[i] == s.nodes[i]))
            && (forall d, n, t {:trigger Names(m, d, n, t)} {:trigger Names(s.nodes, d, n, t)} ::
                  Names(m, d, n, t) <==>
                  if Is(d, n, op.nlock.id, op.name) then t == op.targetID else Names(s.nodes, d, n, t))
  {
  }

  /** The operations that only change one node's attributes, size or chunks. */
  predicate IsUpdate(op: Op)
  {
    op.UpdateChunks? || op.UpdateSize? || op.UpdateUid? || op.UpdateGid? || op.UpdatePermMode? || op.UpdateModifiedT?
  }

  /** The node an update is about. */
  function Subject(op: Op): ID
    requires IsUpdate(op)
  {
    if op.UpdateChunks? || op.UpdateSize? then op.nlock.id else op.id
  }

  lemma UpdatedEntries(s: State, op: Op, now: Time)
    requires IsUpdate(op) && Applied(s, op, now).Ok?
    ensures var m := Applied(s, op, now).value.nodes;
            && m.Keys == s.nodes.Keys
            && (forall i :: i in m && i != Subject(op) ==> m[i] == s.nodes[i])
            && (forall i :: i in m ==> m[i].FileNode? == s.nodes[i].FileNode?)
            && (forall d, n, t {:trigger Names(m, d, n, t)} {:trigger Names(s.nodes, d, n, t)} ::
                  Names(m, d, n, t) <==> Names(s.nodes, d, n, t))
  {
  }

  /** Everything but the time of modification. */
  predicate SameLabels(a: Attrs, b: Attrs)
  {
    a.origPath == b.origPath && a.uid == b.uid && a.gid == b.gid && a.permMode == b.permMode
  }

  /** The same file, or the same directory, but for the attributes. */
  predicate SameBody(n: INode, m: INode)
  {
    && n.FileNode? == m.FileNode?
    && (n.FileNode? ==> n.size == m.size && n.chunks == m.chunks)
    && (n.DirNode? ==> n.parent == m.parent && n.entries == m.entries)
  }

  /** An update changes the one thing it says; a new size also sets the time. */
  lemma UpdatedNode(s: State, op: Op, now: Time)
    requires IsUpdate(op) && Applied(s, op, now).Ok?
    ensures var was, node := s.nodes[Subject(op)], Applied(s, op, now).value.nodes[Subject(op)];
            match op
            case UpdateChunks(_, chunks) => was.FileNode? && node == FileNode(was.attrs, was.size, chunks)
            case UpdateSize(_, size) => was.FileNode? && node == FileNode(was.attrs.(modT := now), size, was.chunks)
            case UpdateUid(_, uid) => SameBody(was, node) && node.attrs == was.attrs.(uid := uid)
            case UpdateGid(_, gid) => SameBody(was, node) && node.attrs == was.attrs.(gid := gid)
            case UpdatePermMode(_, perm) => SameBody(was, node) && node.attrs == was.attrs.(permMode := perm)
            case UpdateModifiedT(_, t) => SameBody(was, node) && node.attrs == was.attrs.(modT := t)
  {
  }

  // ---------------------------------------------------------------- the shape transactions keep

  lemma CreatedGraph(s: State, op: Op, now: Time)
    requires op.CreateNode? && Created(s, op, now).Ok? && Graph(s.nodes)
    ensures var m := Created(s, op, now).value.nodes;
            Graph(m) && Unnamed(m, op.nlock.id) && op.nlock.id != ROOT_DIR_ID
  {
    CreatedEntries(s, op, now);
  }

  lemma LinkedGraph(s: State, op: Op, now: Time)
    requires op.HardLink? && Linked(s, op, now).Ok? && Graph(s.nodes)
    requires Unnamed(s.nodes, op.targetID) && op.targetID != ROOT_DIR_ID
    ensures Graph(Linked(s, op, now).value.nodes)
  {
    LinkedEntries(s, op, now);
  }

  lemma RenamedGraph(s: State, op: Op, now: Time)
    requires op.Rename? && Renamed(s, op, now).Ok? && Graph(s.nodes)
    ensures Graph(Renamed(s, op, now).value.nodes)
  {
    if !Is(op.srcDirID, op.srcName, op.dstDirID, op.dstName) {
      RenamedEntries(s, op, now);
      assert Names(s.nodes, op.srcDirID, op.srcName, s.nodes[op.srcDirID].entries[op.srcName]);
    }
  }

  lemma RemovedGraph(s: State, op: Op, now: Time)
    requires op.Remove? && Removed(s, op, now).Ok? && Graph(s.nodes)
    ensures Graph(Removed(s, op, now).value.nodes)
  {
    RemovedEntries(s, op, now);
  }

  /** Every operation but a bare link keeps the shape. */
  lemma AppliedGraph(s: State, op: Op, now: Time)
    requires !op.HardLink? && Applied(s, op, now).Ok? && Graph(s.nodes)
    ensures Graph(Applied(s, op, now).value.nodes)
  {
    match op
    case CreateNode(_, _, _, _, _, _, _) => CreatedGraph(s, op, now);
    case Rename(_, _, _, _) => RenamedGraph(s, op, now);
    case Remove(_, _) => RemovedGraph(s, op, now);
    case _ => if IsUpdate(op) { UpdatedEntries(s, op, now); }
  }

  /** The transactions the file system makes: a link comes only right after the creation of what it names. */
  ghost predicate FileSystemOps(ops: seq<Op>)
  {
    || (|ops| == 2 && ops[0].CreateNode? && ops[1].HardLink? && ops[1].targetID == ops[0].nlock.id)
    || (forall i {:trigger ops[i]} :: 0 <= i < |ops| ==> !ops[i].HardLink?)
  }

  lemma {:induction false} LinkFreeGraph(s: State, ops: seq<Op>)
    requires Graph(s.nodes) && AppliedAll(s, ops).Ok?
    requires forall i {:trigger ops[i]} :: 0 <= i < |ops| ==> !ops[i].HardLink?
    ensures Graph(AppliedAll(s, ops).value.nodes)
  {
    if ops != [] {
      var init := ops[..|ops| - 1];
      LinkFreeGraph(s, init);
      AppliedGraph(AppliedAll(s, init).value, ops[|ops| - 1], 0);
    }
  }

  lemma CreateAndLinkGraph(s: State, ops: seq<Op>)
    requires Graph(s.nodes) && AppliedAll(s, ops).Ok?
    requires |ops| == 2 && ops[0].CreateNode? && ops[1].HardLink? && ops[1].targetID == ops[0].nlock.id
    ensures Graph(AppliedAll(s, ops).value.nodes)
  {
    var one := ops[..1];
    assert ops[..|ops| - 1] == one && one[..0] == [] && AppliedAll(s, one[..|one| - 1]) == Ok(s);
    var t := AppliedAll(s, one).value;
    assert AppliedAll(s, one) == Created(s, ops[0], 0);
    CreatedGraph(s, ops[0], 0);
    LinkedGraph(t, ops[1], 0);
  }

  /** A committed file system transaction keeps the shape. */
  lemma CommittedGraph(s: State, tx: Transaction)
    requires Graph(s.nodes) && FileSystemOps(tx.ops) && Committed(s, tx).Ok?
    ensures Graph(Committed(s, tx).value.nodes)
  {
    if forall i {:trigger tx.ops[i]} :: 0 <= i < |tx.ops| ==> !tx.ops[i].HardLink? {
      LinkFreeGraph(s, tx.ops);
    } else {
      CreateAndLinkGraph(s, tx.ops);
    }
  }

  lemma InitializedGraph(s: State, now: Time)
    requires Initialized(s, now).Ok?
    ensures Graph(Initialized(s, now).value.nodes)
  {
  }
}
