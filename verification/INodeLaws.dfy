/**
 * What each operation asks for and what it changes (inodedb/dboperation.go), in terms of nodes, their
 * fields and the locks: when it goes through, with which error it does not, and every field afterwards.
 */
module INodeLaws {
  import opened Bytes
  import opened INodes
  import opened INodeGraph

  predicate IsDir(s: State, id: ID) { id in s.nodes && s.nodes[id].DirNode? }

  predicate IsFile(s: State, id: ID) { id in s.nodes && s.nodes[id].FileNode? }

  /** A lock other than `l` is on its node. */
  predicate Barred(s: State, l: NodeLock) { l.id in s.locks && s.locks[l.id] != l }

  /** There are the same nodes, and those not in `ids` are as they were; so are the numbers. */
  ghost predicate OnlyIn(s: State, t: State, ids: set<ID>)
  {
    && t.nodes.Keys == s.nodes.Keys && t.lastID == s.lastID
    && forall i {:trigger t.nodes[i]} :: i in s.nodes && i !in ids ==> t.nodes[i] == s.nodes[i]
  }

  /** Directory `d` is as it was but for its entries, which are `entries`, and the time, which is `now`. */
  ghost predicate Relisted(s: State, t: State, d: ID, entries: map<string, ID>, now: Time)
  {
    && IsDir(s, d) && IsDir(t, d) && t.nodes[d].entries == entries && t.nodes[d].parent == s.nodes[d].parent
    && SameLabels(t.nodes[d].attrs, s.nodes[d].attrs) && t.nodes[d].attrs.modT == now
  }

  lemma InitializedLaw(s: State, now: Time)
    ensures Initialized(s, now).Ok? <==> s.nodes == map[] && s.lastID == 0
    ensures Initialized(s, now).Err? ==> Initialized(s, now).error == Refused
    ensures Initialized(s, now).Ok? ==>
              var t := Initialized(s, now).value;
              && t.nodes.Keys == {1} && t.lastID == 1 && t.nodes[1].DirNode?
              && t.nodes[1].parent == 1 && t.nodes[1].entries == map[]
              && t.nodes[1].attrs == Attrs("/", 0, 0, 0x1ff, now)
  {
  }

  /** A node is created for the holder of the lock on its number, which is new. */
  predicate MayCreateNode(s: State, op: Op)
    requires op.CreateNode?
  {
    && op.nlock.ticket != NO_TICKET && !Barred(s, op.nlock) && (op.typ == FILE_NODE_T || op.typ == DIR_NODE_T)
    && op.nlock.id !in s.nodes && op.nlock.id >= s.lastID
  }

  lemma CreatedLaw(s: State, op: Op, now: Time)
    requires op.CreateNode?
    ensures Created(s, op, now).Ok? <==> MayCreateNode(s, op)
    ensures Created(s, op, now).Err? ==>
              Created(s, op, now).error == if op.nlock.ticket == NO_TICKET then LockInvalid
                                           else if Barred(s, op.nlock) then LockTaken else Refused
    ensures Created(s, op, now).Ok? ==>
              var t, id := Created(s, op, now).value, op.nlock.id;
              && t.lastID == id && t.nodes.Keys == s.nodes.Keys + {id}
              && (forall i {:trigger t.nodes[i]} :: i in s.nodes ==> t.nodes[i] == s.nodes[i])
              && t.nodes[id].attrs.origPath == op.origPath && t.nodes[id].attrs.uid == op.uid
              && t.nodes[id].attrs.gid == op.gid && t.nodes[id].attrs.permMode == op.permMode
              && t.nodes[id].attrs.modT == now
              && (op.typ == FILE_NODE_T ==> IsFile(t, id) && t.nodes[id].size == 0 && t.nodes[id].chunks == [])
              && (op.typ == DIR_NODE_T ==>
                    IsDir(t, id) && t.nodes[id].parent == op.parentID && t.nodes[id].entries == map[])
  {
  }

  predicate MayLink(s: State, op: Op)
    requires op.HardLink?
  {
    && !Barred(s, op.nlock) && IsDir(s, op.nlock.id) && op.targetID in s.nodes
    && op.name !in s.nodes[op.nlock.id].entries
  }

  lemma LinkedLaw(s: State, op: Op, now: Time)
    requires op.HardLink?
    ensures Linked(s, op, now).Ok? <==> MayLink(s, op)
    ensures Linked(s, op, now).Err? ==>
              Linked(s, op, now).error == if Barred(s, op.nlock) then LockTaken
                                          else if op.nlock.id !in s.nodes then ENoEnt
                                          else if IsFile(s, op.nlock.id) then ENotDir
                                          else if op.targetID !in s.nodes then ENoEnt else EExist
    ensures Linked(s, op, now).Ok? ==>
              var t, d := Linked(s, op, now).value, op.nlock.id;
              && OnlyIn(s, t, {d})
              && Relisted(s, t, d, s.nodes[d].entries[op.name := op.targetID], now)
  {
  }

  /** An entry is removed while its directory is not locked by another, unless it leads to one that is not empty. */
  predicate MayRemove(s: State, op: Op)
    requires op.Remove?
  {
    && !Barred(s, op.nlock) && IsDir(s, op.nlock.id) && op.name in s.nodes[op.nlock.id].entries
    && var t := s.nodes[op.nlock.id].entries[op.name]; IsDir(s, t) ==> s.nodes[t].entries == map[]
  }

  lemma RemovedLaw(s: State, op: Op, now: Time)
    requires op.Remove?
    ensures Removed(s, op, now).Ok? <==> MayRemove(s, op)
    ensures Removed(s, op, now).Err? ==>
              Removed(s, op, now).error == if Barred(s, op.nlock) then LockTaken
                                           else if op.nlock.id !in s.nodes then ENoEnt
                                           else if IsFile(s, op.nlock.id) then ENotDir
                                           else if op.name !in s.nodes[op.nlock.id].entries then ENoEnt else ENotEmpty
    ensures Removed(s, op, now).Ok? ==>
              var t, d := Removed(s, op, now).value, op.nlock.id;
              && OnlyIn(s, t, {d})
              && Relisted(s, t, d, s.nodes[d].entries - {op.name}, now)
  {
  }

  predicate RenameBarred(s: State, op: Op)
    requires op.Rename?
  {
    Barred(s, NodeLock(op.srcDirID, NO_TICKET)) || Barred(s, NodeLock(op.dstDirID, NO_TICKET))
  }

  /** Both directories are there and not locked, and the one has the entry; whatever the other has does not matter. */
  predicate MayRename(s: State, op: Op)
    requires op.Rename?
  {
    && !RenameBarred(s, op)
    && IsDir(s, op.srcDirID) && IsDir(s, op.dstDirID) && op.srcName in s.nodes[op.srcDirID].entries
  }

  /** To its own place, an entry may be moved even when what it names is missing. */
  lemma RenamedLaw(s: State, op: Op, now: Time)
    requires op.Rename?
    ensures Renamed(s, op, now).Ok? <==>
              && MayRename(s, op)
              && (|| Is(op.srcDirID, op.srcName, op.dstDirID, op.dstName)
                  || s.nodes[op.srcDirID].entries[op.srcName] in s.nodes)
    ensures Renamed(s, op, now).Err? ==>
              Renamed(s, op, now).error ==
              if RenameBarred(s, op) then LockTaken
              else if op.srcDirID !in s.nodes || op.dstDirID !in s.nodes then ENoEnt
              else if IsFile(s, op.srcDirID) || IsFile(s, op.dstDirID) then ENotDir
              else if op.srcName !in s.nodes[op.srcDirID].entries then ENoEnt else Refused
    ensures Renamed(s, op, now).Ok? && Is(op.srcDirID, op.srcName, op.dstDirID, op.dstName) ==>
              Renamed(s, op, now).value == s
  {
  }

  /** The fields after a rename to another place. */
  lemma RenamedFields(s: State, op: Op, now: Time)
    requires op.Rename? && Renamed(s, op, now).Ok? && !Is(op.srcDirID, op.srcName, op.dstDirID, op.dstName)
    ensures var t, id := Renamed(s, op, now).value, s.nodes[op.srcDirID].entries[op.srcName];
            && OnlyIn(s, t, {op.srcDirID, op.dstDirID, id})
            && (forall i {:trigger t.nodes[i]} :: i in s.nodes ==> SameLabels(t.nodes[i].attrs, s.nodes[i].attrs))
            && (IsFile(s, id) ==> t.nodes[id] == s.nodes[id])
            && (forall i {:trigger DirMoved(s, t, op, i, now)} :: IsDir(s, i) ==> DirMoved(s, t, op, i, now))
  {
  }

  /** Directory `i` after a rename: what was moved has another parent, and where entries changed another time. */
  predicate DirMoved(s: State, t: State, op: Op, i: ID, now: Time)
    requires op.Rename?
  {
    && IsDir(s, i) && IsDir(t, i)
    && t.nodes[i].parent == (if Names(s.nodes, op.srcDirID, op.srcName, i) then op.dstDirID else s.nodes[i].parent)
    && t.nodes[i].attrs.modT == (if i == op.srcDirID || i == op.dstDirID then now else s.nodes[i].attrs.modT)
  }

  /** Attributes are set for anyone; size and chunks only of a file, for the holder of its lock. */
  predicate MayUpdate(s: State, op: Op)
    requires IsUpdate(op)
  {
    if op.UpdateChunks? || op.UpdateSize?
    then op.nlock.ticket != NO_TICKET && !Barred(s, op.nlock) && IsFile(s, op.nlock.id)
    else op.id in s.nodes
  }

  lemma UpdatedLaw(s: State, op: Op, now: Time)
    requires IsUpdate(op)
    ensures Applied(s, op, now).Ok? <==> MayUpdate(s, op)
    ensures Applied(s, op, now).Err? ==>
              Applied(s, op, now).error == if op.UpdateChunks? || op.UpdateSize?
                                           then if op.nlock.ticket == NO_TICKET then LockInvalid
                                                else if Barred(s, op.nlock) then LockTaken
                                                else if op.nlock.id !in s.nodes then ENoEnt else Refused
                                           else ENoEnt
    ensures Applied(s, op, now).Ok? ==> OnlyIn(s, Applied(s, op, now).value, {Subject(op)})
  {
  }

  /** What a snapshot keeps, field by field; it forgets parents, locks and tickets. */
  lemma SnapshotLaw(s: State)
    ensures var t := Snapshot(s);
            && t.nodes.Keys == s.nodes.Keys && t.lastID == s.lastID && t.version == s.version
            && t.lastTicket == 1 && t.locks == map[]
            && (forall i {:trigger t.nodes[i]} :: i in s.nodes ==>
                  && t.nodes[i].attrs == s.nodes[i].attrs && t.nodes[i].FileNode? == s.nodes[i].FileNode?
                  && (IsFile(s, i) ==> t.nodes[i].size == s.nodes[i].size && t.nodes[i].chunks == s.nodes[i].chunks)
                  && (IsDir(s, i) ==> t.nodes[i].entries == s.nodes[i].entries && t.nodes[i].parent == 0))
  {
  }

  /** What a replay brings back of a node: all but the time of modification and, of a directory, the parent. */
  predicate BroughtBack(n: INode, m: INode)
  {
    && n.FileNode? == m.FileNode? && SameLabels(n.attrs, m.attrs)
    && (n.FileNode? ==> n.size == m.size && n.chunks == m.chunks)
    && (n.DirNode? ==> n.entries == m.entries)
  }

  lemma SameCoreLaw(a: map<ID, INode>, b: map<ID, INode>)
    ensures SameCore(a, b) <==>
              && a.Keys == b.Keys
              && forall i {:trigger a[i]} {:trigger b[i]} :: i in a && i in b ==> BroughtBack(a[i], b[i])
  {
  }
}
