/**
 * The transactions of the file system (filesystem/filesystem.go: createNode, Rename, Remove) against the
 * inode database, as their callers see them: which entry appears or disappears, and that nothing does
 * when the call fails.
 */
module FileSystem {
  import opened Bytes
  import opened INodes
  import opened INodeGraph
  import opened INodeLaws
  import opened INodeDB

  /** Entries `d`/`n` of `b` are those of `a`, with `t` under `e`/`m`. */
  ghost predicate EntrySet(a: map<ID, INode>, b: map<ID, INode>, e: ID, m: string, t: ID)
  {
    forall d, n, x {:trigger Names(b, d, n, x)} {:trigger Names(a, d, n, x)} ::
      Names(b, d, n, x) <==> if Is(d, n, e, m) then x == t else Names(a, d, n, x)
  }

  /** The entries of `b` are those of `a` without `e`/`m`. */
  ghost predicate EntryGone(a: map<ID, INode>, b: map<ID, INode>, e: ID, m: string)
  {
    forall d, n, x {:trigger Names(b, d, n, x)} {:trigger Names(a, d, n, x)} ::
      Names(b, d, n, x) <==> Names(a, d, n, x) && !Is(d, n, e, m)
  }

  /** The entries of `b` are those of `a` with the source of `op` moved to its destination. */
  ghost predicate EntryMoved(a: map<ID, INode>, b: map<ID, INode>, op: Op)
    requires op.Rename?
  {
    forall d, n, t {:trigger Names(b, d, n, t)} {:trigger Names(a, d, n, t)} ::
      Names(b, d, n, t) <==>
      if Is(d, n, op.dstDirID, op.dstName) then Names(a, op.srcDirID, op.srcName, t)
      else Names(a, d, n, t) && !Is(d, n, op.srcDirID, op.srcName)
  }

  /** Node by node, `b` is `a` but for entries, parents and times; it may have more nodes. */
  ghost predicate Kept(a: map<ID, INode>, b: map<ID, INode>)
  {
    forall i {:trigger a[i]} {:trigger b[i]} :: i in a ==>
      && i in b && a[i].FileNode? == b[i].FileNode? && SameLabels(a[i].attrs, b[i].attrs)
      && (a[i].FileNode? ==> a[i].size == b[i].size && a[i].chunks == b[i].chunks)
  }

  lemma SameCoreKept(a: map<ID, INode>, m: map<ID, INode>, b: map<ID, INode>)
    requires Kept(a, m) && SameCore(m, b)
    ensures Kept(a, b)
  {
    SameCoreLaw(m, b);
    forall i | i in a
      ensures i in b && a[i].FileNode? == b[i].FileNode? && SameLabels(a[i].attrs, b[i].attrs)
      ensures a[i].FileNode? ==> a[i].size == b[i].size && a[i].chunks == b[i].chunks
    {
      assert BroughtBack(m[i], b[i]);
    }
  }

  ghost predicate Childless(a: map<ID, INode>, d: ID)
  {
    forall n, t {:trigger Names(a, d, n, t)} :: !Names(a, d, n, t)
  }

  lemma SameCoreNames(a: map<ID, INode>, b: map<ID, INode>, d: ID, n: string, t: ID)
    requires SameCore(a, b)
    ensures Names(a, d, n, t) <==> Names(b, d, n, t)
  {
    if d in a { assert Core(a[d]) == Core(b[d]); }
  }

  /** A database that runs: recoverable, and with a snapshot to go back to. */
  ghost predicate Running(db: DB)
    reads db, db.state, db.snapshotIO, db.txLogIO
  {
    db.Valid() && db.snapshotIO.saved.Some? && Graph(db.state.nodes)
  }

  /** Nothing a caller can see has changed. */
  ghost predicate Unchanged(was: State, now: State)
  {
    SameCore(was.nodes, now.nodes) && was.version == now.version
  }

  function OneOp(op: Op): Transaction { Transaction(ANY_VERSION, [op]) }

  lemma AppliedTwo(s: State, op: Op, second: Op)
    ensures AppliedAll(s, [op, second]) ==
            if Applied(s, op, 0).Err? then Applied(s, op, 0) else Applied(Applied(s, op, 0).value, second, 0)
  {
    assert [op, second][..1] == [op];
    AppliedOne(s, op);
  }

  lemma OneOpShape(op: Op)
    requires !op.HardLink?
    ensures FileSystemOps(OneOp(op).ops)
  {
  }

  /** One operation as a transaction of its own. */
  method Do(db: DB, op: Op) returns (err: Option<Error>)
    requires Running(db) && !op.HardLink?
    modifies db, db.state, db.txLogIO, db.snapshotIO
    ensures Running(db)
    ensures err.None? <==> !db.readOnly && Applied(old(db.state.Value()), op, 0).Ok? && !old(db.txLogIO.readOnly)
    ensures err.None? ==> && db.state.version == old(db.state.version) + 1
                          && SameCore(db.state.nodes, Applied(old(db.state.Value()), op, 0).value.nodes)
    ensures err.Some? ==> Unchanged(old(db.state.Value()), db.state.Value())
    ensures err.Some? ==>
              var a := Applied(old(db.state.Value()), op, 0);
              err.value == if !db.readOnly && a.Err? then a.error else EAccess
  {
    AppliedOne(db.state.Value(), op);
    OneOpShape(op);
    var r := db.ApplyTransaction(OneOp(op));
    err := if r.Failed? then Some(r.error) else None;
  }

  datatype ValidAttrFields = ValidAttrFields(uid: bool, gid: bool, permMode: bool, modT: bool)

  const NOTHING := ValidAttrFields(false, false, false, false)

  /** `ops` set the valid ones of the attributes `a` of the node `id`. */
  ghost predicate Sets(s: State, id: ID, ops: seq<Op>, a: Attrs, valid: ValidAttrFields)
  {
    && (ops == [] <==> valid == NOTHING)
    && (forall i {:trigger ops[i]} :: 0 <= i < |ops| ==> !ops[i].HardLink?)
    && (ops != [] && id !in s.nodes ==> AppliedAll(s, ops).Err?)
    && (ops == [] || id in s.nodes ==> AppliedAll(s, ops).Ok?)
    && (id in s.nodes ==> HasSet(s.nodes, AppliedAll(s, ops).value.nodes, id, a, valid))
    && (id !in s.nodes && ops == [] ==> AppliedAll(s, ops).value.nodes == s.nodes)
  }

  /** `m` is `n` but for parent, time and the valid ones of the attributes `attrs`. */
  predicate SetNode(n: INode, m: INode, attrs: Attrs, valid: ValidAttrFields)
  {
    && n.FileNode? == m.FileNode? && n.attrs.origPath == m.attrs.origPath
    && (n.FileNode? ==> n.size == m.size && n.chunks == m.chunks) && (n.DirNode? ==> n.entries == m.entries)
    && m.attrs.uid == (if valid.uid then attrs.uid else n.attrs.uid)
    && m.attrs.gid == (if valid.gid then attrs.gid else n.attrs.gid)
    && m.attrs.permMode == (if valid.permMode then attrs.permMode else n.attrs.permMode)
  }

  /** Of all nodes only `id` has the valid ones of the attributes `attrs` set. */
  ghost predicate HasSet(a: map<ID, INode>, b: map<ID, INode>, id: ID, attrs: Attrs, valid: ValidAttrFields)
  {
    && a.Keys == b.Keys
    && forall i {:trigger a[i]} {:trigger b[i]} ::
         i in a && i in b ==> SetNode(a[i], b[i], attrs, if i == id then valid else NOTHING)
  }

  /** `op` sets the one attribute by which `valid'` has more than `valid`. */
  predicate SetsOne(id: ID, op: Op, a: Attrs, valid: ValidAttrFields, valid': ValidAttrFields)
  {
    || (op == UpdateUid(id, a.uid) && valid' == valid.(uid := true))
    || (op == UpdateGid(id, a.gid) && valid' == valid.(gid := true))
    || (op == UpdatePermMode(id, a.permMode) && valid' == valid.(permMode := true))
    || (op == UpdateModifiedT(id, a.modT) && valid' == valid.(modT := true))
  }

  lemma HasSetMore(s: State, t: State, id: ID, op: Op, a: Attrs, valid: ValidAttrFields, valid': ValidAttrFields)
    requires id in s.nodes && HasSet(s.nodes, t.nodes, id, a, valid) && SetsOne(id, op, a, valid, valid')
    ensures Applied(t, op, 0).Ok? && HasSet(s.nodes, Applied(t, op, 0).value.nodes, id, a, valid')
  {
    UpdatedLaw(t, op, 0);
    UpdatedNode(t, op, 0);
    var u := Applied(t, op, 0).value;
    forall i | i in s.nodes ensures SetNode(s.nodes[i], u.nodes[i], a, if i == id then valid' else NOTHING) {
      assert SetNode(s.nodes[i], t.nodes[i], a, if i == id then valid else NOTHING);
    }
  }

  /** One more update sets one more attribute. */
  lemma SetsMore(s: State, id: ID, ops: seq<Op>, op: Op, a: Attrs, valid: ValidAttrFields, valid': ValidAttrFields)
    requires Sets(s, id, ops, a, valid) && SetsOne(id, op, a, valid, valid')
    ensures Sets(s, id, ops + [op], a, valid')
  {
    assert (ops + [op])[..|ops|] == ops;
    if AppliedAll(s, ops).Ok? {
      if id in s.nodes {
        HasSetMore(s, AppliedAll(s, ops).value, id, op, a, valid, valid');
      } else {
        UpdatedLaw(AppliedAll(s, ops).value, op, 0);
      }
    }
  }

  /** An update for each attribute that is valid. */
  method AttrOps(id: ID, a: Attrs, valid: ValidAttrFields, ghost s: State) returns (ops: seq<Op>)
    ensures Sets(s, id, ops, a, valid)
  {
    ops := [];
    ghost var done := NOTHING;
    if valid.uid {
      SetsMore(s, id, ops, UpdateUid(id, a.uid), a, done, done.(uid := true));
      ops, done := ops + [UpdateUid(id, a.uid)], done.(uid := true);
    }
    if valid.gid {
      SetsMore(s, id, ops, UpdateGid(id, a.gid), a, done, done.(gid := true));
      ops, done := ops + [UpdateGid(id, a.gid)], done.(gid := true);
    }
    if valid.permMode {
      SetsMore(s, id, ops, UpdatePermMode(id, a.permMode), a, done, done.(permMode := true));
      ops, done := ops + [UpdatePermMode(id, a.permMode)], done.(permMode := true);
    }
    if valid.modT {
      SetsMore(s, id, ops, UpdateModifiedT(id, a.modT), a, done, done.(modT := true));
      ops, done := ops + [UpdateModifiedT(id, a.modT)], done.(modT := true);
    }
  }

  /**
   * Sets attributes of a node, all in one transaction or none. Without any to set, a transaction is
   * committed even for a node that does not exist.
   */
  method SetAttr(db: DB, id: ID, a: Attrs, valid: ValidAttrFields) returns (err: Option<Error>)
    requires Running(db)
    modifies db, db.state, db.txLogIO, db.snapshotIO
    ensures Running(db)
    ensures err.None? <==>
              !db.readOnly && !old(db.txLogIO.readOnly) && (id in old(db.state.nodes) || valid == NOTHING)
    ensures err.Some? ==> Unchanged(old(db.state.Value()), db.state.Value())
    ensures err.None? ==> db.state.version == old(db.state.version) + 1
    ensures err.None? && id !in old(db.state.nodes) ==> SameCore(db.state.nodes, old(db.state.nodes))
    ensures err.None? && id in old(db.state.nodes) ==>
              HasSet(old(db.state.nodes), db.state.nodes, id, a, valid)
  {
    ghost var s := db.state.Value();
    var ops := AttrOps(id, a, valid, s);
    var r := db.ApplyTransaction(Transaction(ANY_VERSION, ops));
    if r.Done? && id in s.nodes { HasSetCore(s.nodes, AppliedAll(s, ops).value.nodes, db.state.nodes, id, a, valid); }
    err := if r.Failed? then Some(r.error) else None;
  }

  lemma HasSetCore(a: map<ID, INode>, m: map<ID, INode>, b: map<ID, INode>, id: ID, attrs: Attrs,
                   valid: ValidAttrFields)
    requires HasSet(a, m, id, attrs, valid) && SameCore(m, b)
    ensures HasSet(a, b, id, attrs, valid)
  {
    SameCoreLaw(m, b);
    forall i | i in a ensures SetNode(a[i], b[i], attrs, if i == id then valid else NOTHING) {
      assert BroughtBack(m[i], b[i]);
    }
  }

  lemma RenameSeen(was: State, op: Op, now: map<ID, INode>)
    requires op.Rename? && Renamed(was, op, 0).Ok? && SameCore(now, Renamed(was, op, 0).value.nodes)
    ensures Is(op.srcDirID, op.srcName, op.dstDirID, op.dstName) ==> SameCore(was.nodes, now)
    ensures exists t :: Names(was.nodes, op.srcDirID, op.srcName, t) && Names(now, op.dstDirID, op.dstName, t)
    ensures !Is(op.srcDirID, op.srcName, op.dstDirID, op.dstName) ==> EntryMoved(was.nodes, now, op)
  {
    var m := Renamed(was, op, 0).value.nodes;
    var t := was.nodes[op.srcDirID].entries[op.srcName];
    assert Names(was.nodes, op.srcDirID, op.srcName, t);
    forall d, n, x ensures Names(now, d, n, x) <==> Names(m, d, n, x) {
      SameCoreNames(now, m, d, n, x);
    }
    if !Is(op.srcDirID, op.srcName, op.dstDirID, op.dstName) { RenamedEntries(was, op, 0); }
    assert Names(now, op.dstDirID, op.dstName, t);
  }

  lemma RemoveSeen(was: State, op: Op, now: map<ID, INode>)
    requires op.Remove? && Removed(was, op, 0).Ok? && SameCore(now, Removed(was, op, 0).value.nodes)
    ensures EntryGone(was.nodes, now, op.nlock.id, op.name)
    ensures exists t :: Names(was.nodes, op.nlock.id, op.name, t) && Childless(was.nodes, t)
  {
    var m := Removed(was, op, 0).value.nodes;
    RemovedEntries(was, op, 0);
    assert Names(was.nodes, op.nlock.id, op.name, was.nodes[op.nlock.id].entries[op.name]);
    forall d, n, x ensures Names(now, d, n, x) <==> Names(m, d, n, x) {
      SameCoreNames(now, m, d, n, x);
    }
  }

  /** When moving an entry is accepted; what has its new name already does not matter. */
  predicate MayMove(s: State, srcDir: ID, srcName: string, dstDir: ID)
  {
    && IsDir(s, srcDir) && IsDir(s, dstDir) && srcName in s.nodes[srcDir].entries
    && srcDir !in s.locks && dstDir !in s.locks
  }

  lemma MoveAllowed(s: State, op: Op)
    requires op.Rename? && Bounded(s) && Graph(s.nodes)
    ensures Renamed(s, op, 0).Ok? <==> MayMove(s, op.srcDirID, op.srcName, op.dstDirID)
  {
    RenamedLaw(s, op, 0);
    if MayMove(s, op.srcDirID, op.srcName, op.dstDirID) {
      assert Names(s.nodes, op.srcDirID, op.srcName, s.nodes[op.srcDirID].entries[op.srcName]);
    }
  }

  lemma MoveKept(s: State, op: Op, now: map<ID, INode>)
    requires op.Rename? && Renamed(s, op, 0).Ok? && SameCore(now, Renamed(s, op, 0).value.nodes)
    ensures now.Keys == s.nodes.Keys && Kept(s.nodes, now)
  {
    var m := Renamed(s, op, 0).value.nodes;
    if !Is(op.srcDirID, op.srcName, op.dstDirID, op.dstName) {
      RenamedFields(s, op, 0);
      RenamedEntries(s, op, 0);
    }
    SameCoreKept(s.nodes, m, now);
  }

  /** Moves an entry, replacing what had its new name; to its own place, it changes nothing. */
  method Rename(db: DB, srcDir: ID, srcName: string, dstDir: ID, dstName: string) returns (err: Option<Error>)
    requires Running(db)
    modifies db, db.state, db.txLogIO, db.snapshotIO
    ensures Running(db)
    ensures err.Some? ==> Unchanged(old(db.state.Value()), db.state.Value())
    ensures err.None? ==>
              exists t :: Names(old(db.state.nodes), srcDir, srcName, t) && Names(db.state.nodes, dstDir, dstName, t)
    ensures err.None? && !Is(srcDir, srcName, dstDir, dstName) ==>
              EntryMoved(old(db.state.nodes), db.state.nodes, Op.Rename(srcDir, srcName, dstDir, dstName))
    ensures err.None? && Is(srcDir, srcName, dstDir, dstName) ==> SameCore(old(db.state.nodes), db.state.nodes)
    ensures err.None? <==>
              !db.readOnly && !old(db.txLogIO.readOnly) && MayMove(old(db.state.Value()), srcDir, srcName, dstDir)
    ensures err.None? ==> db.state.nodes.Keys == old(db.state.nodes).Keys && Kept(old(db.state.nodes), db.state.nodes)
  {
    var op := Op.Rename(srcDir, srcName, dstDir, dstName);
    SoundBounded(db.snapshotIO.saved, db.txLogIO.txs, db.state.Value());
    MoveAllowed(db.state.Value(), op);
    err := Do(db, op);
    if err.None? {
      RenameSeen(old(db.state.Value()), op, db.state.nodes);
      MoveKept(old(db.state.Value()), op, db.state.nodes);
    }
  }

  /** When removing an entry is accepted. */
  predicate MayUnlink(s: State, dir: ID, name: string)
  {
    && IsDir(s, dir) && name in s.nodes[dir].entries && dir !in s.locks
    && var t := s.nodes[dir].entries[name]; IsDir(s, t) ==> s.nodes[t].entries == map[]
  }

  lemma UnlinkAllowed(s: State, op: Op)
    requires op.Remove? && op.nlock.ticket == NO_TICKET && Bounded(s)
    ensures Removed(s, op, 0).Ok? <==> MayUnlink(s, op.nlock.id, op.name)
    ensures Removed(s, op, 0).Ok? ==> Kept(s.nodes, Removed(s, op, 0).value.nodes)
  {
    RemovedLaw(s, op, 0);
  }

  /** Removes an entry, of a directory only when it is empty. */
  method Remove(db: DB, dir: ID, name: string) returns (err: Option<Error>)
    requires Running(db)
    modifies db, db.state, db.txLogIO, db.snapshotIO
    ensures Running(db)
    ensures err.Some? ==> Unchanged(old(db.state.Value()), db.state.Value())
    ensures err.None? ==> && EntryGone(old(db.state.nodes), db.state.nodes, dir, name)
                          && exists t :: Names(old(db.state.nodes), dir, name, t) && Childless(old(db.state.nodes), t)
    ensures err.None? <==> !db.readOnly && !old(db.txLogIO.readOnly) && MayUnlink(old(db.state.Value()), dir, name)
    ensures err.None? ==> db.state.nodes.Keys == old(db.state.nodes).Keys && Kept(old(db.state.nodes), db.state.nodes)
  {
    var op := Op.Remove(NodeLock(dir, NO_TICKET), name);
    SoundBounded(db.snapshotIO.saved, db.txLogIO.txs, db.state.Value());
    UnlinkAllowed(db.state.Value(), op);
    err := Do(db, op);
    if err.None? {
      RemoveSeen(old(db.state.Value()), op, db.state.nodes);
      SameCoreKept(old(db.state.nodes), Removed(old(db.state.Value()), op, 0).value.nodes, db.state.nodes);
    }
  }

  /** When creating `name` in `dir` is accepted. */
  predicate MayCreate(s: State, dir: ID, name: string, typ: int)
  {
    && (typ == FILE_NODE_T || typ == DIR_NODE_T)
    && dir in s.nodes && s.nodes[dir].DirNode? && name !in s.nodes[dir].entries
    && dir !in s.locks && s.lastID + 1 !in s.locks
  }

  /** `s'` is `s` after the next number has been allocated and locked. */
  ghost predicate Locked(s: State, l: NodeLock, s': State)
  {
    && Bounded(s) && l.id == s.lastID + 1 && l.id !in s.locks && l.ticket != NO_TICKET
    && s' == s.(lastID := l.id, locks := s.locks[l.id := l], lastTicket := l.ticket)
  }

  /** A node as `op` makes it: with its attributes, and empty. */
  predicate IsNew(n: INode, op: Op)
    requires op.CreateNode?
  {
    && n.attrs.origPath == op.origPath && n.attrs.uid == op.uid && n.attrs.gid == op.gid
    && n.attrs.permMode == op.permMode
    && (n.FileNode? ==> n.size == 0 && n.chunks == []) && (n.DirNode? ==> n.entries == map[])
  }

  /** Creating and linking, with the lock just taken, goes through exactly when it may. */
  lemma CreateAndLink(s: State, s': State, op: Op, link: Op)
    requires op.CreateNode? && link.HardLink? && Locked(s, op.nlock, s')
    requires link.nlock.ticket == NO_TICKET && link.targetID == op.nlock.id
    ensures AppliedAll(s', [op, link]).Ok? <==> MayCreate(s, link.nlock.id, link.name, op.typ)
    ensures AppliedAll(s', [op, link]).Ok? ==>
              && AppliedAll(s', [op, link]).value.nodes.Keys == s.nodes.Keys + {op.nlock.id}
              && EntrySet(s.nodes, AppliedAll(s', [op, link]).value.nodes, link.nlock.id, link.name, op.nlock.id)
              && AppliedAll(s', [op, link]).value.nodes[op.nlock.id].DirNode? == (op.typ == DIR_NODE_T)
              && Kept(s.nodes, AppliedAll(s', [op, link]).value.nodes)
              && IsNew(AppliedAll(s', [op, link]).value.nodes[op.nlock.id], op)
  {
    AppliedTwo(s', op, link);
    var c := Created(s', op, 0);
    if c.Ok? {
      CreatedLaw(s', op, 0);
      LinkedLaw(c.value, link, 0);
      CreatedEntries(s', op, 0);
      if Linked(c.value, link, 0).Ok? { LinkedEntries(c.value, link, 0); }
    }
  }

  /** What is left of a create and link that went through. */
  lemma CreateSeen(was: State, s: State, now: State, op: Op, link: Op)
    requires op.CreateNode? && link.HardLink? && Locked(was, op.nlock, s)
    requires link.nlock.ticket == NO_TICKET && link.targetID == op.nlock.id
    requires AppliedAll(s, [op, link]).Ok? && Same(now, AppliedAll(s, [op, link]).value.(version := now.version))
    ensures now.nodes.Keys == was.nodes.Keys + {op.nlock.id}
    ensures now.nodes[op.nlock.id].DirNode? == (op.typ == DIR_NODE_T)
    ensures EntrySet(was.nodes, now.nodes, link.nlock.id, link.name, op.nlock.id)
    ensures Kept(was.nodes, now.nodes) && IsNew(now.nodes[op.nlock.id], op)
    ensures now.locks == s.locks
  {
    CreateAndLink(was, s, op, link);
    AppliedAllFrame(s, [op, link]);
    var m := AppliedAll(s, [op, link]).value.nodes;
    SameCoreLaw(m, now.nodes);
    SameCoreKept(was.nodes, m, now.nodes);
    assert BroughtBack(m[op.nlock.id], now.nodes[op.nlock.id]);
    forall d, n, x ensures Names(now.nodes, d, n, x) <==> Names(m, d, n, x) {
      SameCoreNames(now.nodes, m, d, n, x);
    }
  }

  /** Creates a file or a directory under a number that no node has, and names it. */
  method CreateNode(db: DB, dir: ID, name: string, origPath: string, typ: int, permMode: nat, uid: nat, gid: nat)
    returns (r: Result<ID>)
    requires Running(db)
    modifies db, db.state, db.txLogIO, db.snapshotIO
    ensures Running(db)
    ensures r.Ok? <==> !db.readOnly && MayCreate(old(db.state.Value()), dir, name, typ) && !old(db.txLogIO.readOnly)
    ensures r.Err? ==> Unchanged(old(db.state.Value()), db.state.Value())
    ensures r.Ok? ==> && r.value !in old(db.state.nodes) && db.state.nodes.Keys == old(db.state.nodes).Keys + {r.value}
                      && db.state.nodes[r.value].DirNode? == (typ == DIR_NODE_T)
                      && EntrySet(old(db.state.nodes), db.state.nodes, dir, name, r.value)
                      && db.state.nodeLocks == old(db.state.nodeLocks)
                      && Kept(old(db.state.nodes), db.state.nodes)
                      && var n := db.state.nodes[r.value];
                         && n.attrs.origPath == origPath && n.attrs.uid == uid && n.attrs.gid == gid
                         && n.attrs.permMode == permMode && (n.FileNode? ==> n.size == 0 && n.chunks == [])
                         && (n.DirNode? ==> n.entries == map[])
  {
    SoundBounded(db.snapshotIO.saved, db.txLogIO.txs, db.state.Value());
    var l := db.LockNode(ALLOCATE_NEW_NODE_ID);
    if l.Err? {
      return Err(l.error);
    }
    r := CreateLocked(db, l.value, dir, name, origPath, typ, permMode, uid, gid, old(db.state.Value()));
    LockUnlock(old(db.state.nodeLocks), l.value);
    var _ := db.UnlockNode(l.value);
  }

  lemma LockUnlock(locks: map<ID, NodeLock>, l: NodeLock)
    requires l.id !in locks
    ensures locks[l.id := l] - {l.id} == locks
  {
  }

  method CreateLocked(db: DB, nlock: NodeLock, dir: ID, name: string, origPath: string, typ: int, permMode: nat,
                      uid: nat, gid: nat, ghost was: State) returns (r: Result<ID>)
    requires Running(db) && !db.readOnly && Locked(was, nlock, db.state.Value())
    modifies db, db.state, db.txLogIO, db.snapshotIO
    ensures Running(db) && (db.state == old(db.state) || fresh(db.state))
    ensures r.Ok? <==> MayCreate(was, dir, name, typ) && !old(db.txLogIO.readOnly)
    ensures r.Err? ==> Unchanged(was, db.state.Value())
    ensures r.Ok? ==> && r.value == nlock.id && db.state.nodes.Keys == was.nodes.Keys + {r.value}
                      && db.state.nodes[r.value].DirNode? == (typ == DIR_NODE_T)
                      && EntrySet(was.nodes, db.state.nodes, dir, name, r.value)
                      && db.state.nodeLocks == old(db.state.nodeLocks)
                      && Kept(was.nodes, db.state.nodes)
                      && IsNew(db.state.nodes[r.value],
                               Op.CreateNode(nlock, origPath, typ, dir, uid, gid, permMode))
  {
    var op := Op.CreateNode(nlock, origPath, typ, dir, uid, gid, permMode);
    var link := HardLink(NodeLock(dir, NO_TICKET), name, nlock.id);
    CreateAndLink(was, db.state.Value(), op, link);
    var t := db.ApplyTransaction(Transaction(ANY_VERSION, [op, link]));
    if t.Done? {
      CreateSeen(was, old(db.state.Value()), db.state.Value(), op, link);
    }
    r := if t.Done? then Ok(nlock.id) else Err(if t.Failed? then t.error else Refused);
  }
}
