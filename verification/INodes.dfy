/**
 * Inodes and the operations a transaction is made of (inodedb/dboperation.go), on values: what one
 * operation makes of a state, what replaying it on a state with fewer locks makes of that, and what it
 * does to the graph the directory entries form.
 */
module INodes {
  import opened Bytes

  type ID = nat
  type Ticket = nat
  type Time = int

  const ROOT_DIR_ID: ID := 1
  const ALLOCATE_NEW_NODE_ID: ID := 0
  const NO_TICKET: Ticket := 0
  const FILE_NODE_T := 0
  const DIR_NODE_T := 1
  const ANY_VERSION := 0

  datatype NodeLock = NodeLock(id: ID, ticket: Ticket)

  datatype Chunk = Chunk(offset: int, length: int, blobPath: string)

  datatype Attrs = Attrs(origPath: string, uid: nat, gid: nat, permMode: nat, modT: Time)

  datatype INode =
    | FileNode(attrs: Attrs, size: int, chunks: seq<Chunk>)
    | DirNode(attrs: Attrs, parent: ID, entries: map<string, ID>)

  datatype Error =
    | ENoEnt | ENotDir | EExist | ENotEmpty | EAccess | LockInvalid | LockTaken | OutOfOrder | Refused

  datatype Result<+T> = Ok(value: T) | Err(error: Error)

  datatype State = State(nodes: map<ID, INode>, lastID: ID, version: nat, lastTicket: Ticket,
                         locks: map<ID, NodeLock>)

  const NEW_STATE := State(map[], 0, 0, 1, map[])

  datatype Op =
    | InitializeFileSystem
    | CreateNode(nlock: NodeLock, origPath: string, typ: int, parentID: ID, uid: nat, gid: nat, permMode: nat)
    | HardLink(nlock: NodeLock, name: string, targetID: ID)
    | UpdateChunks(nlock: NodeLock, chunks: seq<Chunk>)
    | UpdateSize(nlock: NodeLock, size: int)
    | UpdateUid(id: ID, uid: nat)
    | UpdateGid(id: ID, gid: nat)
    | UpdatePermMode(id: ID, permMode: nat)
    | UpdateModifiedT(id: ID, modT: Time)
    | Rename(srcDirID: ID, srcName: string, dstDirID: ID, dstName: string)
    | Remove(nlock: NodeLock, name: string)
    | AlwaysFail

  datatype Transaction = Transaction(txID: nat, ops: seq<Op>)

  // ---------------------------------------------------------------- what one operation does

  function WithAttrs(n: INode, a: Attrs): INode
  {
    match n
    case FileNode(_, size, chunks) => FileNode(a, size, chunks)
    case DirNode(_, parent, entries) => DirNode(a, parent, entries)
  }

  function Touched(n: INode, now: Time): INode { WithAttrs(n, n.attrs.(modT := now)) }

  function CheckLock(s: State, l: NodeLock, requireTicket: bool): Option<Error>
  {
    if requireTicket && l.ticket == NO_TICKET then Some(LockInvalid)
    else if l.id in s.locks && s.locks[l.id] != l then Some(LockTaken)
    else None
  }

  /** A new node may have the number `id`. */
  predicate Free(s: State, id: ID) { id !in s.nodes && id >= s.lastID }

  function AddNewNode(s: State, id: ID, n: INode): Result<State>
  {
    if !Free(s, id) then Err(Refused)
    else Ok(s.(nodes := s.nodes[id := n], lastID := id))
  }

  function Initialized(s: State, now: Time): Result<State>
  {
    if s.nodes != map[] || s.lastID != 0 then Err(Refused)
    else AddNewNode(s, ROOT_DIR_ID, DirNode(Attrs("/", 0, 0, 0x1ff, now), ROOT_DIR_ID, map[]))
  }

  function Created(s: State, op: Op, now: Time): Result<State>
    requires op.CreateNode?
  {
    var a := Attrs(op.origPath, op.uid, op.gid, op.permMode, now);
    if CheckLock(s, op.nlock, true).Some? then Err(CheckLock(s, op.nlock, true).value)
    else if op.typ == FILE_NODE_T then AddNewNode(s, op.nlock.id, FileNode(a, 0, []))
    else if op.typ == DIR_NODE_T then AddNewNode(s, op.nlock.id, DirNode(a, op.parentID, map[]))
    else Err(Refused)
  }

  /** The directory `id`, or why there is none. */
  function Directory(s: State, id: ID): Result<INode>
  {
    if id !in s.nodes then Err(ENoEnt) else if s.nodes[id].FileNode? then Err(ENotDir) else Ok(s.nodes[id])
  }

  function Linked(s: State, op: Op, now: Time): Result<State>
    requires op.HardLink?
  {
    var d, id := Directory(s, op.nlock.id), op.nlock.id;
    if CheckLock(s, op.nlock, false).Some? then Err(CheckLock(s, op.nlock, false).value)
    else if d.Err? then Err(d.error)
    else if op.targetID !in s.nodes then Err(ENoEnt)
    else if op.name in s.nodes[id].entries then Err(EExist)
    else Ok(s.(nodes := Edited(s.nodes, id, s.nodes[id].entries[op.name := op.targetID], now)))
  }

  /** The file a ticket holder may change, or why not. */
  function LockedFile(s: State, l: NodeLock): Result<INode>
  {
    if CheckLock(s, l, true).Some? then Err(CheckLock(s, l, true).value)
    else if l.id !in s.nodes then Err(ENoEnt)
    else if s.nodes[l.id].DirNode? then Err(Refused)
    else Ok(s.nodes[l.id])
  }

  function AnyNode(s: State, id: ID): Result<INode>
  {
    if id !in s.nodes then Err(ENoEnt) else Ok(s.nodes[id])
  }

  /** `s` with node `id` replaced, unless there was an error. */
  function Put(s: State, id: ID, n: Result<INode>): Result<State>
  {
    if n.Err? then Err(n.error) else Ok(s.(nodes := s.nodes[id := n.value]))
  }

  function WithChunks(n: Result<INode>, cs: seq<Chunk>): Result<INode>
  {
    if n.Ok? && n.value.FileNode? then Ok(n.value.(chunks := cs)) else n
  }

  function WithSize(n: Result<INode>, size: int, now: Time): Result<INode>
  {
    if n.Ok? && n.value.FileNode? then Ok(Touched(n.value.(size := size), now)) else n
  }

  function Relabelled(n: Result<INode>, op: Op): Result<INode>
    requires op.UpdateUid? || op.UpdateGid? || op.UpdatePermMode? || op.UpdateModifiedT?
  {
    if n.Err? then n
    else
      var a := n.value.attrs;
      Ok(WithAttrs(n.value,
                   match op
                   case UpdateUid(_, uid) => a.(uid := uid)
                   case UpdateGid(_, gid) => a.(gid := gid)
                   case UpdatePermMode(_, perm) => a.(permMode := perm)
                   case UpdateModifiedT(_, t) => a.(modT := t)))
  }

  /** The nodes with the entries of directory `d` replaced. */
  function Edited(nodes: map<ID, INode>, d: ID, entries: map<string, ID>, now: Time): map<ID, INode>
    requires d in nodes && nodes[d].DirNode?
  {
    nodes[d := Touched(nodes[d].(entries := entries), now)]
  }

  /** The nodes with `p` recorded as the parent of `id`, which only directories record. */
  function Adopted(nodes: map<ID, INode>, id: ID, p: ID): map<ID, INode>
    requires id in nodes
  {
    if nodes[id].DirNode? then nodes[id := nodes[id].(parent := p)] else nodes
  }

  /** The edits of a rename, one after the other: source and destination may be one directory. */
  function Moved(nodes: map<ID, INode>, op: Op, id: ID, now: Time): (m: map<ID, INode>)
    requires op.Rename? && id in nodes
    requires op.srcDirID in nodes && nodes[op.srcDirID].DirNode? && op.dstDirID in nodes && nodes[op.dstDirID].DirNode?
  {
    var m1 := Adopted(nodes, id, op.dstDirID);
    var m2 := Edited(m1, op.srcDirID, m1[op.srcDirID].entries - {op.srcName}, now);
    Edited(m2, op.dstDirID, m2[op.dstDirID].entries[op.dstName := id], now)
  }

  /** A rename carries no ticket, so a lock on either directory stops it. */
  function Renamed(s: State, op: Op, now: Time): Result<State>
    requires op.Rename?
  {
    var c := CheckLock(s, NodeLock(op.srcDirID, NO_TICKET), false);
    var d := CheckLock(s, NodeLock(op.dstDirID, NO_TICKET), false);
    if c.Some? then Err(c.value) else if d.Some? then Err(d.value)
    else if op.srcDirID !in s.nodes || op.dstDirID !in s.nodes then Err(ENoEnt)
    else if s.nodes[op.srcDirID].FileNode? || s.nodes[op.dstDirID].FileNode? then Err(ENotDir)
    else if op.srcName !in s.nodes[op.srcDirID].entries then Err(ENoEnt)
    else if op.srcDirID == op.dstDirID && op.srcName == op.dstName then Ok(s)
    else
      var id := s.nodes[op.srcDirID].entries[op.srcName];
      if id !in s.nodes then Err(Refused) else Ok(s.(nodes := Moved(s.nodes, op, id, now)))
  }

  function Removed(s: State, op: Op, now: Time): Result<State>
    requires op.Remove?
  {
    var d, id := Directory(s, op.nlock.id), op.nlock.id;
    if CheckLock(s, op.nlock, false).Some? then Err(CheckLock(s, op.nlock, false).value)
    else if d.Err? then Err(d.error)
    else if op.name !in s.nodes[id].entries then Err(ENoEnt)
    else
      var t := s.nodes[id].entries[op.name];
      if t in s.nodes && s.nodes[t].DirNode? && s.nodes[t].entries != map[] then Err(ENotEmpty)
      else Ok(s.(nodes := Edited(s.nodes, id, s.nodes[id].entries - {op.name}, now)))
  }

  /** What `op` makes of `s` when the clock says `now`. */
  function Applied(s: State, op: Op, now: Time): Result<State>
  {
    match op
    case InitializeFileSystem => Initialized(s, now)
    case CreateNode(_, _, _, _, _, _, _) => Created(s, op, now)
    case HardLink(_, _, _) => Linked(s, op, now)
    case UpdateChunks(l, cs) => Put(s, l.id, WithChunks(LockedFile(s, l), cs))
    case UpdateSize(l, size) => Put(s, l.id, WithSize(LockedFile(s, l), size, now))
    case UpdateUid(id, _) => Put(s, id, Relabelled(AnyNode(s, id), op))
    case UpdateGid(id, _) => Put(s, id, Relabelled(AnyNode(s, id), op))
    case UpdatePermMode(id, _) => Put(s, id, Relabelled(AnyNode(s, id), op))
    case UpdateModifiedT(id, _) => Put(s, id, Relabelled(AnyNode(s, id), op))
    case Rename(_, _, _, _) => Renamed(s, op, now)
    case Remove(_, _) => Removed(s, op, now)
    case AlwaysFail => Err(Refused)
  }

  // ---------------------------------------------------------------- replay

  /** A node without what a replay does not bring back: the parent and the time of modification. */
  function Core(n: INode): INode
  {
    match n
    case FileNode(a, size, chunks) => FileNode(a.(modT := 0), size, chunks)
    case DirNode(a, _, entries) => DirNode(a.(modT := 0), 0, entries)
  }

  ghost predicate SameCore(a: map<ID, INode>, b: map<ID, INode>)
  {
    a.Keys == b.Keys && forall i {:trigger a[i]} {:trigger b[i]} :: i in a && i in b ==> Core(a[i]) == Core(b[i])
  }

  /** `r` refuses nothing that `s` accepts: the same nodes, but fewer locks and no fewer free numbers. */
  ghost predicate Weaker(r: State, s: State)
  {
    && SameCore(r.nodes, s.nodes)
    && r.version == s.version
    && (forall id {:trigger Free(s, id)} :: Free(s, id) ==> Free(r, id))
    && (forall i {:trigger r.locks[i]} :: i in r.locks ==> i in s.locks && r.locks[i] == s.locks[i])
  }

  lemma WeakerTransitive(a: State, b: State, c: State)
    requires Weaker(a, b) && Weaker(b, c)
    ensures Weaker(a, c)
  {
    forall i | i in a.nodes ensures Core(a.nodes[i]) == Core(c.nodes[i]) {
      assert Core(a.nodes[i]) == Core(b.nodes[i]);
    }
  }

  lemma EditedSame(a: map<ID, INode>, b: map<ID, INode>, d: ID, e: map<string, ID>, t: Time, u: Time)
    requires SameCore(a, b) && d in b && b[d].DirNode?
    ensures d in a && a[d].DirNode? && SameCore(Edited(a, d, e, t), Edited(b, d, e, u))
  {
    assert Core(a[d]) == Core(b[d]);
  }

  /** Changing nodes, without losing any, on both sides. */
  lemma WeakerNodes(r: State, s: State, m: map<ID, INode>, n: map<ID, INode>)
    requires Weaker(r, s) && SameCore(m, n) && s.nodes.Keys <= n.Keys
    ensures Weaker(r.(nodes := m), s.(nodes := n))
  {
    forall id | Free(s.(nodes := n), id) ensures Free(r.(nodes := m), id) {
      assert Free(s, id);
    }
  }

  lemma PutWeaker(r: State, s: State, id: ID, m: INode, n: INode)
    requires Weaker(r, s) && Core(m) == Core(n)
    ensures Weaker(r.(nodes := r.nodes[id := m]), s.(nodes := s.nodes[id := n]))
  {
    WeakerNodes(r, s, r.nodes[id := m], s.nodes[id := n]);
  }

  lemma CheckLockWeaker(r: State, s: State, l: NodeLock, t: bool)
    requires Weaker(r, s) && CheckLock(s, l, t).None?
    ensures CheckLock(r, l, t).None?
  {
  }

  lemma CreatedWeaker(r: State, s: State, op: Op, t: Time, u: Time)
    requires op.CreateNode? && Weaker(r, s) && Created(s, op, u).Ok?
    ensures Created(r, op, t).Ok? && Weaker(Created(r, op, t).value, Created(s, op, u).value)
  {
    CheckLockWeaker(r, s, op.nlock, true);
  }

  lemma LinkedWeaker(r: State, s: State, op: Op, t: Time, u: Time)
    requires op.HardLink? && Weaker(r, s) && Linked(s, op, u).Ok?
    ensures Linked(r, op, t).Ok? && Weaker(Linked(r, op, t).value, Linked(s, op, u).value)
  {
    CheckLockWeaker(r, s, op.nlock, false);
    assert Core(r.nodes[op.nlock.id]) == Core(s.nodes[op.nlock.id]);
    WeakerNodes(r, s, Linked(r, op, t).value.nodes, Linked(s, op, u).value.nodes);
  }

  lemma RemovedWeaker(r: State, s: State, op: Op, t: Time, u: Time)
    requires op.Remove? && Weaker(r, s) && Removed(s, op, u).Ok?
    ensures Removed(r, op, t).Ok? && Weaker(Removed(r, op, t).value, Removed(s, op, u).value)
  {
    CheckLockWeaker(r, s, op.nlock, false);
    assert Core(r.nodes[op.nlock.id]) == Core(s.nodes[op.nlock.id]);
    var x := s.nodes[op.nlock.id].entries[op.name];
    assert x in s.nodes ==> Core(r.nodes[x]) == Core(s.nodes[x]);
    WeakerNodes(r, s, Removed(r, op, t).value.nodes, Removed(s, op, u).value.nodes);
  }

  lemma MovedSame(a: map<ID, INode>, b: map<ID, INode>, op: Op, id: ID, t: Time, u: Time)
    requires op.Rename? && SameCore(a, b) && id in b
    requires op.srcDirID in b && b[op.srcDirID].DirNode? && op.dstDirID in b && b[op.dstDirID].DirNode?
    ensures op.srcDirID in a && a[op.srcDirID].DirNode? && op.dstDirID in a && a[op.dstDirID].DirNode? && id in a
    ensures SameCore(Moved(a, op, id, t), Moved(b, op, id, u))
  {
    var p, q := op.srcDirID, op.dstDirID;
    var a1, b1 := Adopted(a, id, q), Adopted(b, id, q);
    assert Core(a[id]) == Core(b[id]) && SameCore(a1, b1);
    assert Core(a1[p]) == Core(b1[p]);
    EditedSame(a1, b1, p, b1[p].entries - {op.srcName}, t, u);
    var a2, b2 := Edited(a1, p, b1[p].entries - {op.srcName}, t), Edited(b1, p, b1[p].entries - {op.srcName}, u);
    assert Core(a1[q]) == Core(b1[q]);
    assert Core(a2[q]) == Core(b2[q]);
    EditedSame(a2, b2, q, b2[q].entries[op.dstName := id], t, u);
  }

  lemma RenamedWeaker(r: State, s: State, op: Op, t: Time, u: Time)
    requires op.Rename? && Weaker(r, s) && Renamed(s, op, u).Ok?
    ensures Renamed(r, op, t).Ok? && Weaker(Renamed(r, op, t).value, Renamed(s, op, u).value)
  {
    CheckLockWeaker(r, s, NodeLock(op.srcDirID, NO_TICKET), false);
    CheckLockWeaker(r, s, NodeLock(op.dstDirID, NO_TICKET), false);
    assert Core(r.nodes[op.srcDirID]) == Core(s.nodes[op.srcDirID]);
    assert Core(r.nodes[op.dstDirID]) == Core(s.nodes[op.dstDirID]);
    var id := s.nodes[op.srcDirID].entries[op.srcName];
    if id in s.nodes {
      MovedSame(r.nodes, s.nodes, op, id, t, u);
      WeakerNodes(r, s, Moved(r.nodes, op, id, t), Moved(s.nodes, op, id, u));
    }
  }

  /** An operation that goes through on `s` goes through, with the same effect, on any weaker state at any time. */
  lemma AppliedWeaker(r: State, s: State, op: Op, t: Time, u: Time)
    requires Weaker(r, s) && Applied(s, op, u).Ok?
    ensures Applied(r, op, t).Ok? && Weaker(Applied(r, op, t).value, Applied(s, op, u).value)
  {
    match op
    case InitializeFileSystem => assert Free(s, 0) && Free(s, ROOT_DIR_ID);
    case CreateNode(_, _, _, _, _, _, _) => CreatedWeaker(r, s, op, t, u);
    case HardLink(_, _, _) => LinkedWeaker(r, s, op, t, u);
    case Rename(_, _, _, _) => RenamedWeaker(r, s, op, t, u);
    case Remove(_, _) => RemovedWeaker(r, s, op, t, u);
    case UpdateChunks(_, _) => FileWeaker(r, s, op, t, u);
    case UpdateSize(_, _) => FileWeaker(r, s, op, t, u);
    case UpdateUid(id, _) => AttrsWeaker(r, s, id, op, t, u);
    case UpdateGid(id, _) => AttrsWeaker(r, s, id, op, t, u);
    case UpdatePermMode(id, _) => AttrsWeaker(r, s, id, op, t, u);
    case UpdateModifiedT(id, _) => AttrsWeaker(r, s, id, op, t, u);
    case _ =>
  }

  lemma FileWeaker(r: State, s: State, op: Op, t: Time, u: Time)
    requires op.UpdateChunks? || op.UpdateSize?
    requires Weaker(r, s) && Applied(s, op, u).Ok?
    ensures Applied(r, op, t).Ok? && Weaker(Applied(r, op, t).value, Applied(s, op, u).value)
  {
    var id := op.nlock.id;
    CheckLockWeaker(r, s, op.nlock, true);
    assert Core(r.nodes[id]) == Core(s.nodes[id]);
    var m, n := Applied(r, op, t).value.nodes[id], Applied(s, op, u).value.nodes[id];
    PutWeaker(r, s, id, m, n);
  }

  lemma AttrsWeaker(r: State, s: State, id: ID, op: Op, t: Time, u: Time)
    requires op.UpdateUid? || op.UpdateGid? || op.UpdatePermMode? || op.UpdateModifiedT?
    requires id == op.id && Weaker(r, s) && Applied(s, op, u).Ok?
    ensures Applied(r, op, t).Ok? && Weaker(Applied(r, op, t).value, Applied(s, op, u).value)
  {
    assert Core(r.nodes[id]) == Core(s.nodes[id]);
    var m, n := Relabelled(AnyNode(r, id), op).value, Relabelled(AnyNode(s, id), op).value;
    PutWeaker(r, s, id, m, n);
  }

  /** All of a transaction's operations in turn, with the clock readings left out (they stamp 0). */
  function AppliedAll(s: State, ops: seq<Op>): Result<State>
  {
    if ops == [] then Ok(s)
    else
      var t := AppliedAll(s, ops[..|ops| - 1]);
      if t.Err? then t else Applied(t.value, ops[|ops| - 1], 0)
  }

  lemma {:induction false} AppliedAllWeaker(r: State, s: State, ops: seq<Op>)
    requires Weaker(r, s) && AppliedAll(s, ops).Ok?
    ensures AppliedAll(r, ops).Ok? && Weaker(AppliedAll(r, ops).value, AppliedAll(s, ops).value)
  {
    if ops != [] {
      var init := ops[..|ops| - 1];
      AppliedAllWeaker(r, s, init);
      AppliedWeaker(AppliedAll(r, init).value, AppliedAll(s, init).value, ops[|ops| - 1], 0, 0);
    }
  }

  lemma AppliedOne(s: State, op: Op)
    ensures AppliedAll(s, [op]) == Applied(s, op, 0)
  {
    assert [op][..0] == [];
  }

  /** Operations are applied in turn. */
  lemma {:induction false} AppliedAllJoin(s: State, first: seq<Op>, rest: seq<Op>)
    ensures AppliedAll(s, first + rest) ==
            if AppliedAll(s, first).Err? then AppliedAll(s, first) else AppliedAll(AppliedAll(s, first).value, rest)
    decreases |rest|
  {
    if rest == [] {
      assert first + rest == first;
    } else {
      var init := rest[..|rest| - 1];
      AppliedAllJoin(s, first, init);
      assert (first + rest)[..|first + rest| - 1] == first + init;
    }
  }

  /** A failing operation fails the transaction, whatever follows it. */
  lemma {:induction false} FailedPrefix(s: State, ops: seq<Op>, i: nat)
    requires i <= |ops| && AppliedAll(s, ops[..i]).Err?
    ensures AppliedAll(s, ops) == AppliedAll(s, ops[..i])
    decreases |ops|
  {
    if i == |ops| {
      assert ops[..i] == ops;
    } else {
      var init := ops[..|ops| - 1];
      assert init[..i] == ops[..i];
      FailedPrefix(s, init, i);
    }
  }

  /** A transaction against a state: its number must be the next one, or none given. */
  function Committed(s: State, tx: Transaction): Result<State>
  {
    if tx.txID != ANY_VERSION && tx.txID != s.version + 1 then Err(OutOfOrder)
    else
      var t := AppliedAll(s, tx.ops);
      if t.Err? then t else Ok(t.value.(version := s.version + 1))
  }

  lemma WeakerVersion(r: State, s: State, v: nat)
    requires Weaker(r, s)
    ensures Weaker(r.(version := v), s.(version := v))
  {
    forall id | Free(s.(version := v), id) ensures Free(r.(version := v), id) {
      assert Free(s, id);
    }
  }

  lemma CommittedWeaker(r: State, s: State, tx: Transaction)
    requires Weaker(r, s) && Committed(s, tx).Ok?
    ensures Committed(r, tx).Ok? && Weaker(Committed(r, tx).value, Committed(s, tx).value)
  {
    AppliedAllWeaker(r, s, tx.ops);
    WeakerVersion(AppliedAll(r, tx.ops).value, AppliedAll(s, tx.ops).value, s.version + 1);
  }

  function Replayed(s: State, txs: seq<Transaction>): Result<State>
  {
    if txs == [] then Ok(s)
    else
      var t := Replayed(s, txs[..|txs| - 1]);
      if t.Err? then t else Committed(t.value, txs[|txs| - 1])
  }

  /** The logged transactions numbered `minID` and above, in log order. */
  function From(txs: seq<Transaction>, minID: nat): (r: seq<Transaction>)
    ensures forall tx {:trigger tx in r} :: tx in r <==> tx in txs && tx.txID >= minID
  {
    if txs == [] then []
    else
      var r, last := From(txs[..|txs| - 1], minID), txs[|txs| - 1];
      assert forall tx :: tx in txs <==> tx in txs[..|txs| - 1] || tx == last;
      if last.txID >= minID then r + [last] else r
  }

  lemma FromLast(txs: seq<Transaction>, tx: Transaction, minID: nat)
    ensures From(txs + [tx], minID) == if tx.txID >= minID then From(txs, minID) + [tx] else From(txs, minID)
  {
    assert (txs + [tx])[..|txs|] == txs;
  }

  lemma ReplayedMore(s: State, txs: seq<Transaction>, tx: Transaction)
    requires Replayed(s, txs).Ok?
    ensures Replayed(s, txs + [tx]) == Committed(Replayed(s, txs).value, tx)
  {
    assert (txs + [tx])[..|txs|] == txs;
  }

  lemma {:induction false} FromNone(txs: seq<Transaction>, minID: nat)
    requires forall tx :: tx in txs ==> tx.txID < minID
    ensures From(txs, minID) == []
  {
    if txs != [] {
      assert txs[|txs| - 1] in txs;
      FromNone(txs[..|txs| - 1], minID);
    }
  }

  /** What a snapshot keeps of a state: neither parents nor locks nor tickets. */
  function Snapshot(s: State): State
  {
    State(map i | i in s.nodes :: Unparented(s.nodes[i]), s.lastID, s.version, 1, map[])
  }

  function Unparented(n: INode): INode { if n.DirNode? then n.(parent := 0) else n }

  lemma SnapshotWeaker(s: State)
    ensures Weaker(Snapshot(s), s)
  {
  }

  /** No node's number is above `lastID`, so the next one allocated is new. */
  ghost predicate Below(s: State) { forall i {:trigger i in s.nodes} :: i in s.nodes ==> i <= s.lastID }

  /** Nor is a ticket above `lastTicket`. */
  ghost predicate Bounded(s: State)
  {
    && Below(s)
    && (forall i {:trigger s.locks[i]} ::
          i in s.locks ==> s.locks[i].id == i && NO_TICKET < s.locks[i].ticket <= s.lastTicket)
  }

  /** An operation leaves version, locks and tickets alone, never lowers `lastID` and never fails as out of order. */
  lemma AppliedFrame(s: State, op: Op, now: Time)
    ensures Applied(s, op, now).Ok? ==>
              var t := Applied(s, op, now).value;
              t.version == s.version && t.lastTicket == s.lastTicket && t.locks == s.locks && t.lastID >= s.lastID
    ensures Applied(s, op, now).Err? ==> Applied(s, op, now).error != OutOfOrder
    ensures Applied(s, op, now).Ok? && Below(s) ==> Below(Applied(s, op, now).value)
    ensures Applied(s, op, now).Ok? && Bounded(s) ==> Bounded(Applied(s, op, now).value)
  {
  }

  lemma {:induction false} AppliedAllFrame(s: State, ops: seq<Op>)
    ensures AppliedAll(s, ops).Ok? ==>
              var t := AppliedAll(s, ops).value;
              t.version == s.version && t.lastTicket == s.lastTicket && t.locks == s.locks && t.lastID >= s.lastID
    ensures AppliedAll(s, ops).Err? ==> AppliedAll(s, ops).error != OutOfOrder
    ensures AppliedAll(s, ops).Ok? && Below(s) ==> Below(AppliedAll(s, ops).value)
    ensures AppliedAll(s, ops).Ok? && Bounded(s) ==> Bounded(AppliedAll(s, ops).value)
  {
    if ops != [] {
      var init := ops[..|ops| - 1];
      AppliedAllFrame(s, init);
      if AppliedAll(s, init).Ok? { AppliedFrame(AppliedAll(s, init).value, ops[|ops| - 1], 0); }
    }
  }

  /** Once a replay has failed it has failed. */
  lemma {:induction false} ReplayedPrefix(s: State, txs: seq<Transaction>, i: nat)
    requires i <= |txs| && Replayed(s, txs[..i]).Err?
    ensures Replayed(s, txs) == Replayed(s, txs[..i])
    decreases |txs|
  {
    if i == |txs| {
      assert txs[..i] == txs;
    } else {
      var init := txs[..|txs| - 1];
      assert init[..i] == txs[..i];
      ReplayedPrefix(s, init, i);
    }
  }

  /** States no operation can tell apart, but for clock readings and parents. */
  ghost predicate Same(a: State, b: State) { Weaker(a, b) && Weaker(b, a) && a.lastID == b.lastID }

  /** The last number an operation leaves depends on the operation alone, or is that before. */
  lemma AppliedLastID(s: State, op: Op, now: Time)
    requires Applied(s, op, now).Ok?
    ensures Applied(s, op, now).value.lastID ==
            if op.CreateNode? then op.nlock.id else if op.InitializeFileSystem? then ROOT_DIR_ID else s.lastID
  {
  }

  /** A smaller last number stays no larger. */
  lemma {:induction false} AppliedAllLastID(r: State, s: State, ops: seq<Op>)
    requires AppliedAll(r, ops).Ok? && AppliedAll(s, ops).Ok?
    ensures r.lastID <= s.lastID ==> AppliedAll(r, ops).value.lastID <= AppliedAll(s, ops).value.lastID
    ensures r.lastID == s.lastID ==> AppliedAll(r, ops).value.lastID == AppliedAll(s, ops).value.lastID
  {
    if ops != [] {
      var init := ops[..|ops| - 1];
      AppliedAllLastID(r, s, init);
      AppliedLastID(AppliedAll(r, init).value, ops[|ops| - 1], 0);
      AppliedLastID(AppliedAll(s, init).value, ops[|ops| - 1], 0);
    }
  }

  lemma SameApplied(a: State, b: State, op: Op, t: Time, u: Time)
    requires Same(a, b)
    ensures Applied(a, op, t).Ok? <==> Applied(b, op, u).Ok?
    ensures Applied(a, op, t).Ok? ==> Same(Applied(a, op, t).value, Applied(b, op, u).value)
  {
    if Applied(a, op, t).Ok? { AppliedWeaker(b, a, op, u, t); }
    if Applied(b, op, u).Ok? { AppliedWeaker(a, b, op, t, u); }
    if Applied(a, op, t).Ok? {
      AppliedLastID(a, op, t);
      AppliedLastID(b, op, u);
    }
  }

  lemma SameCores(a: State, b: State, i: ID)
    requires Same(a, b) && i in a.nodes
    ensures i in b.nodes && a.nodes[i].FileNode? == b.nodes[i].FileNode?
    ensures a.nodes[i].DirNode? ==> a.nodes[i].entries == b.nodes[i].entries
  {
    assert Core(a.nodes[i]) == Core(b.nodes[i]);
  }

  /** The same entries, kinds and locks. */
  ghost predicate Alike(a: State, b: State)
  {
    && a.locks == b.locks && a.lastID == b.lastID && a.nodes.Keys == b.nodes.Keys
    && (forall i {:trigger a.nodes[i]} {:trigger b.nodes[i]} :: i in a.nodes && i in b.nodes ==>
          && a.nodes[i].FileNode? == b.nodes[i].FileNode?
          && (a.nodes[i].DirNode? ==> a.nodes[i].entries == b.nodes[i].entries))
  }

  lemma SameAlike(a: State, b: State)
    requires Same(a, b)
    ensures Alike(a, b)
  {
    forall i | i in a.nodes
      ensures i in b.nodes && a.nodes[i].FileNode? == b.nodes[i].FileNode?
      ensures a.nodes[i].DirNode? ==> a.nodes[i].entries == b.nodes[i].entries
    {
      SameCores(a, b, i);
    }
  }

  /** The same error, whatever the clock says. */
  ghost predicate SameError(r: Result<State>, q: Result<State>) { r.Err? ==> q.Err? && q.error == r.error }

  lemma AlikeEntries(a: State, b: State, op: Op, t: Time, u: Time)
    requires Alike(a, b) && (op.HardLink? || op.Remove? || op.Rename?)
    ensures SameError(Applied(a, op, t), Applied(b, op, u))
  {
  }

  lemma AlikeOther(a: State, b: State, op: Op, t: Time, u: Time)
    requires Alike(a, b) && !op.HardLink? && !op.Remove? && !op.Rename?
    ensures SameError(Applied(a, op, t), Applied(b, op, u))
  {
  }

  lemma SameRefused(a: State, b: State, op: Op, t: Time, u: Time)
    requires Same(a, b)
    ensures SameError(Applied(a, op, t), Applied(b, op, u))
  {
    SameAlike(a, b);
    if op.HardLink? || op.Remove? || op.Rename? {
      AlikeEntries(a, b, op, t, u);
    } else {
      AlikeOther(a, b, op, t, u);
    }
  }

  lemma SameCommitted(a: State, b: State, tx: Transaction)
    requires Same(a, b)
    ensures Committed(a, tx).Ok? <==> Committed(b, tx).Ok?
    ensures Committed(a, tx).Ok? ==> Same(Committed(a, tx).value, Committed(b, tx).value)
  {
    if Committed(a, tx).Ok? { CommittedWeaker(b, a, tx); }
    if Committed(b, tx).Ok? { CommittedWeaker(a, b, tx); }
    if Committed(a, tx).Ok? { AppliedAllLastID(a, b, tx.ops); }
  }
}
