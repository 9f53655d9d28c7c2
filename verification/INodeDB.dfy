/**
 * The inode database (inodedb/inodedb.go): transactions change the state in place; one that fails is
 * undone by loading the last snapshot and replaying the log. The transaction log is the one of
 * inodedb/simpledbtransactionlogio.go. A panic ends the run.
 */
module INodeDB {
  import opened Bytes
  import opened INodes
  import opened INodeGraph
  import opened INodeLaws
  import W = FsckWalk

  class DBState {
    var nodes: map<ID, INode>
    var lastID: ID
    var version: nat
    var lastTicket: Ticket
    var nodeLocks: map<ID, NodeLock>

    ghost function Value(): State
      reads this
    {
      State(nodes, lastID, version, lastTicket, nodeLocks)
    }

    constructor ()
      ensures Value() == NEW_STATE
    {
      nodes, lastID, version, lastTicket, nodeLocks := map[], 0, 0, 1, map[];
    }

    constructor Restore(s: State)
      ensures Value() == s
    {
      nodes, lastID, version, lastTicket, nodeLocks := s.nodes, s.lastID, s.version, s.lastTicket, s.locks;
    }

    method AddNewNode(id: ID, n: INode) returns (err: Option<Error>)
      modifies this
      ensures Outcome(old(Value()), INodes.AddNewNode(old(Value()), id, n), Value(), err)
    {
      if id in nodes {
        return Some(Refused);
      }
      if id < lastID {
        return Some(Refused);
      }
      nodes := nodes[id := n];
      lastID := id;
      return None;
    }

    method CheckLock(l: NodeLock, requireTicket: bool) returns (err: Option<Error>)
      ensures err == INodes.CheckLock(Value(), l, requireTicket)
    {
      if requireTicket && l.ticket == NO_TICKET {
        return Some(LockInvalid);
      }
      if l.id in nodeLocks && l != nodeLocks[l.id] {
        return Some(LockTaken);
      }
      return None;
    }

    method ApplyInitialize(now: Time) returns (err: Option<Error>)
      modifies this
      ensures Outcome(old(Value()), Initialized(old(Value()), now), Value(), err)
    {
      if |nodes| != 0 {
        return Some(Refused);
      }
      if lastID != 0 {
        return Some(Refused);
      }
      err := AddNewNode(ROOT_DIR_ID, DirNode(Attrs("/", 0, 0, 0x1ff, now), ROOT_DIR_ID, map[]));
      if err.Some? {
        return;
      }
      lastID := 1;
    }

    method ApplyCreateNode(op: Op, now: Time) returns (err: Option<Error>)
      requires op.CreateNode?
      modifies this
      ensures Outcome(old(Value()), Created(old(Value()), op, now), Value(), err)
    {
      err := CheckLock(op.nlock, true);
      if err.Some? {
        return;
      }
      var a := Attrs(op.origPath, op.uid, op.gid, op.permMode, now);
      if op.typ == FILE_NODE_T {
        err := AddNewNode(op.nlock.id, FileNode(a, 0, []));
      } else if op.typ == DIR_NODE_T {
        err := AddNewNode(op.nlock.id, DirNode(a, op.parentID, map[]));
      } else {
        err := Some(Refused);
      }
    }

    method ApplyHardLink(op: Op, now: Time) returns (err: Option<Error>)
      requires op.HardLink?
      modifies this
      ensures Outcome(old(Value()), Linked(old(Value()), op, now), Value(), err)
    {
      err := CheckLock(op.nlock, false);
      if err.Some? {
        return;
      }
      if op.nlock.id !in nodes {
        return Some(ENoEnt);
      }
      if !nodes[op.nlock.id].DirNode? {
        return Some(ENotDir);
      }
      if op.targetID !in nodes {
        return Some(ENoEnt);
      }
      var dn := nodes[op.nlock.id];
      if op.name in dn.entries {
        return Some(EExist);
      }
      nodes := nodes[op.nlock.id := Touched(dn.(entries := dn.entries[op.name := op.targetID]), now)];
      return None;
    }

    method ApplyUpdateFile(op: Op, now: Time) returns (err: Option<Error>)
      requires op.UpdateChunks? || op.UpdateSize?
      modifies this
      ensures Outcome(old(Value()), Applied(old(Value()), op, now), Value(), err)
    {
      err := CheckLock(op.nlock, true);
      if err.Some? {
        return;
      }
      if op.nlock.id !in nodes {
        return Some(ENoEnt);
      }
      var fn := nodes[op.nlock.id];
      if !fn.FileNode? {
        return Some(Refused);
      }
      if op.UpdateChunks? {
        fn := fn.(chunks := op.chunks);
      } else {
        fn := fn.(size := op.size, attrs := fn.attrs.(modT := now));
      }
      nodes := nodes[op.nlock.id := fn];
      return None;
    }

    method ApplyUpdateAttrs(op: Op, now: Time) returns (err: Option<Error>)
      requires op.UpdateUid? || op.UpdateGid? || op.UpdatePermMode? || op.UpdateModifiedT?
      modifies this
      ensures Outcome(old(Value()), Applied(old(Value()), op, now), Value(), err)
    {
      if op.id !in nodes {
        return Some(ENoEnt);
      }
      var a := nodes[op.id].attrs;
      match op {
        case UpdateUid(_, uid) => a := a.(uid := uid);
        case UpdateGid(_, gid) => a := a.(gid := gid);
        case UpdatePermMode(_, perm) => a := a.(permMode := perm);
        case UpdateModifiedT(_, t) => a := a.(modT := t);
      }
      nodes := nodes[op.id := WithAttrs(nodes[op.id], a)];
      return None;
    }

    /** Whether a rename may go ahead, and what it moves. */
    method RenameTarget(op: Op) returns (r: Result<ID>)
      requires op.Rename?
      ensures r.Err? ==> Renamed(Value(), op, 0) == Err(r.error)
      ensures r.Ok? ==> INodes.CheckLock(Value(), NodeLock(op.srcDirID, NO_TICKET), false).None?
      ensures r.Ok? ==> INodes.CheckLock(Value(), NodeLock(op.dstDirID, NO_TICKET), false).None?
      ensures r.Ok? ==> && Names(nodes, op.srcDirID, op.srcName, r.value)
                        && op.dstDirID in nodes && nodes[op.dstDirID].DirNode?
    {
      var err := CheckLock(NodeLock(op.srcDirID, NO_TICKET), false);
      if err.Some? {
        return Err(err.value);
      }
      err := CheckLock(NodeLock(op.dstDirID, NO_TICKET), false);
      if err.Some? {
        return Err(err.value);
      }
      if op.srcDirID !in nodes {
        return Err(ENoEnt);
      }
      if op.dstDirID !in nodes {
        return Err(ENoEnt);
      }
      if !nodes[op.srcDirID].DirNode? {
        return Err(ENotDir);
      }
      if !nodes[op.dstDirID].DirNode? {
        return Err(ENotDir);
      }
      if op.srcName !in nodes[op.srcDirID].entries {
        return Err(ENoEnt);
      }
      return Ok(nodes[op.srcDirID].entries[op.srcName]);
    }

    method ApplyRename(op: Op, now: Time) returns (err: Option<Error>)
      requires op.Rename?
      modifies this
      ensures Outcome(old(Value()), Renamed(old(Value()), op, now), Value(), err)
    {
      var r := RenameTarget(op);
      if r.Err? {
        return Some(r.error);
      }
      var id := r.value;
      if op.srcDirID == op.dstDirID && op.srcName == op.dstName {
        return None;
      }
      if id !in nodes {
        return Some(Refused);
      }
      if nodes[id].DirNode? {
        nodes := nodes[id := nodes[id].(parent := op.dstDirID)];
      }
      var srcdn := nodes[op.srcDirID];
      nodes := nodes[op.srcDirID := Touched(srcdn.(entries := srcdn.entries - {op.srcName}), now)];
      var dstdn := nodes[op.dstDirID];
      nodes := nodes[op.dstDirID := Touched(dstdn.(entries := dstdn.entries[op.dstName := id]), now)];
      return None;
    }

    method ApplyRemove(op: Op, now: Time) returns (err: Option<Error>)
      requires op.Remove?
      modifies this
      ensures Outcome(old(Value()), Removed(old(Value()), op, now), Value(), err)
    {
      err := CheckLock(op.nlock, false);
      if err.Some? {
        return;
      }
      if op.nlock.id !in nodes {
        return Some(ENoEnt);
      }
      var dn := nodes[op.nlock.id];
      if !dn.DirNode? {
        return Some(ENotDir);
      }
      if op.name !in dn.entries {
        return Some(ENoEnt);
      }
      var tgtid := dn.entries[op.name];
      if tgtid in nodes && nodes[tgtid].DirNode? && |nodes[tgtid].entries| != 0 {
        return Some(ENotEmpty);
      }
      nodes := nodes[op.nlock.id := Touched(dn.(entries := dn.entries - {op.name}), now)];
      return None;
    }

    /** An operation either goes through completely or changes nothing. */
    method Apply(op: Op, now: Time) returns (err: Option<Error>)
      modifies this
      ensures Outcome(old(Value()), Applied(old(Value()), op, now), Value(), err)
    {
      match op {
        case InitializeFileSystem => err := ApplyInitialize(now);
        case CreateNode(_, _, _, _, _, _, _) => err := ApplyCreateNode(op, now);
        case HardLink(_, _, _) => err := ApplyHardLink(op, now);
        case UpdateChunks(_, _) => err := ApplyUpdateFile(op, now);
        case UpdateSize(_, _) => err := ApplyUpdateFile(op, now);
        case Rename(_, _, _, _) => err := ApplyRename(op, now);
        case Remove(_, _) => err := ApplyRemove(op, now);
        case AlwaysFail => err := Some(Refused);
        case _ => err := ApplyUpdateAttrs(op, now);
      }
    }

    /** The operations of a transaction in turn, until one fails. */
    method ApplyAll(ops: seq<Op>) returns (err: Option<Error>)
      modifies this
      ensures err.Some? <==> AppliedAll(old(Value()), ops).Err?
      ensures err.Some? ==> AppliedAll(old(Value()), ops) == Err(err.value)
      ensures err.None? ==> Same(Value(), AppliedAll(old(Value()), ops).value) && lastTicket == old(lastTicket)
      ensures err.None? && Bounded(old(Value())) ==> Bounded(Value())
      ensures version == old(version)
    {
      ghost var was := Value();
      for i := 0 to |ops|
        invariant AppliedAll(was, ops[..i]).Ok? && Same(Value(), AppliedAll(was, ops[..i]).value)
        invariant version == was.version && lastTicket == was.lastTicket && (Bounded(was) ==> Bounded(Value()))
      {
        var now: Time := *;
        ghost var here := Value();
        err := Apply(ops[i], now);
        assert ops[..i + 1][..i] == ops[..i];
        SameApplied(here, AppliedAll(was, ops[..i]).value, ops[i], now, 0);
        AppliedFrame(here, ops[i], now);
        if err.Some? {
          SameRefused(here, AppliedAll(was, ops[..i]).value, ops[i], now, 0);
          FailedPrefix(was, ops, i + 1);
          return;
        }
      }
      assert ops[..|ops|] == ops;
      err := None;
    }
  }

  class SimpleDBTransactionLogIO {
    var readOnly: bool
    var txs: seq<Transaction>

    constructor ()
      ensures !readOnly && txs == []
    {
      readOnly, txs := false, [];
    }

    method AppendTransaction(tx: Transaction) returns (ok: bool)
      modifies this`txs
      ensures ok == !readOnly && txs == if ok then old(txs) + [tx] else old(txs)
    {
      if readOnly {
        return false;
      }
      txs := txs + [tx];
      return true;
    }

    method QueryTransactions(minID: nat) returns (r: seq<Transaction>)
      ensures r == From(txs, minID)
    {
      r := [];
      for i := 0 to |txs|
        invariant r == From(txs[..i], minID)
      {
        assert txs[..i + 1][..i] == txs[..i];
        if txs[i].txID >= minID {
          r := r + [txs[i]];
        }
      }
      assert txs[..|txs|] == txs;
    }
  }

  /** Keeps the last snapshot saved, and does not save a version again that it knows to be saved. */
  class DBStateSnapshotIO {
    var saved: Option<State>
    var snapshotVer: int

    ghost predicate Knows()
      reads this
    {
      snapshotVer >= 0 ==> saved.Some? && saved.value.version == snapshotVer
    }

    constructor ()
      ensures saved.None? && Knows()
    {
      saved, snapshotVer := None, -1;
    }

    /** The blob store or the locator may fail; then the snapshot kept is the one before. */
    method SaveSnapshot(s: DBState) returns (ok: bool)
      requires Knows()
      modifies this
      ensures Knows()
      ensures ok ==> || saved == Some(Snapshot(s.Value()))
                     || (saved == old(saved) && saved.Some? && saved.value.version == s.version)
      ensures !ok ==> saved == old(saved) && snapshotVer == old(snapshotVer) != s.version
    {
      var currVer := s.version;
      if snapshotVer == currVer {
        return true;
      }
      if * {
        return false;
      }
      ok := true;
      saved := Some(Snapshot(State(s.nodes, s.lastID, s.version, s.lastTicket, s.nodeLocks)));
      snapshotVer := currVer;
    }

    method RestoreSnapshot() returns (s: DBState?)
      modifies this`snapshotVer
      ensures old(Knows()) || s != null ==> Knows()
      ensures s == null <==> saved.None?
      ensures s != null ==> fresh(s) && s.Value() == saved.value
      ensures s == null ==> snapshotVer == old(snapshotVer)
    {
      if saved.None? {
        return null;
      }
      s := new DBState.Restore(saved.value);
      snapshotVer := saved.value.version;
    }
  }

  datatype TxResult = Done(id: nat) | Failed(error: Error) | Panicked

  /** Why a transaction fails: its number, an operation of it, or else the log. */
  function Reason(s: State, tx: Transaction): Error
  {
    if !Next(tx, s.version) then OutOfOrder
    else if AppliedAll(s, tx.ops).Err? then AppliedAll(s, tx.ops).error
    else EAccess
  }

  /** The number of `tx` is acceptable at version `v`. */
  predicate Next(tx: Transaction, v: nat) { tx.txID == ANY_VERSION || tx.txID == v + 1 }

  /** `now` is `was` undone: the same nodes at the same version. Locks and tickets are forgotten. */
  ghost predicate Undone(was: State, now: State)
  {
    && SameCore(was.nodes, now.nodes) && now.version == was.version && now.lastID <= was.lastID
    && now.locks == map[] && now.lastTicket == 1
  }

  ghost predicate IsReplay(ss: State, txs: seq<Transaction>, r: Result<State>)
  {
    forall z {:trigger Unfolded(z)} :: Unfolded(z) ==> r == Replayed(ss, From(txs, ss.version + 1))
  }

  /** What a snapshot and the log after it amount to; carried folded, `ReplayIs` unfolds it. */
  ghost function ReplayOf(ss: State, txs: seq<Transaction>): (r: Result<State>)
    ensures IsReplay(ss, txs, r)
  {
    assert IsReplay(ss, txs, Replayed(ss, From(txs, ss.version + 1)));
    var r :| IsReplay(ss, txs, r);
    r
  }

  lemma ReplayIs(ss: State, txs: seq<Transaction>)
    ensures ReplayOf(ss, txs) == Replayed(ss, From(txs, ss.version + 1))
  {
    assert Unfolded(0);
  }

  /** A snapshot newer than the log amounts to itself. */
  lemma ReplayNone(ss: State, txs: seq<Transaction>)
    requires forall tx {:trigger tx in txs} :: tx in txs ==> tx.txID <= ss.version
    ensures ReplayOf(ss, txs) == Ok(ss)
  {
    ReplayIs(ss, txs);
    FromNone(txs, ss.version + 1);
  }

  /**
   * The log replays, from the last snapshot, to the nodes and the version at hand; and nothing that the
   * state at hand accepts is refused by the state replayed.
   */
  ghost predicate Recoverable(ss: State, txs: seq<Transaction>, s: State)
  {
    && ss.version <= s.version && ss.lastTicket == 1
    && ReplayOf(ss, txs).Ok? && Weaker(ReplayOf(ss, txs).value, s)
    && ReplayOf(ss, txs).value.lastID <= s.lastID
    && ReplayOf(ss, txs).value.locks == map[] && Bounded(ReplayOf(ss, txs).value)
  }

  ghost predicate Consistent(saved: Option<State>, txs: seq<Transaction>, s: State)
  {
    && Bounded(s)
    && (forall tx :: tx in txs ==> tx.txID <= s.version)
    && (saved.Some? ==> Recoverable(saved.value, txs, s))
  }

  /** `Consistent`, carried folded: mentioning `Unfolded` unfolds it. */
  ghost predicate Sound(saved: Option<State>, txs: seq<Transaction>, s: State)
  {
    forall z {:trigger Unfolded(z)} :: Unfolded(z) ==> Consistent(saved, txs, s)
  }

  /** Logging one more transaction adds it to the replay. */
  lemma ReplayMore(ss: State, txs: seq<Transaction>, tx: Transaction)
    requires ReplayOf(ss, txs).Ok? && tx.txID > ss.version
    ensures ReplayOf(ss, txs + [tx]) == Committed(ReplayOf(ss, txs).value, tx)
  {
    ReplayIs(ss, txs);
    ReplayIs(ss, txs + [tx]);
    FromLast(txs, tx, ss.version + 1);
    ReplayedMore(ss, From(txs, ss.version + 1), tx);
  }

  /** A replay that refuses nothing the state accepts takes a transaction the state took. */
  lemma ForwardLogged(ss: State, txs: seq<Transaction>, s: State, tx: Transaction, now: State)
    requires ss.version <= s.version && ReplayOf(ss, txs).Ok? && Weaker(ReplayOf(ss, txs).value, s)
    requires Next(tx, s.version) && AppliedAll(s, tx.ops).Ok? && Same(now, Committed(s, tx).value)
    ensures var logged := Transaction(s.version + 1, tx.ops);
            && ReplayOf(ss, txs + [logged]) == Committed(ReplayOf(ss, txs).value, logged)
            && ReplayOf(ss, txs + [logged]).Ok? && Weaker(ReplayOf(ss, txs + [logged]).value, now)
            && ReplayOf(ss, txs + [logged]).value.locks == ReplayOf(ss, txs).value.locks
            && (ReplayOf(ss, txs).value.lastID <= s.lastID ==> ReplayOf(ss, txs + [logged]).value.lastID <= now.lastID)
            && (Below(ReplayOf(ss, txs).value) ==> Below(ReplayOf(ss, txs + [logged]).value))
            && (Bounded(ReplayOf(ss, txs).value) ==> Bounded(ReplayOf(ss, txs + [logged]).value))
  {
    var logged := Transaction(s.version + 1, tx.ops);
    var r := ReplayOf(ss, txs).value;
    ReplayMore(ss, txs, logged);
    CommittedWeaker(r, s, logged);
    AppliedAllFrame(r, tx.ops);
    AppliedAllLastID(r, s, tx.ops);
    WeakerTransitive(Committed(r, logged).value, Committed(s, tx).value, now);
  }

  /** Logging a transaction that went through keeps the log replayable. */
  lemma RecoverableLogged(ss: State, txs: seq<Transaction>, s: State, tx: Transaction, now: State)
    requires Recoverable(ss, txs, s) && Next(tx, s.version) && AppliedAll(s, tx.ops).Ok?
    requires Same(now, Committed(s, tx).value)
    ensures Recoverable(ss, txs + [Transaction(s.version + 1, tx.ops)], now)
  {
    ForwardLogged(ss, txs, s, tx, now);
  }

  lemma SoundLogged(saved: Option<State>, txs: seq<Transaction>, s: State, tx: Transaction, now: State)
    requires Sound(saved, txs, s) && Next(tx, s.version) && AppliedAll(s, tx.ops).Ok?
    requires Same(now, Committed(s, tx).value) && (Bounded(s) ==> Bounded(now))
    ensures Sound(saved, txs + [Transaction(s.version + 1, tx.ops)], now)
  {
    assert Unfolded(0);
    if saved.Some? { RecoverableLogged(saved.value, txs, s, tx, now); }
  }

  /** Replaying brings back the nodes and the version. */
  lemma SoundUndone(ss: State, txs: seq<Transaction>, s: State, now: State)
    requires Sound(Some(ss), txs, s) && now.lastTicket == 1
    requires ReplayOf(ss, txs).Ok? && Same(now, ReplayOf(ss, txs).value)
    ensures Sound(Some(ss), txs, now) && Undone(s, now)
  {
    assert Unfolded(0);
    var r := ReplayOf(ss, txs).value;
    WeakerTransitive(now, r, s);
    assert now.locks == map[];
  }

  lemma SoundBounded(saved: Option<State>, txs: seq<Transaction>, s: State)
    requires Sound(saved, txs, s)
    ensures Bounded(s) && forall tx {:trigger tx in txs} :: tx in txs ==> tx.txID <= s.version
  {
    assert Unfolded(0);
  }

  /** A snapshot of the state at hand makes the log so far unnecessary. */
  lemma SoundSaved(saved: Option<State>, txs: seq<Transaction>, s: State)
    requires Sound(saved, txs, s)
    ensures Sound(Some(Snapshot(s)), txs, s)
  {
    assert Unfolded(0);
    ReplayNone(Snapshot(s), txs);
    SnapshotWeaker(s);
  }

  /** How loading a snapshot and replaying the log ends, if it ends within a number of nested attempts. */
  datatype Restoring = Restored(s: State) | NotRestored | Broken | Unfinished

  /** Replays from transaction `i` on. A failing operation starts over, one attempt deeper. */
  ghost function ReplayWithin(ss: State, txlog: seq<Transaction>, i: nat, here: State, depth: nat): Restoring
    requires i <= |txlog| && depth > 0
    decreases depth, |txlog| - i
  {
    if i == |txlog| then Restored(here)
    else if !Next(txlog[i], here.version) then NotRestored
    else
      var t := AppliedAll(here, txlog[i].ops);
      if t.Ok? then ReplayWithin(ss, txlog, i + 1, t.value.(version := here.version + 1), depth)
      else
        match RestoreWithin(ss, txlog, here.version, depth - 1)
        case Unfinished => Unfinished
        case Restored(_) => NotRestored
        case _ => Broken
  }

  ghost function RestoreWithin(ss: State, txlog: seq<Transaction>, version: nat, depth: nat): Restoring
    decreases depth, |txlog| + 1
  {
    if depth == 0 then Unfinished
    else if ss.version > version then NotRestored
    else ReplayWithin(ss, txlog, 0, ss, depth)
  }

  /** No operation fails in the replay. */
  ghost predicate Ends(r: Result<State>)
  {
    r.Err? ==> r.error == OutOfOrder
  }

  ghost function Outcomes(r: Result<State>): Restoring
  {
    if r.Ok? then Restored(r.value) else if r.error == OutOfOrder then NotRestored else Unfinished
  }

  lemma ReplaysNext(ss: State, txlog: seq<Transaction>, i: nat, here: State)
    requires i < |txlog| && Replayed(ss, txlog[..i]) == Ok(here)
    ensures Replayed(ss, txlog[..i + 1]) == Committed(here, txlog[i])
    ensures Committed(here, txlog[i]).Err? ==> Replayed(ss, txlog) == Committed(here, txlog[i])
  {
    assert txlog[..i + 1] == txlog[..i] + [txlog[i]];
    ReplayedMore(ss, txlog[..i], txlog[i]);
    if Committed(here, txlog[i]).Err? { ReplayedPrefix(ss, txlog, i + 1); }
  }

  lemma {:induction false} ReplaysWithin(ss: State, txlog: seq<Transaction>, i: nat, here: State, depth: nat)
    requires i <= |txlog| && depth > 0 && Replayed(ss, txlog[..i]) == Ok(here) && ss.version <= here.version
    ensures ReplayWithin(ss, txlog, i, here, depth) == Outcomes(Replayed(ss, txlog))
    decreases depth, |txlog| - i
  {
    if i == |txlog| {
      assert txlog[..i] == txlog;
    } else {
      ReplaysNext(ss, txlog, i, here);
      CommittedKinds(here, txlog[i]);
      if Committed(here, txlog[i]).Ok? {
        ReplaysWithin(ss, txlog, i + 1, Committed(here, txlog[i]).value, depth);
      } else if Next(txlog[i], here.version) && depth > 1 {
        assert txlog[..0] == [];
        ReplaysWithin(ss, txlog, 0, ss, depth - 1);
      }
    }
  }

  /**
   * Restoring ends exactly when the snapshot is too new or no operation fails in the replay, and then
   * without starting over: a failing operation starts over without end.
   */
  lemma RestoreEnds(ss: State, txlog: seq<Transaction>, version: nat, depth: nat)
    requires depth > 0
    ensures RestoreWithin(ss, txlog, version, depth)
            == if ss.version > version then NotRestored else Outcomes(Replayed(ss, txlog))
    ensures RestoreWithin(ss, txlog, version, depth).Unfinished? <==>
              ss.version <= version && !Ends(Replayed(ss, txlog))
  {
    assert txlog[..0] == [];
    if ss.version <= version { ReplaysWithin(ss, txlog, 0, ss, depth); }
  }

  class DB {
    var state: DBState
    const snapshotIO: DBStateSnapshotIO
    const txLogIO: SimpleDBTransactionLogIO
    const readOnly: bool

    /** What the last snapshot and the log after it amount to. */
    ghost function Replay(): Result<State>
      requires snapshotIO.saved.Some?
      reads snapshotIO, txLogIO
    {
      ReplayOf(snapshotIO.saved.value, txLogIO.txs)
    }

    ghost predicate Valid()
      reads this, state, snapshotIO, txLogIO
    {
      snapshotIO.Knows() && Sound(snapshotIO.saved, txLogIO.txs, state.Value())
    }

    constructor (snapshotIO: DBStateSnapshotIO, txLogIO: SimpleDBTransactionLogIO, readOnly: bool)
      ensures this.snapshotIO == snapshotIO && this.txLogIO == txLogIO && this.readOnly == readOnly
      ensures fresh(state) && state.Value() == NEW_STATE
    {
      this.snapshotIO, this.txLogIO, this.readOnly := snapshotIO, txLogIO, readOnly;
      state := new DBState();
    }

    /**
     * Loads the snapshot and replays the log. The `version` asked for only bounds the snapshot's: the
     * whole log is replayed, and a snapshot that is too new is left in place.
     */
    method RestoreVersion(version: nat) returns (err: Option<Error>)
      requires snapshotIO.saved.Some? ==> Ends(Replay())
      requires snapshotIO.Knows()
      modifies this`state, snapshotIO`snapshotVer
      ensures snapshotIO.Knows()
      ensures snapshotIO.saved.None? ==> err.Some? && state == old(state)
      ensures snapshotIO.saved.Some? && snapshotIO.saved.value.version > version ==>
                err.Some? && fresh(state) && state.Value() == snapshotIO.saved.value
      ensures snapshotIO.saved.Some? && snapshotIO.saved.value.version <= version && Replay().Err? ==>
                err.Some? && state == old(state)
      ensures snapshotIO.saved.Some? && snapshotIO.saved.value.version <= version && Replay().Ok? ==>
                && err.None? && fresh(state) && Same(state.Value(), Replay().value)
                && state.lastTicket == snapshotIO.saved.value.lastTicket
      decreases 1, 1
    {
      var loaded := snapshotIO.RestoreSnapshot();
      if loaded == null {
        return Some(Refused);
      }
      var oldState := state;
      state := loaded;
      var ssver := loaded.version;
      if ssver > version {
        return Some(Refused);
      }
      var txlog := txLogIO.QueryTransactions(ssver + 1);
      ReplayIs(snapshotIO.saved.value, txLogIO.txs);
      var ok := ReplayLog(txlog, snapshotIO.saved.value);
      if !ok {
        state := oldState;
        return Some(Refused);
      }
      err := None;
    }

    /** Applies the logged transactions to the snapshot `ss` just loaded, until one does not fit. */
    method ReplayLog(txlog: seq<Transaction>, ghost ss: State) returns (ok: bool)
      requires state.Value() == ss
      requires Ends(Replayed(ss, txlog))
      modifies state
      ensures ok <==> Replayed(ss, txlog).Ok?
      ensures ok ==> Same(state.Value(), Replayed(ss, txlog).value) && state.lastTicket == ss.lastTicket
      decreases 1, 0
    {
      for i := 0 to |txlog|
        invariant state.lastTicket == ss.lastTicket
        invariant Replayed(ss, txlog[..i]).Ok? && Same(state.Value(), Replayed(ss, txlog[..i]).value)
      {
        ghost var here := state.Value();
        ReplayStep(ss, txlog, i, here);
        var r := ApplyTransactionInternal(txlog[i], false);
        if !r.Done? {
          return false;
        }
        SameTransitive(state.Value(), Committed(here, txlog[i]).value, Replayed(ss, txlog[..i + 1]).value);
      }
      assert txlog[..|txlog|] == txlog;
      ok := true;
    }

    /**
     * A transaction that is only replayed never meets a failing operation, so undoing one never starts
     * another undoing.
     */
    method ApplyTransactionInternal(tx: Transaction, writeTxLog: bool) returns (r: TxResult)
      requires writeTxLog ==> Valid()
      requires !writeTxLog && Next(tx, state.version) ==> AppliedAll(state.Value(), tx.ops).Ok?
      modifies state, if writeTxLog then {this, txLogIO, snapshotIO} else {}
      ensures snapshotIO.saved == old(snapshotIO.saved)
      ensures txLogIO.readOnly == old(txLogIO.readOnly)
      ensures !Next(tx, old(state.version)) ==>
                r == Failed(OutOfOrder) && state == old(state) && state.Value() == old(state.Value())
      ensures r.Done? <==> && Next(tx, old(state.version)) && AppliedAll(old(state.Value()), tx.ops).Ok?
                           && (writeTxLog ==> !txLogIO.readOnly)
      ensures r.Done? ==> && r.id == old(state.version) + 1 && state == old(state)
                          && Same(state.Value(), Committed(old(state.Value()), tx).value)
                          && state.lastTicket == old(state.lastTicket)
      ensures writeTxLog ==>
                txLogIO.txs == if r.Done? then old(txLogIO.txs) + [Transaction(r.id, tx.ops)] else old(txLogIO.txs)
      ensures r.Panicked? <==> && Next(tx, old(state.version)) && !r.Done? && snapshotIO.saved.None?
      ensures r.Failed? && Next(tx, old(state.version)) ==> fresh(state) && Undone(old(state.Value()), state.Value())
      ensures r.Failed? ==> r.error == Reason(old(state.Value()), tx)
      ensures writeTxLog && !r.Panicked? ==> Valid()
      ensures state == old(state) || fresh(state)
      decreases if writeTxLog then 2 else 0
    {
      if tx.txID != ANY_VERSION && tx.txID != state.version + 1 {
        return Failed(OutOfOrder);
      }
      var txID := state.version + 1;
      ghost var was := state.Value();
      AppliedAllFrame(was, tx.ops);
      var err := state.ApplyAll(tx.ops);
      if err.Some? {
        r := Rollback(err.value, was);
        return;
      }
      CommittedSame(was, tx, state.Value());
      if writeTxLog {
        var ok := Log(tx, was);
        if !ok {
          r := Rollback(EAccess, was);
          return;
        }
      }
      state.version := txID;
      r := Done(txID);
    }

    /** Logs a transaction whose operations have gone through. */
    method Log(tx: Transaction, ghost was: State) returns (ok: bool)
      requires Sound(snapshotIO.saved, txLogIO.txs, was) && state.version == was.version && Next(tx, was.version)
      requires AppliedAll(was, tx.ops).Ok? && (Bounded(was) ==> Bounded(state.Value()))
      requires Same(state.Value().(version := was.version + 1), Committed(was, tx).value)
      modifies txLogIO`txs
      ensures ok == !txLogIO.readOnly
      ensures txLogIO.txs == if ok then old(txLogIO.txs) + [Transaction(was.version + 1, tx.ops)] else old(txLogIO.txs)
      ensures ok ==> Sound(snapshotIO.saved, txLogIO.txs, state.Value().(version := was.version + 1))
    {
      ok := txLogIO.AppendTransaction(Transaction(state.version + 1, tx.ops));
      if ok {
        SoundLogged(snapshotIO.saved, old(txLogIO.txs), was, tx, state.Value().(version := was.version + 1));
      }
    }

    /** Back to the state `was`, which a transaction has partly changed since; without a snapshot, a panic. */
    method Rollback(err: Error, ghost was: State) returns (r: TxResult)
      requires snapshotIO.Knows() && Sound(snapshotIO.saved, txLogIO.txs, was) && state.version == was.version
      modifies this`state, snapshotIO`snapshotVer
      ensures r == if snapshotIO.saved.Some? then Failed(err) else Panicked
      ensures r.Failed? ==> Valid() && fresh(state) && Undone(was, state.Value())
      ensures r.Panicked? ==> state == old(state)
      decreases 1, 2
    {
      assert Unfolded(0);
      var rerr := RestoreVersion(state.version);
      if rerr.Some? {
        return Panicked;
      }
      SoundUndone(snapshotIO.saved.value, txLogIO.txs, was, state.Value());
      r := Failed(err);
    }

    method ApplyTransaction(tx: Transaction) returns (r: TxResult)
      requires Valid()
      modifies this, state, txLogIO, snapshotIO
      ensures !r.Panicked? ==> Valid()
      ensures snapshotIO.saved == old(snapshotIO.saved)
      ensures r.Done? <==> && !readOnly && Next(tx, old(state.version)) && AppliedAll(old(state.Value()), tx.ops).Ok?
                           && !old(txLogIO.readOnly)
      ensures r.Panicked? <==> && !readOnly && Next(tx, old(state.version)) && !r.Done? && snapshotIO.saved.None?
      ensures r.Done? ==> && r.id == old(state.version) + 1 && state == old(state)
                          && Same(state.Value(), Committed(old(state.Value()), tx).value)
      ensures txLogIO.txs == if r.Done? then old(txLogIO.txs) + [Transaction(r.id, tx.ops)] else old(txLogIO.txs)
      ensures r.Failed? ==> state.Value() == old(state.Value()) || Undone(old(state.Value()), state.Value())
      ensures r.Failed? ==> r.error == if readOnly then EAccess else Reason(old(state.Value()), tx)
      ensures r == Failed(OutOfOrder) <==>
                !readOnly && tx.txID != ANY_VERSION && tx.txID != old(state.version) + 1
      ensures state == old(state) || fresh(state)
      ensures r.Failed? ==> (state == old(state) <==> readOnly || !Next(tx, old(state.version)))
      ensures old(Graph(state.nodes)) && FileSystemOps(tx.ops) && !r.Panicked? ==> Graph(state.nodes)
    {
      if readOnly {
        return Failed(EAccess);
      }
      ghost var was := state.Value();
      AppliedAllFrame(was, tx.ops);
      r := ApplyTransactionInternal(tx, true);
      KeptGraph(was, tx, state.Value(), r);
    }

    /** A lock is given for a node nobody has locked; a number allocated is that of no node. */
    method LockNode(id: ID) returns (r: Result<NodeLock>)
      requires Valid()
      modifies state
      ensures Valid() && state.nodes == old(state.nodes) && state.version == old(state.version)
      ensures r.Ok? <==>
                !readOnly && (if id == ALLOCATE_NEW_NODE_ID then old(state.lastID) + 1 else id) !in old(state.nodeLocks)
      ensures r.Err? ==> && r.error == (if readOnly then EAccess else LockTaken)
                         && state.nodeLocks == old(state.nodeLocks) && state.lastTicket == old(state.lastTicket)
      ensures r.Ok? ==> && state.nodeLocks == old(state.nodeLocks)[r.value.id := r.value]
                        && r.value.ticket == state.lastTicket > old(state.lastTicket)
                        && r.value.id == (if id == ALLOCATE_NEW_NODE_ID then old(state.lastID) + 1 else id)
                        && (id == ALLOCATE_NEW_NODE_ID ==> r.value.id !in state.nodes)
      ensures state.lastID == old(state.lastID) + if !readOnly && id == ALLOCATE_NEW_NODE_ID then 1 else 0
    {
      assert Unfolded(0);
      if readOnly {
        return Err(EAccess);
      }
      var nid := id;
      if id == ALLOCATE_NEW_NODE_ID {
        nid := state.lastID + 1;
        state.lastID := nid;
      }
      if nid in state.nodeLocks {
        return Err(LockTaken);
      }
      var ticket := state.lastTicket + 1;
      state.lastTicket := ticket;
      var nlock := NodeLock(nid, ticket);
      state.nodeLocks := state.nodeLocks[nid := nlock];
      return Ok(nlock);
    }

    /** Only the holder's ticket opens a lock. */
    method UnlockNode(nlock: NodeLock) returns (err: Option<Error>)
      requires Valid()
      modifies state
      ensures Valid() && state.nodes == old(state.nodes) && state.version == old(state.version)
      ensures state.nodeLocks == if err.None? then old(state.nodeLocks) - {nlock.id} else old(state.nodeLocks)
      ensures err.None? <==> && !readOnly && nlock.ticket != NO_TICKET
                             && (nlock.id in old(state.nodeLocks) ==> old(state.nodeLocks)[nlock.id] == nlock)
      ensures state.lastID == old(state.lastID) && state.lastTicket == old(state.lastTicket)
      ensures nlock.id in old(state.nodeLocks) && old(state.nodeLocks)[nlock.id] != nlock ==> err.Some?
    {
      assert Unfolded(0);
      if readOnly {
        return Some(EAccess);
      }
      err := state.CheckLock(nlock, true);
      if err.None? {
        state.nodeLocks := state.nodeLocks - {nlock.id};
      }
    }

    /** Saves a snapshot, from which the log so far is no longer needed. */
    method Sync() returns (err: Option<Error>)
      requires Valid()
      modifies snapshotIO
      ensures Valid()
      ensures err.Some? ==> snapshotIO.saved == old(snapshotIO.saved)
      ensures readOnly ==> err == Some(EAccess)
      ensures err.None? ==>
                && snapshotIO.saved.Some? && snapshotIO.saved.value.version == state.version
                && Replay() == Ok(snapshotIO.saved.value)
                && (snapshotIO.saved == old(snapshotIO.saved) || snapshotIO.saved == Some(Snapshot(state.Value())))
    {
      if readOnly {
        return Some(EAccess);
      }
      SoundSaved(snapshotIO.saved, txLogIO.txs, state.Value());
      SoundBounded(snapshotIO.saved, txLogIO.txs, state.Value());
      var ok := snapshotIO.SaveSnapshot(state);
      if !ok {
        return Some(Refused);
      }
      ReplayNone(snapshotIO.saved.value, txLogIO.txs);
      err := None;
    }

    /** The blobs in use, or the access error of a read-only database. */
    method Fsck() returns (r: Result<seq<string>>, errs: seq<ID>, ghost met: seq<ID>)
      requires NamedOnce(state.nodes)
      ensures r.Err? <==> readOnly
      ensures r.Ok? ==> && W.MetAll(state.nodes, met) && W.Reported(state.nodes, errs)
                        && (errs == [] <==> W.Whole(state.nodes))
                        && (forall b :: b in r.value <==> W.Used(state.nodes, b))
                        && (Closed(state.nodes) ==> errs == [])
    {
      if readOnly {
        return Err(EAccess), [], [];
      }
      var found;
      found, errs, met := W.Walk(state.nodes);
      r := Ok(found);
    }
  }

  /** What the operations left, under the next number, is the committed state. */
  lemma CommittedSame(was: State, tx: Transaction, now: State)
    requires Next(tx, was.version) && AppliedAll(was, tx.ops).Ok? && Same(now, AppliedAll(was, tx.ops).value)
    ensures Committed(was, tx).Ok? && Same(now.(version := was.version + 1), Committed(was, tx).value)
  {
  }

  /** There is one node, the root: a directory with no entries that anyone may use. */
  predicate IsEmptyRoot(nodes: map<ID, INode>)
  {
    && nodes.Keys == {ROOT_DIR_ID} && nodes[ROOT_DIR_ID].DirNode? && nodes[ROOT_DIR_ID].entries == map[]
    && SameLabels(nodes[ROOT_DIR_ID].attrs, Attrs("/", 0, 0, 0x1ff, 0))
  }

  /**
   * A new database on empty storage: an initialized file system, saved. When saving fails, the storage is
   * left with the first transaction and no snapshot.
   */
  method NewEmptyDB(snapshotIO: DBStateSnapshotIO, txLogIO: SimpleDBTransactionLogIO) returns (r: TxResult, db: DB?)
    requires snapshotIO.Knows()
    modifies snapshotIO, txLogIO
    ensures old(snapshotIO.saved).Some? || old(txLogIO.txs) != [] ==>
              r.Failed? && snapshotIO.saved == old(snapshotIO.saved) && txLogIO.txs == old(txLogIO.txs)
    ensures r.Panicked? <==> old(snapshotIO.saved).None? && old(txLogIO.txs) == [] && old(txLogIO.readOnly)
    ensures r.Failed? && old(snapshotIO.saved).None? && old(txLogIO.txs) == [] ==>
              snapshotIO.saved.None? && txLogIO.txs == [Transaction(1, [InitializeFileSystem])]
    ensures r.Done? <==> db != null
    ensures r.Done? ==> && fresh(db) && db.snapshotIO == snapshotIO && db.txLogIO == txLogIO && !db.readOnly
                        && db.Valid() && Graph(db.state.nodes) && db.state.version == 1 && snapshotIO.saved.Some?
                        && IsEmptyRoot(db.state.nodes)
  {
    db := null;
    var found := snapshotIO.RestoreSnapshot();
    if found != null {
      return Failed(Refused), null;
    }
    var txs := txLogIO.QueryTransactions(0);
    FromAll(txLogIO.txs);
    if |txs| > 0 {
      return Failed(Refused), null;
    }
    var d := new DB(snapshotIO, txLogIO, false);
    var ops := [InitializeFileSystem];
    assert ops[..0] == [] && AppliedAll(NEW_STATE, ops[..|ops| - 1]) == Ok(NEW_STATE);
    assert AppliedAll(NEW_STATE, ops) == Initialized(NEW_STATE, 0);
    InitializedGraph(NEW_STATE, 0);
    r := d.ApplyTransaction(Transaction(1, ops));
    if r.Panicked? {
      return;
    }
    SameCoreGraph(Committed(NEW_STATE, Transaction(1, ops)).value.nodes, d.state.nodes);
    InitializedLaw(NEW_STATE, 0);
    SameCoreLaw(Initialized(NEW_STATE, 0).value.nodes, d.state.nodes);
    var err := d.Sync();
    if err.Some? {
      return Failed(err.value), null;
    }
    db := d;
  }

  /**
   * Opens what the last snapshot and the log after it amount to. What a sound database left behind gives
   * back its nodes and its version, in a sound database.
   */
  method NewDB(snapshotIO: DBStateSnapshotIO, txLogIO: SimpleDBTransactionLogIO, readOnly: bool, ghost left: State)
    returns (db: DB?)
    requires snapshotIO.Knows()
    requires snapshotIO.saved.Some? ==> Ends(ReplayOf(snapshotIO.saved.value, txLogIO.txs))
    modifies snapshotIO`snapshotVer
    ensures db != null <==> && snapshotIO.saved.Some? && snapshotIO.saved.value.version <= MAX_INT64
                            && ReplayOf(snapshotIO.saved.value, txLogIO.txs).Ok?
    ensures db != null ==> && fresh(db) && fresh(db.state) && db.snapshotIO == snapshotIO && db.txLogIO == txLogIO
                           && db.readOnly == readOnly && snapshotIO.Knows()
                           && Same(db.state.Value(), ReplayOf(snapshotIO.saved.value, txLogIO.txs).value)
    ensures db != null && Sound(snapshotIO.saved, txLogIO.txs, left) ==>
              && db.Valid() && Undone(left, db.state.Value())
              && (Graph(left.nodes) ==> Graph(db.state.nodes))
  {
    var d := new DB(snapshotIO, txLogIO, readOnly);
    var err := d.RestoreVersion(MAX_INT64);
    if err.Some? {
      return null;
    }
    if Sound(snapshotIO.saved, txLogIO.txs, left) {
      assert Unfolded(0);
      SoundUndone(snapshotIO.saved.value, txLogIO.txs, left, d.state.Value());
      if Graph(left.nodes) { SameCoreGraph(left.nodes, d.state.nodes); }
    }
    db := d;
  }

  lemma {:induction false} FromAll(txs: seq<Transaction>)
    ensures From(txs, 0) == txs
  {
    if txs != [] {
      FromAll(txs[..|txs| - 1]);
      assert txs == txs[..|txs| - 1] + [txs[|txs| - 1]];
    }
  }

  lemma SameTransitive(a: State, b: State, c: State)
    requires Same(a, b) && Same(b, c)
    ensures Same(a, c)
  {
    WeakerTransitive(a, b, c);
    WeakerTransitive(c, b, a);
  }

  /** Done or undone, a file system transaction keeps the shape of the graph. */
  lemma KeptGraph(was: State, tx: Transaction, now: State, r: TxResult)
    requires r.Done? ==> Committed(was, tx).Ok? && Same(now, Committed(was, tx).value)
    requires r.Failed? ==> now == was || Undone(was, now)
    ensures Graph(was.nodes) && FileSystemOps(tx.ops) && !r.Panicked? ==> Graph(now.nodes)
  {
    if Graph(was.nodes) && FileSystemOps(tx.ops) && !r.Panicked? {
      if r.Done? {
        CommittedGraph(was, tx);
        SameCoreGraph(Committed(was, tx).value.nodes, now.nodes);
      } else if now != was {
        SameCoreGraph(was.nodes, now.nodes);
      }
    }
  }

  /** A step of a replay that does not fail for an operation's sake. */
  lemma ReplayStep(ss: State, txs: seq<Transaction>, i: nat, s: State)
    requires i < |txs| && Replayed(ss, txs[..i]).Ok? && Same(s, Replayed(ss, txs[..i]).value)
    requires Ends(Replayed(ss, txs))
    ensures Next(txs[i], s.version) ==> AppliedAll(s, txs[i].ops).Ok?
    ensures Next(txs[i], s.version) ==> Replayed(ss, txs[..i + 1]).Ok?
    ensures Next(txs[i], s.version) ==> Same(Committed(s, txs[i]).value, Replayed(ss, txs[..i + 1]).value)
    ensures !Next(txs[i], s.version) ==> Replayed(ss, txs).Err?
  {
    var t := Replayed(ss, txs[..i]).value;
    assert txs[..i + 1] == txs[..i] + [txs[i]];
    ReplayedMore(ss, txs[..i], txs[i]);
    SameCommitted(s, t, txs[i]);
    CommittedKinds(t, txs[i]);
    CommittedKinds(s, txs[i]);
    if Committed(t, txs[i]).Err? { ReplayedPrefix(ss, txs, i + 1); }
  }

  /** A transaction fails as out of order exactly when its number does not fit. */
  lemma CommittedKinds(s: State, tx: Transaction)
    ensures Next(tx, s.version) ==> Committed(s, tx).Ok? == AppliedAll(s, tx.ops).Ok?
    ensures Next(tx, s.version) && Committed(s, tx).Err? ==> Committed(s, tx).error != OutOfOrder
    ensures !Next(tx, s.version) ==> Committed(s, tx) == Err(OutOfOrder)
  {
    AppliedAllFrame(s, tx.ops);
  }

  /** What a method left behind is what `want` says: the new state, or the old one and an error. */
  ghost predicate Outcome(before: State, want: Result<State>, after: State, err: Option<Error>)
  {
    match want
    case Ok(s) => err.None? && after == s
    case Err(e) => err == Some(e) && after == before
  }
}
