/**
 * Snapshots, the transaction log and their collectors together
 * (inodedb/blobstoredbstatesnapshotio/blobstoredbstatesnapshotio.go, gc/inodedbtxloggc/inodedbtxloggc.go,
 * gcloud/datastore/inodedbsslocator.go: DeleteOld): whatever is deleted, each of the three newest
 * snapshots can still be brought forward to the present from the log that is left.
 */
module LogGC {
  import opened Bytes
  import opened INodes
  import opened INodeDB
  import opened TxLog
  import opened TxLogIO

  const MAX_HIST := 3

  /** `snaps` are the snapshots kept, newest first; `found` is the threshold of a collection under way. */
  datatype System = System(l: Log, live: State, snaps: seq<State>, found: Option<nat>)

  // ---------------------------------------------------------------- steps

  /** A transaction goes through: the state changes and the log grows. */
  ghost predicate Commit(s: System, s': System, tx: Transaction)
  {
    && Next(tx, s.live.version) && AppliedAll(s.live, tx.ops).Ok?
    && Same(s'.live, Committed(s.live, tx).value)
    && Append(s.l, s'.l, Transaction(s.live.version + 1, tx.ops))
    && s'.snaps == s.snaps && s'.found == s.found
  }

  /** Nodes are locked or unlocked. */
  ghost predicate Relock(s: System, s': System)
  {
    && s'.live.nodes == s.live.nodes && s'.live.version == s.live.version && s'.live.lastID >= s.live.lastID
    && s' == s.(live := s'.live)
  }

  /** Snapshot `i` is the newest of the three newest that can be read. */
  ghost predicate Chosen(readable: seq<bool>, i: nat)
  {
    i < |readable| && i < MAX_HIST && readable[i] && forall k: nat {:trigger readable[k]} :: k < i ==> !readable[k]
  }

  /** A transaction fails and is undone from the snapshot chosen. */
  ghost predicate Undo(s: System, s': System, i: nat)
  {
    && (exists readable: seq<bool> :: |readable| == |s.snaps| && Chosen(readable, i))
    && i < |s.snaps| && ReplayOf(s.snaps[i], s.l.log).Ok? && Same(s'.live, ReplayOf(s.snaps[i], s.l.log).value)
    && s' == s.(live := s'.live)
  }

  /** The newest snapshot is of the present version. */
  predicate Saved(s: System) { s.snaps != [] && s.snaps[0].version == s.live.version }

  /** The snapshots older than the present version. */
  function Older(s: System): seq<State> { if Saved(s) then s.snaps[1..] else s.snaps }

  /** A snapshot of the present is kept, in place of one of the same version; or there is one, and it stays. */
  ghost predicate Save(s: System, s': System)
  {
    (Saved(s) && s' == s) || s' == s.(snaps := [Snapshot(s.live)] + Older(s))
  }

  /** Old snapshots go, from the fourth newest on; a failure may leave some of the oldest. */
  ghost predicate DropOld(s: System, s': System, n: nat)
  {
    MAX_HIST <= n <= |s.snaps| && s' == s.(snaps := s.snaps[..MAX_HIST] + s.snaps[n..])
  }

  /** A collection of the log begins with the version of the third newest snapshot. */
  ghost predicate Find(s: System, s': System)
  {
    |s.snaps| >= MAX_HIST && s.found.None? && s' == s.(found := Some(s.snaps[MAX_HIST - 1].version))
  }

  ghost predicate CollectMemory(s: System, s': System)
  {
    s.found.Some? && s.found.value != ANY_VERSION && Trim(s.l, s'.l, s.found.value) && s' == s.(l := s'.l)
  }

  ghost predicate CollectStore(s: System, s': System, keys: set<nat>)
  {
    s.found.Some? && Delete(s.l, s'.l, keys) && s' == s.(l := s'.l)
  }

  ghost predicate End(s: System, s': System) { s' == s.(found := None) }

  /** The log is synced. */
  ghost predicate SyncLog(s: System, s': System)
  {
    (Take(s.l, s'.l) || Write(s.l, s'.l) || Acknowledge(s.l, s'.l) || Rollback(s.l, s'.l)) && s' == s.(l := s'.l)
  }

  ghost predicate Stepped(s: System, s': System)
  {
    || (exists tx :: Commit(s, s', tx))
    || Relock(s, s') || (exists i: nat :: Undo(s, s', i)) || Save(s, s') || (exists n: nat :: DropOld(s, s', n))
    || Find(s, s') || CollectMemory(s, s') || (exists keys :: CollectStore(s, s', keys)) || End(s, s')
    || SyncLog(s, s')
  }

  // ---------------------------------------------------------------- what every step keeps

  ghost function Forward(s: System, i: nat): Result<State>
    requires i < |s.snaps|
  {
    ReplayOf(s.snaps[i], s.l.log)
  }

  /** Snapshot `i` comes forward to the nodes and the version of the present. */
  ghost predicate Current(s: System, i: nat)
    requires i < |s.snaps|
  {
    && s.snaps[i].version <= s.live.version
    && Forward(s, i).Ok? && Weaker(Forward(s, i).value, s.live) && Forward(s, i).value.locks == map[]
    && Below(Forward(s, i).value)
  }

  /** Of two snapshots, the older one comes forward to what refuses no more. */
  ghost predicate Ordered(s: System, i: nat, j: nat)
    requires i < |s.snaps| && j < |s.snaps|
  {
    i < j ==> && s.snaps[j].version < s.snaps[i].version
              && Forward(s, i).Ok? && Forward(s, j).Ok? && Weaker(Forward(s, j).value, Forward(s, i).value)
  }

  ghost predicate Snaps(s: System)
  {
    && (forall i: nat {:trigger Current(s, i)} :: i < |s.snaps| ==> Current(s, i))
    && (forall i: nat, j: nat {:trigger Ordered(s, i, j)} :: i < |s.snaps| && j < |s.snaps| ==> Ordered(s, i, j))
  }

  ghost predicate Numbers(s: System)
  {
    && Below(s.live)
    && Last(s.l.log) == s.live.version
    && (forall tx {:trigger tx in s.l.log} :: tx in s.l.log ==> tx.txID <= s.live.version)
  }

  /** Nothing from the third newest snapshot up is ever collected. */
  ghost predicate Floor(s: System)
  {
    && (s.l.floor > 0 ==> |s.snaps| >= MAX_HIST && s.l.floor <= s.snaps[MAX_HIST - 1].version)
    && (s.found.Some? ==> |s.snaps| >= MAX_HIST && s.found.value <= s.snaps[MAX_HIST - 1].version)
  }

  ghost predicate SysInv(s: System)
  {
    Inv(s.l) && Numbers(s) && Snaps(s) && Floor(s)
  }

  /** A database just created: nothing logged, nothing saved. */
  lemma StartInv()
    ensures SysInv(System(EMPTY, NEW_STATE, [], None))
  {
    EmptyInv();
  }

  lemma CommitForward(s: System, s': System, tx: Transaction, i: nat)
    requires Commit(s, s', tx) && i < |s.snaps| && Current(s, i)
    ensures Current(s', i)
    ensures Forward(s', i) == Committed(Forward(s, i).value, Transaction(s.live.version + 1, tx.ops))
  {
    ForwardLogged(s.snaps[i], s.l.log, s.live, tx, s'.live);
  }

  lemma CommitInv(s: System, s': System, tx: Transaction)
    requires SysInv(s) && Commit(s, s', tx)
    ensures SysInv(s')
  {
    var logged := Transaction(s.live.version + 1, tx.ops);
    AppendInv(s.l, s'.l, logged);
    AppendOrder(s.l, s'.l, logged);
    AppliedAllFrame(s.live, tx.ops);
    forall i: nat | i < |s'.snaps| ensures Current(s', i) {
      assert Current(s, i);
      CommitForward(s, s', tx, i);
    }
    forall i: nat, j: nat | i < |s'.snaps| && j < |s'.snaps| ensures Ordered(s', i, j) {
      assert Current(s, i) && Current(s, j) && Ordered(s, i, j);
      CommitForward(s, s', tx, i);
      CommitForward(s, s', tx, j);
      if i < j { CommittedWeaker(Forward(s, j).value, Forward(s, i).value, logged); }
    }
  }

  /** Steps that leave snapshots and log history alone, and the present no stricter than before. */
  lemma SnapsKept(s: System, s': System)
    requires Snaps(s) && s'.snaps == s.snaps && s'.l.log == s.l.log && s'.live.version == s.live.version
    requires forall i: nat {:trigger Current(s, i)} ::
               i < |s.snaps| && Current(s, i) ==> Weaker(Forward(s, i).value, s'.live)
    ensures Snaps(s')
  {
    forall i: nat | i < |s'.snaps| ensures Current(s', i) {
      assert Current(s, i);
    }
    forall i: nat, j: nat | i < |s'.snaps| && j < |s'.snaps| ensures Ordered(s', i, j) {
      assert Ordered(s, i, j);
    }
  }

  /** More numbers given out, or other locks: nothing is accepted that was not. */
  lemma RelockWeaker(r: State, s: State, s': State)
    requires Weaker(r, s) && r.locks == map[] && s'.nodes == s.nodes && s'.version == s.version && s'.lastID >= s.lastID
    ensures Weaker(r, s')
  {
    forall id | Free(s', id) ensures Free(r, id) {
      assert Free(s, id);
    }
  }

  lemma RelockInv(s: System, s': System)
    requires SysInv(s) && Relock(s, s')
    ensures SysInv(s')
  {
    forall i: nat | i < |s.snaps| && Current(s, i) ensures Weaker(Forward(s, i).value, s'.live) {
      RelockWeaker(Forward(s, i).value, s.live, s'.live);
    }
    SnapsKept(s, s');
  }

  // ---------------------------------------------------------------- undoing from an older snapshot

  /**
   * Every number that is free in `a` is free in `b`, which has the same nodes: the last number of `b` is
   * no larger, or is the next one and that of `a` is taken.
   */
  predicate LevelWith(a: State, b: State)
  {
    b.lastID <= a.lastID || (b.lastID == a.lastID + 1 && a.lastID in a.nodes)
  }

  /** What snapshot `i` comes forward to has given out as many numbers as what any newer one comes forward to. */
  ghost predicate Level(s: System, i: nat)
    requires i < |s.snaps|
  {
    forall k: nat {:trigger Forward(s, k)} ::
      k < i && Forward(s, i).Ok? && Forward(s, k).Ok? ==> LevelWith(Forward(s, i).value, Forward(s, k).value)
  }

  lemma LevelFree(a: State, b: State)
    requires Below(a) && a.nodes.Keys == b.nodes.Keys
    ensures LevelWith(a, b) <==> forall id {:trigger Free(a, id)} :: Free(a, id) ==> Free(b, id)
  {
    if !LevelWith(a, b) {
      var id := FirstFree(a);
      assert Free(a, id) && !Free(b, id);
    }
  }

  /** The first number a new node may have. */
  function FirstFree(a: State): ID { if a.lastID in a.nodes then a.lastID + 1 else a.lastID }

  /** An older snapshot comes forward to what a newer one does, but for free numbers. */
  lemma LevelWeaker(s: System, k: nat, i: nat)
    requires SysInv(s) && k < i < |s.snaps|
    ensures Forward(s, k).Ok? && Forward(s, i).Ok?
    ensures Weaker(Forward(s, k).value, Forward(s, i).value) <==> LevelWith(Forward(s, i).value, Forward(s, k).value)
  {
    assert Current(s, k) && Current(s, i) && Ordered(s, k, i);
    LevelFree(Forward(s, i).value, Forward(s, k).value);
  }

  lemma UndoLive(s: System, s': System, i: nat)
    requires SysInv(s) && Undo(s, s', i)
    ensures SameCore(s.live.nodes, s'.live.nodes) && s.live.version == s'.live.version
    ensures Below(s'.live) && s'.live.locks == map[] && s'.live.lastID == Forward(s, i).value.lastID
  {
    assert Current(s, i);
    WeakerTransitive(s'.live, Forward(s, i).value, s.live);
  }

  lemma UndoLevel(s: System, s': System, i: nat)
    requires SysInv(s) && Undo(s, s', i) && Level(s, i)
    ensures SysInv(s')
  {
    UndoLive(s, s', i);
    var r := Forward(s, i).value;
    forall k: nat | k < |s.snaps| && Current(s, k) ensures Weaker(Forward(s, k).value, s'.live) {
      assert Current(s, i) && Ordered(s, i, k);
      if k < i {
        LevelWeaker(s, k, i);
        assert Ordered(s, k, i);
      }
      if k != i { WeakerTransitive(Forward(s, k).value, r, s'.live); }
    }
    SnapsKept(s, s');
  }

  /**
   * Undoing from a snapshot chosen because newer ones could not be read keeps the invariant if and only if
   * it is level with those. From the newest it always does.
   */
  lemma UndoExact(s: System, s': System, i: nat)
    requires SysInv(s) && Undo(s, s', i)
    ensures SysInv(s') <==> Level(s, i)
  {
    if Level(s, i) {
      UndoLevel(s, s', i);
    } else {
      var k: nat :| && k < i && Forward(s, i).Ok? && Forward(s, k).Ok?
                    && !LevelWith(Forward(s, i).value, Forward(s, k).value);
      LevelWeaker(s, k, i);
      if SysInv(s') {
        assert Current(s', k);
        WeakerTransitive(Forward(s, k).value, s'.live, Forward(s, i).value);
      }
    }
  }

  /** The creation of a file numbered `id`. */
  function CreateFile(id: ID): Op { CreateNode(NodeLock(id, 1), "", FILE_NODE_T, ROOT_DIR_ID, 0, 0, 0) }

  /**
   * And if it is not level, one more transaction may go through after which a newer snapshot cannot be
   * brought forward any more.
   */
  lemma UndoneTooFar(s: System, s': System, i: nat, k: nat) returns (tx: Transaction, s'': System)
    requires SysInv(s) && Undo(s, s', i) && k < i && Forward(s, k).Ok?
    requires !LevelWith(Forward(s, i).value, Forward(s, k).value)
    ensures Commit(s', s'', tx) && s''.snaps == s.snaps && Forward(s'', k) == Err(Refused)
  {
    assert Current(s, i) && Current(s, k) && Ordered(s, k, i);
    UndoLive(s, s', i);
    var a, b := Forward(s, i).value, Forward(s, k).value;
    var id := FirstFree(a);
    var op := CreateFile(id);
    tx := Transaction(ANY_VERSION, [op]);
    AppliedOne(s'.live, op);
    AppliedOne(b, op);
    assert Free(s'.live, id) by { assert Free(a, id); }
    var logged := Transaction(s'.live.version + 1, tx.ops);
    s'' := s'.(live := Committed(s'.live, tx).value,
               l := s'.l.(log := s'.l.log + [logged], next := s'.l.next + [logged]));
    ReplayMore(s.snaps[k], s.l.log, logged);
  }

  /** A state without locks that refuses no more than `s` refuses no more than a snapshot of `s`. */
  lemma BelowSnapshot(r: State, s: State)
    requires Weaker(r, s) && r.locks == map[]
    ensures Weaker(r, Snapshot(s))
  {
    forall id | Free(Snapshot(s), id) ensures Free(r, id) {
      assert Free(s, id);
    }
  }

  lemma SaveInv(s: System, s': System)
    requires SysInv(s) && Save(s, s')
    ensures SysInv(s')
  {
    if s' != s {
      forall i: nat | i < |s'.snaps| ensures Current(s', i) {
        SaveCurrent(s, s', i);
      }
      forall i: nat, j: nat | i < |s'.snaps| && j < |s'.snaps| ensures Ordered(s', i, j) {
        SaveOrdered(s, s', i, j);
      }
      SaveFloor(s, s');
    }
  }

  lemma SaveCurrent(s: System, s': System, i: nat)
    requires SysInv(s) && s' == s.(snaps := [Snapshot(s.live)] + Older(s)) && i < |s'.snaps|
    ensures Current(s', i)
  {
    if i == 0 {
      SnapshotWeaker(s.live);
      ReplayNone(Snapshot(s.live), s.l.log);
    } else {
      assert Current(s, if Saved(s) then i else i - 1);
    }
  }

  lemma SaveOrdered(s: System, s': System, i: nat, j: nat)
    requires SysInv(s) && s' == s.(snaps := [Snapshot(s.live)] + Older(s)) && i < |s'.snaps| && j < |s'.snaps|
    ensures Ordered(s', i, j)
  {
    if 0 < i < j {
      assert if Saved(s) then Ordered(s, i, j) else Ordered(s, i - 1, j - 1);
    } else if 0 == i < j {
      ReplayNone(Snapshot(s.live), s.l.log);
      var k := if Saved(s) then j else j - 1;
      assert Current(s, k) && Current(s, 0) && Ordered(s, 0, k);
      BelowSnapshot(Forward(s, k).value, s.live);
    }
  }

  lemma SaveFloor(s: System, s': System)
    requires SysInv(s) && s' == s.(snaps := [Snapshot(s.live)] + Older(s))
    ensures Floor(s')
  {
    if |s.snaps| >= MAX_HIST {
      assert Ordered(s, 1, 2);
      assert s'.snaps[2] == if Saved(s) then s.snaps[2] else s.snaps[1];
    }
  }

  lemma DropOldInv(s: System, s': System, n: nat)
    requires SysInv(s) && DropOld(s, s', n)
    ensures SysInv(s')
  {
    forall i: nat | i < |s'.snaps| ensures Current(s', i) {
      assert Current(s, if i < MAX_HIST then i else i - MAX_HIST + n);
    }
    forall i: nat, j: nat | i < |s'.snaps| && j < |s'.snaps| ensures Ordered(s', i, j) {
      var i' := if i < MAX_HIST then i else i - MAX_HIST + n;
      var j' := if j < MAX_HIST then j else j - MAX_HIST + n;
      assert Ordered(s, i', j');
    }
  }

  lemma LogOnlyInv(s: System, s': System)
    requires SysInv(s) && s' == s.(l := s'.l) && s'.l.log == s.l.log && Inv(s'.l) && Floor(s')
    ensures SysInv(s')
  {
    SnapsKept(s, s');
  }

  lemma FoundOnlyInv(s: System, s': System)
    requires SysInv(s) && (Find(s, s') || End(s, s'))
    ensures SysInv(s')
  {
    SnapsKept(s, s');
  }

  /** Whatever is undone in this step is undone from a snapshot that is level with all newer ones. */
  ghost predicate UndoesLevel(s: System, s': System)
  {
    forall i: nat {:trigger Undo(s, s', i)} :: Undo(s, s', i) ==> Level(s, i)
  }

  /** Every such step keeps the invariant, in particular that nothing from the third newest snapshot up is lost. */
  lemma SteppedInv(s: System, s': System)
    requires SysInv(s) && Stepped(s, s') && UndoesLevel(s, s')
    ensures SysInv(s')
  {
    if tx :| Commit(s, s', tx) { CommitInv(s, s', tx); }
    if Relock(s, s') { RelockInv(s, s'); }
    if i: nat :| Undo(s, s', i) { UndoLevel(s, s', i); }
    if Save(s, s') { SaveInv(s, s'); }
    if n: nat :| DropOld(s, s', n) { DropOldInv(s, s', n); }
    if Find(s, s') || End(s, s') { FoundOnlyInv(s, s'); }
    if CollectMemory(s, s') { TrimInv(s.l, s'.l, s.found.value); LogOnlyInv(s, s'); }
    if keys :| CollectStore(s, s', keys) { DeleteInv(s.l, s'.l, keys); LogOnlyInv(s, s'); }
    if SyncLog(s, s') { StepInv(s.l, s'.l); LogOnlyInv(s, s'); }
  }

  /** And no other step does. */
  lemma SteppedExact(s: System, s': System)
    requires SysInv(s) && Stepped(s, s')
    ensures SysInv(s') <==> UndoesLevel(s, s')
  {
    if UndoesLevel(s, s') {
      SteppedInv(s, s');
    } else {
      var i: nat :| Undo(s, s', i) && !Level(s, i);
      UndoExact(s, s', i);
    }
  }

  ghost predicate History(ss: seq<System>)
  {
    && ss != [] && ss[0] == System(EMPTY, NEW_STATE, [], None)
    && forall i {:trigger SteppedAt(ss, i)} :: 0 <= i < |ss| - 1 ==> SteppedAt(ss, i)
  }

  ghost predicate SteppedAt(ss: seq<System>, i: int)
    requires 0 <= i < |ss| - 1
  {
    Stepped(ss[i], ss[i + 1])
  }

  ghost predicate LevelAt(ss: seq<System>, i: int)
    requires 0 <= i < |ss| - 1
  {
    UndoesLevel(ss[i], ss[i + 1])
  }

  /** Up to moment `n` everything was undone from snapshots level with all newer ones. */
  ghost predicate LevelTo(ss: seq<System>, n: nat)
  {
    n < |ss| && forall i {:trigger LevelAt(ss, i)} :: 0 <= i < n ==> LevelAt(ss, i)
  }

  lemma {:induction false} HistoryInv(ss: seq<System>, n: nat)
    requires History(ss) && LevelTo(ss, n)
    ensures SysInv(ss[n])
  {
    if n == 0 {
      StartInv();
    } else {
      HistoryInv(ss, n - 1);
      assert SteppedAt(ss, n - 1) && LevelAt(ss, n - 1);
      SteppedInv(ss[n - 1], ss[n]);
    }
  }

  /**
   * At any moment of any history in which nothing was undone from a snapshot that was not level with all
   * newer ones, each of the three newest snapshots, brought forward by the answer the
   * log then gives to the query for what came after it, has the nodes and the version of the present.
   */
  lemma ThreeNewest(ss: seq<System>, n: nat, i: nat, txs: seq<Transaction>, answer: seq<Transaction>)
    requires History(ss) && LevelTo(ss, n) && i < |ss[n].snaps| && i < MAX_HIST
    requires Gathered(ss[n].l, ss[n].l, ss[n].snaps[i].version + 1, txs)
    requires Increasing(answer) && forall x {:trigger x in answer} :: x in answer <==> x in txs
    ensures Replayed(ss[n].snaps[i], answer).Ok?
    ensures SameCore(Replayed(ss[n].snaps[i], answer).value.nodes, ss[n].live.nodes)
    ensures Replayed(ss[n].snaps[i], answer).value.version == ss[n].live.version
  {
    HistoryInv(ss, n);
    NewestWanted(ss[n], i);
    CurrentAt(ss[n], i);
    AnswerReplays(ss[n].l, ss[n].snaps[i], txs, answer);
  }

  lemma AnswerReplays(l: Log, ss: State, txs: seq<Transaction>, answer: seq<Transaction>)
    requires Inv(l) && ss.version + 1 >= l.floor && Gathered(l, l, ss.version + 1, txs)
    requires Increasing(answer) && forall x {:trigger x in answer} :: x in answer <==> x in txs
    ensures Replayed(ss, answer) == ReplayOf(ss, l.log)
  {
    AnswerNow(l, ss.version + 1, txs, answer);
    ReplayIs(ss, l.log);
  }

  lemma CurrentAt(s: System, i: nat)
    requires Snaps(s) && i < |s.snaps|
    ensures Current(s, i)
  {
  }

  lemma NewestWanted(s: System, i: nat)
    requires Snaps(s) && Floor(s) && i < |s.snaps| && i < MAX_HIST
    ensures s.snaps[i].version >= s.l.floor
  {
    if i < 2 && |s.snaps| >= MAX_HIST { assert Ordered(s, i, 2); }
  }

  // ---------------------------------------------------------------- a history that goes too far back

  lemma HistoryMore(ss: seq<System>, s: System)
    requires History(ss) && Stepped(ss[|ss| - 1], s)
    ensures History(ss + [s])
  {
    var more := ss + [s];
    forall i | 0 <= i < |more| - 1 ensures SteppedAt(more, i) {
      if i < |ss| - 1 { assert SteppedAt(ss, i); }
    }
  }

  const ROOT_NODE := DirNode(Attrs("/", 0, 0, 0x1ff, 0), ROOT_DIR_ID, map[])
  const SAVED_ROOT := DirNode(Attrs("/", 0, 0, 0x1ff, 0), 0, map[])
  const TX1 := Transaction(1, [InitializeFileSystem])
  const TX2 := Transaction(2, [UpdateUid(ROOT_DIR_ID, 0)])

  function Logged(txs: seq<Transaction>): Log { Log(txs, txs, [], Phase.Idle, map[], 0) }

  function Root(lastID: ID, version: nat): State { State(map[ROOT_DIR_ID := ROOT_NODE], lastID, version, 1, map[]) }

  function SavedRoot(lastID: ID, version: nat): State
  {
    State(map[ROOT_DIR_ID := SAVED_ROOT], lastID, version, 1, map[])
  }

  lemma SameItself(s: State)
    ensures Same(s, s)
  {
  }

  lemma SnapshotRoot(lastID: ID, version: nat)
    ensures Snapshot(Root(lastID, version)) == SavedRoot(lastID, version)
  {
  }

  lemma LevelMore(ss: seq<System>, s: System)
    requires History(ss) && LevelTo(ss, |ss| - 1) && Stepped(ss[|ss| - 1], s) && SysInv(s)
    ensures History(ss + [s]) && LevelTo(ss + [s], |ss|)
  {
    var more := ss + [s];
    HistoryMore(ss, s);
    HistoryInv(ss, |ss| - 1);
    SteppedExact(ss[|ss| - 1], s);
    forall i | 0 <= i < |ss| ensures LevelAt(more, i) {
      if i < |ss| - 1 { assert LevelAt(ss, i); }
    }
  }

  /** A file system is made and saved. */
  lemma SavedOnce() returns (ss: seq<System>)
    ensures History(ss) && LevelTo(ss, |ss| - 1)
    ensures ss[|ss| - 1] == System(Logged([TX1]), Root(1, 1), [SavedRoot(1, 1)], None)
  {
    var s0 := System(EMPTY, NEW_STATE, [], None);
    var s1 := System(Logged([TX1]), Root(1, 1), [], None);
    var s2 := s1.(snaps := [SavedRoot(1, 1)]);
    AppliedOne(NEW_STATE, InitializeFileSystem);
    assert Committed(NEW_STATE, TX1) == Ok(Root(1, 1));
    SameItself(Root(1, 1));
    assert [] + [TX1] == [TX1];
    assert Commit(s0, s1, TX1);
    StartInv();
    CommitInv(s0, s1, TX1);
    LevelMore([s0], s1);
    SnapshotRoot(1, 1);
    assert [SavedRoot(1, 1)] + [] == [SavedRoot(1, 1)];
    assert Save(s1, s2);
    SaveInv(s1, s2);
    LevelMore([s0] + [s1], s2);
    ss := [s0] + [s1] + [s2];
  }

  /** Two numbers are given out and not used, and another transaction is logged and saved. */
  lemma SavedTwice() returns (ss: seq<System>)
    ensures History(ss) && LevelTo(ss, |ss| - 1)
    ensures ss[|ss| - 1] == System(Logged([TX1, TX2]), Root(3, 2), [SavedRoot(3, 2), SavedRoot(1, 1)], None)
  {
    ss := SavedOnce();
    var s2 := ss[|ss| - 1];
    var s3 := s2.(live := Root(3, 1));
    var s4 := System(Logged([TX1, TX2]), Root(3, 2), [SavedRoot(1, 1)], None);
    var s5 := s4.(snaps := [SavedRoot(3, 2), SavedRoot(1, 1)]);
    HistoryInv(ss, |ss| - 1);
    assert Relock(s2, s3);
    RelockInv(s2, s3);
    LevelMore(ss, s3);
    CommitsTx2(Root(3, 1));
    SameItself(Root(3, 2));
    assert [TX1] + [TX2] == [TX1, TX2];
    assert Commit(s3, s4, TX2);
    CommitInv(s3, s4, TX2);
    LevelMore(ss + [s3], s4);
    SnapshotRoot(3, 2);
    assert [SavedRoot(3, 2)] + [SavedRoot(1, 1)] == [SavedRoot(3, 2), SavedRoot(1, 1)];
    assert Save(s4, s5);
    SaveInv(s4, s5);
    LevelMore(ss + [s3] + [s4], s5);
    ss := ss + [s3] + [s4] + [s5];
  }

  lemma CommitsTx2(s: State)
    requires s.version == 1 && ROOT_DIR_ID in s.nodes && s.nodes.Keys == {ROOT_DIR_ID}
    requires s.nodes[ROOT_DIR_ID] == ROOT_NODE || s.nodes[ROOT_DIR_ID] == SAVED_ROOT
    ensures Committed(s, TX2) == Ok(s.(version := 2))
  {
    AppliedOne(s, UpdateUid(ROOT_DIR_ID, 0));
    assert s.nodes[ROOT_DIR_ID := s.nodes[ROOT_DIR_ID]] == s.nodes;
  }

  /**
   * Then the newer snapshot cannot be read, and a transaction is undone from the older one: that is not
   * level, for the two numbers are forgotten. A file created with the first of them goes through, and
   * afterwards the newer snapshot, which has it as given out, cannot be brought forward.
   */
  lemma FallbackRun() returns (ss: seq<System>)
    ensures History(ss) && |ss[|ss| - 1].snaps| == 2 && Forward(ss[|ss| - 1], 0) == Err(Refused)
  {
    ss := SavedTwice();
    var s5 := ss[|ss| - 1];
    HistoryInv(ss, |ss| - 1);
    ReplayNone(SavedRoot(3, 2), [TX1, TX2]);
    ReplayNone(SavedRoot(1, 1), [TX1]);
    CommitsTx2(SavedRoot(1, 1));
    ReplayMore(SavedRoot(1, 1), [TX1], TX2);
    assert [TX1] + [TX2] == [TX1, TX2];
    var s6 := s5.(live := SavedRoot(1, 2));
    SameItself(SavedRoot(1, 2));
    assert Chosen([false, true], 1) && |[false, true]| == |s5.snaps|;
    assert Undo(s5, s6, 1);
    HistoryMore(ss, s6);
    var tx, s7 := UndoneTooFar(s5, s6, 1, 0);
    HistoryMore(ss + [s6], s7);
    ss := ss + [s6] + [s7];
  }

  /** Restoring falls back to older snapshots, no further than the three newest. */
  method RestoreSnapshot(snaps: seq<State>, readable: seq<bool>) returns (r: Option<State>, i: nat)
    requires |readable| == |snaps|
    ensures r.Some? ==> Chosen(readable, i) && r.value == snaps[i]
    ensures r.Some? ==> i < 3 && readable[i] && forall k: nat {:trigger readable[k]} :: k < i ==> !readable[k]
    ensures r.None? <==> forall k: nat {:trigger readable[k]} :: k < 3 && k < |snaps| ==> !readable[k]
    ensures r.None? <==> forall k: nat :: !Chosen(readable, k)
  {
    i := 0;
    while i < MAX_HIST
      invariant i <= MAX_HIST && forall k: nat {:trigger readable[k]} :: k < i && k < |readable| ==> !readable[k]
    {
      if i < |snaps| && readable[i] {
        assert Chosen(readable, i);
        return Some(snaps[i]), i;
      }
      i := i + 1;
    }
    r := None;
  }
}
