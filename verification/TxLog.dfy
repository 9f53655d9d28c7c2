/**
 * The batched transaction log (gcloud/datastore/dbtransactionlogio.go) as a protocol: transactions are
 * gathered in `next`, moved to `committing`, and put into the store as one batch under the number of its
 * last transaction. A commit may be refused, or go through and be reported as failed. `log` is the
 * history: everything ever appended. `floor` is the largest number below which deletion was asked for.
 */
module TxLog {
  import opened INodes

  datatype Phase = Idle | Taken | Written

  datatype Log = Log(log: seq<Transaction>, next: seq<Transaction>, committing: seq<Transaction>, phase: Phase,
                     store: map<nat, seq<Transaction>>, floor: nat)

  const EMPTY := Log([], [], [], Idle, map[], 0)

  function Last(txs: seq<Transaction>): nat { if txs == [] then 0 else txs[|txs| - 1].txID }

  ghost predicate Increasing(txs: seq<Transaction>)
  {
    forall i, j {:trigger txs[i], txs[j]} :: 0 <= i < j < |txs| ==> txs[i].txID < txs[j].txID
  }

  ghost predicate Stored(s: Log, tx: Transaction)
  {
    exists k :: k in s.store && tx in s.store[k]
  }

  ghost predicate Pending(s: Log, tx: Transaction) { tx in s.committing || tx in s.next }

  // ---------------------------------------------------------------- steps

  ghost predicate Append(s: Log, s': Log, tx: Transaction)
  {
    tx.txID > Last(s.log) && s' == s.(log := s.log + [tx], next := s.next + [tx])
  }

  /** A sync takes the whole batch gathered so far. */
  ghost predicate Take(s: Log, s': Log)
  {
    s.phase == Idle && s.next != [] && s' == s.(phase := Taken, committing := s.next, next := [])
  }

  /** The batch reaches the store, whether or not the caller gets to know. */
  ghost predicate Write(s: Log, s': Log)
  {
    && s.phase == Taken
    && s' == s.(phase := Written, store := s.store[Last(s.committing) := s.committing])
  }

  /** The caller learns that the batch has reached the store. */
  ghost predicate Acknowledge(s: Log, s': Log)
  {
    s.phase == Written && s' == s.(phase := Idle, committing := [])
  }

  /** The caller is told of a failure: the batch goes back to the front, stored or not. */
  ghost predicate Rollback(s: Log, s': Log)
  {
    s.phase != Idle && s' == s.(phase := Idle, committing := [], next := s.committing + s.next)
  }

  /** Deletion begins with the transactions gathered and not yet taken. */
  ghost predicate Trim(s: Log, s': Log, t: nat)
  {
    s' == s.(next := From(s.next, t), floor := if t > s.floor then t else s.floor)
  }

  /** Deletion goes on in the store, batch by batch, and may stop anywhere. */
  ghost predicate Delete(s: Log, s': Log, keys: set<nat>)
  {
    (forall k :: k in keys ==> k < s.floor) && s' == s.(store := s.store - keys)
  }

  ghost predicate Step(s: Log, s': Log)
  {
    || (exists tx :: Append(s, s', tx))
    || Take(s, s') || Write(s, s') || Acknowledge(s, s') || Rollback(s, s')
    || (exists t :: Trim(s, s', t))
    || (exists keys :: Delete(s, s', keys))
  }

  // ---------------------------------------------------------------- what every step keeps

  /** The pending transactions are in the order of the log, those being committed first. */
  ghost predicate InOrder(s: Log)
  {
    && Increasing(s.log) && (forall tx {:trigger tx in s.log} :: tx in s.log ==> 0 < tx.txID)
    && Increasing(s.committing) && Increasing(s.next)
    && (forall x, y {:trigger x in s.committing, y in s.next} :: x in s.committing && y in s.next ==> x.txID < y.txID)
    && (forall tx {:trigger Pending(s, tx)} :: Pending(s, tx) ==> tx in s.log)
  }

  ghost predicate BatchOk(s: Log, k: nat)
    requires k in s.store
  {
    && s.store[k] != [] && Last(s.store[k]) == k
    && forall tx {:trigger tx in s.store[k]} :: tx in s.store[k] ==> tx in s.log && tx.txID <= k
  }

  /** What is still wanted of a batch is pending in one piece or not at all. */
  ghost predicate Whole(s: Log, k: nat)
    requires k in s.store
  {
    || (forall tx {:trigger tx in s.store[k]} :: tx in s.store[k] && tx.txID >= s.floor ==> tx in s.committing)
    || (forall tx {:trigger tx in s.store[k]} :: tx in s.store[k] && tx.txID >= s.floor ==> tx in s.next)
    || (forall tx {:trigger tx in s.store[k]} :: tx in s.store[k] && tx.txID >= s.floor ==> !Pending(s, tx))
  }

  ghost predicate Batches(s: Log)
  {
    forall k {:trigger k in s.store} :: k in s.store ==> BatchOk(s, k) && Whole(s, k)
  }

  /** Nothing from the floor up is lost. */
  ghost predicate Covered(s: Log)
  {
    forall tx {:trigger Stored(s, tx)} {:trigger Pending(s, tx)} ::
      tx in s.log && tx.txID >= s.floor ==> Stored(s, tx) || Pending(s, tx)
  }

  /** From the floor up, what is pending is the end of the log. */
  ghost predicate PendingLast(s: Log)
  {
    forall x, y {:trigger Pending(s, x), Pending(s, y)} ::
      Pending(s, x) && y in s.log && x.txID < y.txID && y.txID >= s.floor ==> Pending(s, y)
  }

  /** From the floor up, what is stored is the beginning of the log. */
  ghost predicate StoredFirst(s: Log)
  {
    forall x, y {:trigger Stored(s, x), Stored(s, y)} ::
      Stored(s, y) && x in s.log && x.txID < y.txID && x.txID >= s.floor ==> Stored(s, x)
  }

  ghost predicate PhaseOk(s: Log)
  {
    && (s.phase == Idle ==> s.committing == [])
    && (s.phase != Idle ==> s.committing != [])
    && (s.phase == Written ==>
          forall tx {:trigger tx in s.committing} :: tx in s.committing && tx.txID >= s.floor ==> Stored(s, tx))
  }

  ghost predicate Inv(s: Log)
  {
    InOrder(s) && Batches(s) && Covered(s) && PendingLast(s) && StoredFirst(s) && PhaseOk(s)
  }

  lemma EmptyInv()
    ensures Inv(EMPTY)
  {
  }

  /** The last of an increasing sequence is its largest, and so is one appended above it. */
  lemma LastLargest(txs: seq<Transaction>, tx: Transaction)
    requires Increasing(txs)
    ensures tx in txs ==> tx.txID <= Last(txs)
    ensures Last(txs) < tx.txID ==> Increasing(txs + [tx])
  {
    if tx in txs {
      var i :| 0 <= i < |txs| && txs[i] == tx;
      assert i < |txs| - 1 ==> txs[i].txID < txs[|txs| - 1].txID;
    }
    if Last(txs) < tx.txID {
      forall i, j | 0 <= i < j < |txs + [tx]| ensures (txs + [tx])[i].txID < (txs + [tx])[j].txID {
        assert i < |txs| - 1 ==> txs[i].txID < txs[|txs| - 1].txID;
      }
    }
  }

  lemma AppendOrder(s: Log, s': Log, tx: Transaction)
    requires InOrder(s) && Append(s, s', tx)
    ensures InOrder(s') && tx !in s.log
    ensures forall x {:trigger x in s'.log} :: x in s'.log <==> x in s.log || x == tx
    ensures forall x {:trigger Pending(s', x)} :: Pending(s', x) <==> Pending(s, x) || x == tx
  {
    assert forall x :: Pending(s', x) <==> Pending(s, x) || x == tx;
    LastLargest(s.log, tx);
    if s.next != [] {
      assert Pending(s, s.next[|s.next| - 1]);
      LastLargest(s.log, s.next[|s.next| - 1]);
    }
    LastLargest(s.next, tx);
    forall x | x in s.committing ensures x.txID < tx.txID {
      assert Pending(s, x);
      LastLargest(s.log, x);
    }
  }

  lemma AppendInv(s: Log, s': Log, tx: Transaction)
    requires Inv(s) && Append(s, s', tx)
    ensures Inv(s')
  {
    AppendOrder(s, s', tx);
    assert forall x :: Stored(s', x) <==> Stored(s, x);
    forall x | x in s.log ensures x.txID < tx.txID {
      LastLargest(s.log, x);
    }
    forall k | k in s'.store ensures BatchOk(s', k) && Whole(s', k) {
      assert BatchOk(s, k) && Whole(s, k);
    }
    forall x | Stored(s, x) ensures x in s.log {
      var k :| k in s.store && x in s.store[k];
      assert BatchOk(s, k);
    }
  }

  lemma TakeInv(s: Log, s': Log)
    requires Inv(s) && Take(s, s')
    ensures Inv(s')
  {
    assert forall x :: Stored(s', x) <==> Stored(s, x);
    assert forall x :: Pending(s', x) <==> Pending(s, x);
    forall k | k in s'.store ensures BatchOk(s', k) && Whole(s', k) {
      assert BatchOk(s, k) && Whole(s, k);
    }
  }

  /** A batch put under the number of another replaces nothing that is still wanted. */
  lemma WriteStored(s: Log, s': Log, x: Transaction)
    requires Inv(s) && Write(s, s')
    ensures Stored(s, x) && x.txID >= s.floor ==> Stored(s', x)
    ensures x in s.committing ==> Stored(s', x)
    ensures Stored(s', x) ==> Stored(s, x) || x in s.committing
  {
    var key := Last(s.committing);
    assert s'.store[key] == s.committing;
    if Stored(s, x) && x.txID >= s.floor {
      var k :| k in s.store && x in s.store[k];
      if k == key {
        KeyPending(s, key);
        assert x in s.committing;
      } else {
        assert s'.store[k] == s.store[k];
      }
    }
  }

  lemma KeyPending(s: Log, key: nat)
    requires Inv(s) && s.phase == Taken && key == Last(s.committing) && key in s.store
    ensures forall x :: x in s.store[key] && x.txID >= s.floor ==> x in s.committing
  {
    assert BatchOk(s, key) && Whole(s, key);
    var last, mine := s.store[key][|s.store[key]| - 1], s.committing[|s.committing| - 1];
    assert Pending(s, mine) && last in s.store[key];
    SameNumber(s.log, last, mine);
    if mine.txID >= s.floor {
      assert mine in s.committing;
      assert last !in s.next && Pending(s, last);
    }
  }

  /** Transactions of one number are one transaction. */
  lemma SameNumber(txs: seq<Transaction>, x: Transaction, y: Transaction)
    requires Increasing(txs) && x in txs && y in txs && x.txID == y.txID
    ensures x == y
  {
    var i :| 0 <= i < |txs| && txs[i] == x;
    var j :| 0 <= j < |txs| && txs[j] == y;
  }

  lemma WriteInv(s: Log, s': Log)
    requires Inv(s) && Write(s, s')
    ensures Inv(s')
  {
    forall x ensures Pending(s', x) <==> Pending(s, x) {}
    forall x: Transaction ensures Stored(s, x) && x.txID >= s.floor ==> Stored(s', x) {
      WriteStored(s, s', x);
    }
    WriteBatches(s, s');
    WriteFirst(s, s');
    forall x | x in s'.committing ensures Stored(s', x) {
      WriteStored(s, s', x);
    }
  }

  lemma WriteBatches(s: Log, s': Log)
    requires Inv(s) && Write(s, s')
    ensures Batches(s')
  {
    var key := Last(s.committing);
    forall k | k in s'.store ensures BatchOk(s', k) && Whole(s', k) {
      if k == key {
        forall x | x in s.committing ensures x in s.log && x.txID <= key {
          assert Pending(s, x);
          LastLargest(s.committing, x);
        }
      } else {
        assert BatchOk(s, k) && Whole(s, k) && s'.store[k] == s.store[k];
        forall x ensures Pending(s', x) <==> Pending(s, x) {}
      }
    }
  }

  lemma WriteFirst(s: Log, s': Log)
    requires Inv(s) && Write(s, s')
    ensures StoredFirst(s')
  {
    forall x, y | Stored(s', y) && x in s.log && x.txID < y.txID && x.txID >= s.floor ensures Stored(s', x) {
      WriteStored(s, s', x);
      WriteStored(s, s', y);
      if !Stored(s, x) {
        assert Pending(s, x);
        if y in s.committing { assert Pending(s, y); }
      }
    }
  }

  lemma AcknowledgeInv(s: Log, s': Log)
    requires Inv(s) && Acknowledge(s, s')
    ensures Inv(s')
  {
    assert forall x :: Stored(s', x) <==> Stored(s, x);
    forall x ensures Pending(s, x) <==> Pending(s', x) || x in s.committing {}
    forall k | k in s'.store ensures BatchOk(s', k) && Whole(s', k) {
      assert BatchOk(s, k) && Whole(s, k);
      if forall tx {:trigger tx in s.store[k]} :: tx in s.store[k] && tx.txID >= s.floor ==> tx in s.committing {
        forall tx | tx in s.store[k] && tx.txID >= s.floor ensures !Pending(s', tx) {}
      }
    }
  }

  lemma JoinIncreasing(a: seq<Transaction>, b: seq<Transaction>)
    requires Increasing(a) && Increasing(b) && forall x, y :: x in a && y in b ==> x.txID < y.txID
    ensures Increasing(a + b)
  {
    forall i, j | 0 <= i < j < |a + b| ensures (a + b)[i].txID < (a + b)[j].txID {
      if i < |a| <= j { assert a[i] in a && b[j - |a|] in b; }
    }
  }

  lemma RollbackInv(s: Log, s': Log)
    requires Inv(s) && Rollback(s, s')
    ensures Inv(s')
  {
    assert forall x :: Stored(s', x) <==> Stored(s, x);
    assert forall x :: Pending(s', x) <==> Pending(s, x);
    JoinIncreasing(s.committing, s.next);
    forall k | k in s'.store ensures BatchOk(s', k) && Whole(s', k) {
      assert BatchOk(s, k) && Whole(s, k);
    }
  }

  lemma {:induction false} FromIncreasing(txs: seq<Transaction>, t: nat)
    requires Increasing(txs)
    ensures Increasing(From(txs, t))
  {
    if txs != [] {
      var init, last := txs[..|txs| - 1], txs[|txs| - 1];
      FromIncreasing(init, t);
      var r := From(init, t);
      if r != [] {
        assert r[|r| - 1] in r;
        var i :| 0 <= i < |init| && init[i] == r[|r| - 1];
        assert txs[i].txID < last.txID;
      }
      LastLargest(r, last);
    }
  }

  lemma TrimInv(s: Log, s': Log, t: nat)
    requires Inv(s) && Trim(s, s', t)
    ensures Inv(s')
  {
    FromIncreasing(s.next, t);
    assert forall x :: Stored(s', x) <==> Stored(s, x);
    forall x: Transaction ensures Pending(s', x) ==> Pending(s, x) {}
    forall x: Transaction ensures Pending(s, x) && x.txID >= s'.floor ==> Pending(s', x) {}
    forall k | k in s'.store ensures BatchOk(s', k) && Whole(s', k) {
      assert BatchOk(s, k) && Whole(s, k);
    }
  }

  lemma DeleteInv(s: Log, s': Log, keys: set<nat>)
    requires Inv(s) && Delete(s, s', keys)
    ensures Inv(s')
  {
    forall x ensures Pending(s', x) <==> Pending(s, x) {}
    forall x: Transaction ensures Stored(s', x) ==> Stored(s, x) {}
    forall x: Transaction | Stored(s, x) && x.txID >= s.floor ensures Stored(s', x) {
      DeleteStored(s, s', keys, x);
    }
    forall k | k in s'.store ensures BatchOk(s', k) && Whole(s', k) {
      assert BatchOk(s, k) && Whole(s, k) && s'.store[k] == s.store[k];
    }
  }

  lemma DeleteStored(s: Log, s': Log, keys: set<nat>, x: Transaction)
    requires Batches(s) && Delete(s, s', keys) && Stored(s, x) && x.txID >= s.floor
    ensures Stored(s', x)
  {
    var k :| k in s.store && x in s.store[k];
    assert BatchOk(s, k);
    assert k in s'.store;
  }

  /** Every step keeps the invariant. */
  lemma StepInv(s: Log, s': Log)
    requires Inv(s) && Step(s, s')
    ensures Inv(s')
  {
    if tx :| Append(s, s', tx) { AppendInv(s, s', tx); }
    if Take(s, s') { TakeInv(s, s'); }
    if Write(s, s') { WriteInv(s, s'); }
    if Acknowledge(s, s') { AcknowledgeInv(s, s'); }
    if Rollback(s, s') { RollbackInv(s, s'); }
    if t :| Trim(s, s', t) { TrimInv(s, s', t); }
    if keys :| Delete(s, s', keys) { DeleteInv(s, s', keys); }
  }

  // ---------------------------------------------------------------- runs and queries

  ghost predicate Run(ss: seq<Log>)
  {
    ss != [] && forall i {:trigger ss[i]} :: 0 <= i < |ss| - 1 ==> Step(ss[i], ss[i + 1])
  }

  /** Between `s` and `s'` the log has only grown, and what was stored and is still wanted is still stored. */
  ghost predicate Later(s: Log, s': Log)
  {
    && s.log <= s'.log && s.floor <= s'.floor
    && forall x {:trigger Stored(s, x)} :: Stored(s, x) && x.txID >= s'.floor ==> Stored(s', x)
  }

  lemma StepLater(s: Log, s': Log)
    requires Inv(s) && Step(s, s')
    ensures Later(s, s')
  {
    forall x: Transaction | Stored(s, x) && x.txID >= s'.floor ensures Stored(s', x) {
      if Write(s, s') {
        WriteStored(s, s', x);
      } else if keys :| Delete(s, s', keys) {
        DeleteStored(s, s', keys, x);
      }
    }
  }

  /** The invariant holds throughout every run. */
  lemma {:induction false} RunInv(ss: seq<Log>)
    requires Run(ss) && Inv(ss[0])
    ensures Inv(ss[|ss| - 1]) && Later(ss[0], ss[|ss| - 1])
  {
    if |ss| > 1 {
      var init := ss[..|ss| - 1];
      forall i | 0 <= i < |init| - 1 ensures Step(init[i], init[i + 1]) {
        assert Step(ss[i], ss[i + 1]);
      }
      RunInv(init);
      var last := ss[|ss| - 2];
      assert Step(last, ss[|ss| - 1]);
      StepInv(last, ss[|ss| - 1]);
      StepLater(last, ss[|ss| - 1]);
      forall x: Transaction | Stored(ss[0], x) && x.txID >= ss[|ss| - 1].floor ensures Stored(ss[|ss| - 1], x) {
        assert Stored(last, x);
      }
    }
  }

  /** What a query that looks at memory in `s` and at the store in `s'` gathers, before sorting. */
  ghost predicate Gathered(s: Log, s': Log, minID: nat, txs: seq<Transaction>)
  {
    forall x {:trigger x in txs} :: x in txs <==> x.txID >= minID && (Pending(s, x) || Stored(s', x))
  }

  /** How far the log is known to such a query. */
  ghost predicate Known(s: Log, s': Log, n: nat)
  {
    && |s.log| <= n <= |s'.log|
    && (n > |s.log| ==> Stored(s', s'.log[n - 1]))
    && (forall j {:trigger s'.log[j]} :: n <= j < |s'.log| ==> !Stored(s', s'.log[j]))
  }

  lemma {:induction false} KnownExists(s: Log, s': Log, n: nat)
    requires |s.log| <= n <= |s'.log|
    requires forall j {:trigger s'.log[j]} :: n <= j < |s'.log| ==> !Stored(s', s'.log[j])
    ensures exists m: nat :: Known(s, s', m)
    decreases n
  {
    if n > |s.log| && !Stored(s', s'.log[n - 1]) {
      KnownExists(s, s', n - 1);
    } else {
      assert Known(s, s', n);
    }
  }

  /** What is gathered is the log as far as it is known: nothing is missed, nothing is invented. */
  lemma GatheredKnown(s: Log, s': Log, minID: nat, txs: seq<Transaction>, n: nat)
    requires Inv(s) && Inv(s') && Later(s, s') && minID >= s'.floor && Gathered(s, s', minID, txs) && Known(s, s', n)
    ensures forall x {:trigger x in txs} :: x in txs <==> x.txID >= minID && x in s'.log[..n]
  {
    forall x: Transaction ensures x in txs <==> x.txID >= minID && x in s'.log[..n] {
      if x in s'.log[..n] && x.txID >= minID { KnownHas(s, s', x, n); }
      if x in txs {
        if Stored(s', x) {
          StoredLogged(s', x);
          var j :| 0 <= j < |s'.log| && s'.log[j] == x;
          assert s'.log[..n][j] == x;
        } else {
          var j :| 0 <= j < |s.log| && s.log[j] == x;
          assert s'.log[..n][j] == x;
        }
      }
    }
  }

  lemma StoredLogged(s: Log, x: Transaction)
    requires Batches(s) && Stored(s, x)
    ensures x in s.log
  {
    var k :| k in s.store && x in s.store[k];
    assert BatchOk(s, k);
  }

  lemma KnownHas(s: Log, s': Log, x: Transaction, n: nat)
    requires Inv(s) && Inv(s') && Later(s, s') && Known(s, s', n) && x in s'.log[..n] && x.txID >= s'.floor
    ensures Pending(s, x) || Stored(s', x)
  {
    var i :| 0 <= i < n && s'.log[i] == x;
    if i < |s.log| {
      assert s.log[i] == x;
      assert Stored(s, x) || Pending(s, x);
    } else if i < n - 1 {
      assert s'.log[i].txID < s'.log[n - 1].txID;
      assert Stored(s', x) by { assert Stored(s', s'.log[n - 1]); }
    }
  }

  /** Increasing sequences with the same elements are the same. */
  lemma {:induction false} IncreasingUnique(a: seq<Transaction>, b: seq<Transaction>)
    requires Increasing(a) && Increasing(b) && forall x {:trigger x in a} {:trigger x in b} :: x in a <==> x in b
    ensures a == b
  {
    if b != [] { assert b[0] in b; }
    if a != [] {
      assert a[|a| - 1] in a;
      assert b != [];
      assert b[|b| - 1] in b;
      LastLargest(a, b[|b| - 1]);
      LastLargest(b, a[|a| - 1]);
      SameNumber(a, a[|a| - 1], b[|b| - 1]);
      var a', b' := a[..|a| - 1], b[..|b| - 1];
      WithoutLast(a);
      WithoutLast(b);
      IncreasingUnique(a', b');
    }
  }

  lemma WithoutLast(a: seq<Transaction>)
    requires Increasing(a) && a != []
    ensures Increasing(a[..|a| - 1])
    ensures forall x {:trigger x in a[..|a| - 1]} :: x in a[..|a| - 1] <==> x in a && x != a[|a| - 1]
  {
    forall x: Transaction ensures x in a[..|a| - 1] <==> x in a && x != a[|a| - 1] {
      if x in a && x != a[|a| - 1] {
        var i :| 0 <= i < |a| && a[i] == x;
        assert a[..|a| - 1][i] == x;
      }
      if x in a[..|a| - 1] {
        var i :| 0 <= i < |a| - 1 && a[i] == x;
        assert a[i].txID < a[|a| - 1].txID;
      }
    }
  }
}
