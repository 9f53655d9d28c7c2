/**
 * The object behind the protocol (gcloud/datastore/dbtransactionlogio.go). Each method is one critical
 * section, so that others may come in between; `Sync` and `QueryTransactions` run them in sequence.
 * Encoding a batch is the identity; the store's errors are choices made anew at each call.
 */
module TxLogIO {
  import opened INodes
  import opened TxLog

  const MAX_WRITE_ENTRIES_PER_TX := 500
  const NUM_RETRIES := 3

  ghost predicate Ascending(txs: seq<Transaction>)
  {
    forall i, j {:trigger txs[i], txs[j]} :: 0 <= i < j < |txs| ==> txs[i].txID <= txs[j].txID
  }

  /** Different transactions have different numbers, none of them 0. */
  ghost predicate Numbered(txs: seq<Transaction>)
  {
    && (forall x {:trigger x in txs} :: x in txs ==> x.txID > 0)
    && (forall x, y {:trigger x in txs, y in txs} :: x in txs && y in txs && x.txID == y.txID ==> x == y)
  }

  function Insert(r: seq<Transaction>, tx: Transaction): (s: seq<Transaction>)
    ensures |s| == |r| + 1 && (s[|r|] == tx || (r != [] && s[|r|] == r[|r| - 1]))
    ensures forall x {:trigger x in s} :: x in s <==> x in r || x == tx
  {
    if r == [] || r[|r| - 1].txID <= tx.txID then r + [tx]
    else
      var last := r[|r| - 1];
      assert r == r[..|r| - 1] + [last];
      Insert(r[..|r| - 1], tx) + [last]
  }

  lemma {:induction false} InsertAscending(r: seq<Transaction>, tx: Transaction)
    requires Ascending(r)
    ensures Ascending(Insert(r, tx))
  {
    if r == [] || r[|r| - 1].txID <= tx.txID {
      AscendingMore(r, tx);
    } else {
      var init := r[..|r| - 1];
      InsertAscending(init, tx);
      AscendingMore(Insert(init, tx), r[|r| - 1]);
    }
  }

  lemma AscendingMore(r: seq<Transaction>, tx: Transaction)
    requires Ascending(r) && (r != [] ==> r[|r| - 1].txID <= tx.txID)
    ensures Ascending(r + [tx])
  {
    forall i, j | 0 <= i < j < |r + [tx]| ensures (r + [tx])[i].txID <= (r + [tx])[j].txID {
      assert i < |r| - 1 ==> r[i].txID <= r[|r| - 1].txID;
    }
  }

  /** Stands for the library's sort. */
  function Sort(txs: seq<Transaction>): (r: seq<Transaction>)
    ensures |r| == |txs| && forall x {:trigger x in r} :: x in r <==> x in txs
  {
    if txs == [] then []
    else
      assert txs == txs[..|txs| - 1] + [txs[|txs| - 1]];
      Insert(Sort(txs[..|txs| - 1]), txs[|txs| - 1])
  }

  lemma {:induction false} SortAscending(txs: seq<Transaction>)
    ensures Ascending(Sort(txs))
  {
    if txs != [] {
      SortAscending(txs[..|txs| - 1]);
      InsertAscending(Sort(txs[..|txs| - 1]), txs[|txs| - 1]);
    }
  }

  /** One of each number, in order. */
  method SortUnique(txs: seq<Transaction>) returns (uniqed: seq<Transaction>)
    requires Numbered(txs)
    ensures Increasing(uniqed)
    ensures forall x {:trigger x in uniqed} :: x in uniqed <==> x in txs
  {
    var sorted := Sort(txs);
    SortAscending(txs);
    uniqed := [];
    var prevId := 0;
    for i := 0 to |sorted|
      invariant Increasing(uniqed) && prevId == Last(uniqed)
      invariant forall x {:trigger x in uniqed} :: x in uniqed <==> x in sorted[..i]
    {
      var tx := sorted[i];
      assert tx in sorted;
      UniqueStep(sorted, i, uniqed);
      if tx.txID == prevId {
        continue;
      }
      uniqed := uniqed + [tx];
      prevId := tx.txID;
    }
    assert sorted[..|sorted|] == sorted;
  }

  lemma UniqueStep(sorted: seq<Transaction>, i: nat, uniqed: seq<Transaction>)
    requires i < |sorted| && Ascending(sorted) && Numbered(sorted) && Increasing(uniqed)
    requires forall x {:trigger x in uniqed} :: x in uniqed <==> x in sorted[..i]
    ensures sorted[i].txID == Last(uniqed) ==> sorted[i] in uniqed
    ensures sorted[i].txID != Last(uniqed) ==> Increasing(uniqed + [sorted[i]])
    ensures forall x :: x in sorted[..i + 1] <==> x in sorted[..i] || x == sorted[i]
  {
    assert sorted[..i + 1] == sorted[..i] + [sorted[i]];
    assert sorted[i] in sorted;
    if uniqed != [] {
      var last := uniqed[|uniqed| - 1];
      assert last in uniqed;
      var j :| 0 <= j < i && sorted[j] == last;
      assert last in sorted && last.txID <= sorted[i].txID;
    }
    LastLargest(uniqed, sorted[i]);
  }

  class DBTransactionLogIO {
    const writable: bool
    var nextbatch: seq<Transaction>
    var committing: seq<Transaction>
    var store: map<nat, seq<Transaction>>
    ghost var phase: Phase
    ghost var log: seq<Transaction>
    ghost var floor: nat

    ghost function Value(): Log
      reads this
    {
      Log(log, nextbatch, committing, phase, store, floor)
    }

    ghost predicate Valid()
      reads this
    {
      Inv(Value())
    }

    constructor (writable: bool)
      ensures Valid() && Value() == EMPTY && this.writable == writable
    {
      this.writable := writable;
      nextbatch, committing, store := [], [], map[];
      phase, log, floor := Idle, [], 0;
      new;
      EmptyInv();
    }

    /** Takes any number; one above all before is a step of the protocol. */
    method AppendTransaction(tx: Transaction) returns (ok: bool)
      requires Valid()
      modifies this
      ensures ok == writable
      ensures ok ==> Value() == old(Value()).(next := old(nextbatch) + [tx], log := old(log) + [tx])
      ensures ok ==> (Valid() <==> tx.txID > Last(old(log)))
      ensures !ok ==> Value() == old(Value())
    {
      if !writable {
        return false;
      }
      nextbatch, log := nextbatch + [tx], log + [tx];
      if tx.txID > Last(old(log)) {
        AppendInv(old(Value()), Value(), tx);
      } else {
        NotAbove(old(Value()), Value(), tx);
      }
      ok := true;
    }

    /** With syncs excluding each other, nothing is being committed when one starts. */
    method TakeBatch() returns (batch: seq<Transaction>)
      requires Valid() && phase == Idle
      modifies this
      ensures Valid() && batch == committing == old(nextbatch)
      ensures if batch == [] then Value() == old(Value()) else Take(old(Value()), Value())
    {
      assert |committing| == 0;
      committing := nextbatch;
      batch := committing;
      nextbatch := [];
      if batch != [] {
        phase := Taken;
        TakeInv(old(Value()), Value());
      }
    }

    method RollBack()
      requires Valid() && phase != Idle
      modifies this
      ensures Valid() && Rollback(old(Value()), Value())
    {
      nextbatch := committing + nextbatch;
      committing := [];
      phase := Idle;
      RollbackInv(old(Value()), Value());
    }

    /** The store takes the batch. */
    method Commit(batch: seq<Transaction>)
      requires Valid() && phase == Taken && batch == committing
      modifies this
      ensures Valid() && Write(old(Value()), Value())
    {
      store := store[batch[|batch| - 1].txID := batch];
      phase := Written;
      WriteInv(old(Value()), Value());
    }

    method Finish()
      requires Valid() && phase == Written
      modifies this
      ensures Valid() && Acknowledge(old(Value()), Value())
    {
      committing := [];
      phase := Idle;
      AcknowledgeInv(old(Value()), Value());
    }

    /**
     * A sync with nothing in between. When it reports success, all that is wanted is in the store; when it
     * reports a failure, the batch is gathered as before, and the store may or may not have it.
     */
    method Sync() returns (ok: bool)
      requires Valid() && phase == Idle
      modifies this
      ensures Valid() && phase == Idle && log == old(log) && floor == old(floor)
      ensures ok ==> writable && nextbatch == [] && forall x :: x in log && x.txID >= floor ==> Stored(Value(), x)
      ensures !ok ==> && nextbatch == old(nextbatch)
                      && (store == old(store) || store == old(store)[Last(nextbatch) := nextbatch])
    {
      if !writable {
        return false;
      }
      var batch := TakeBatch();
      if |batch| == 0 {
        NothingPending(Value());
        return true;
      }
      if * {
        RollBack();
        return false;
      }
      Commit(batch);
      if * {
        RollBack();
        return false;
      }
      Finish();
      NothingPending(Value());
      ok := true;
    }

    /** The first half of a query. */
    method ReadMemory(minID: nat) returns (txs: seq<Transaction>)
      ensures forall x {:trigger x in txs} :: x in txs <==> x.txID >= minID && Pending(Value(), x)
    {
      var a := Filter(committing, minID);
      var b := Filter(nextbatch, minID);
      txs := a + b;
    }

    /** The second half of a query: batches under a number that is large enough, in any order. */
    method ReadStore(minID: nat, seen: seq<Transaction>) returns (txs: seq<Transaction>, ok: bool)
      requires Valid()
      ensures !ok ==> txs == []
      ensures ok ==> forall x {:trigger x in txs} ::
                x in txs <==> x in seen || (x.txID >= minID && Stored(Value(), x))
    {
      txs := seen;
      var keys := set k | k in store && k >= minID;
      ghost var read: set<nat> := {};
      while keys != {}
        invariant forall k :: k in keys + read <==> k in store && k >= minID
        invariant forall x {:trigger x in txs} :: x in txs <==>
                    x in seen || (x.txID >= minID && exists k :: k in read && k in store && x in store[k])
      {
        if * {
          return [], false;
        }
        var k :| k in keys;
        var more := Filter(store[k], minID);
        txs := txs + more;
        keys, read := keys - {k}, read + {k};
      }
      if * {
        return [], false;
      }
      forall x: Transaction | x.txID >= minID
        ensures Stored(Value(), x) <==> exists k :: k in read && k in store && x in store[k]
      {
        if Stored(Value(), x) {
          var k :| k in store && x in store[k];
          assert BatchOk(Value(), k);
        }
      }
      ok := true;
    }

    /** One attempt at a query, with nothing in between. */
    method QueryTransactionsOnce(minID: nat) returns (r: seq<Transaction>, ok: bool)
      requires Valid()
      ensures !ok ==> r == []
      ensures ok ==> Found(Value(), minID, r)
    {
      var mem := ReadMemory(minID);
      var txs;
      txs, ok := ReadStore(minID, mem);
      if !ok {
        return [], false;
      }
      ghost var s := Value();
      GatheredNumbered(s, s, minID, txs);
      r := SortUnique(txs);
      FoundNow(s, minID, txs, r);
    }

    /**
     * A query, tried again as often as the errors allow: when it answers, with all that was appended from
     * `minID` up, in order, except that of what was asked to be deleted only what is still there is in it.
     */
    method QueryTransactions(minID: nat) returns (r: seq<Transaction>, ok: bool)
      requires Valid()
      ensures !ok ==> r == []
      ensures ok ==> Found(Value(), minID, r)
      ensures ok && minID >= floor ==> r == From(log, minID)
    {
      r, ok := [], false;
      for i := 0 to NUM_RETRIES
        invariant !ok && r == []
      {
        r, ok := QueryTransactionsOnce(minID);
        if ok {
          if minID >= floor { FoundAll(Value(), minID, r); }
          return;
        }
        if * {
          return;
        }
      }
    }

    /** Deletion below a number: first what is gathered, then batches, in rounds that may fail. */
    method DeleteTransactions(smallerThanID: nat) returns (ok: bool)
      requires Valid()
      modifies this
      ensures Valid() && log == old(log) && committing == old(committing) && phase == old(phase)
      ensures nextbatch == if writable then From(old(nextbatch), smallerThanID) else old(nextbatch)
      ensures floor == if writable && smallerThanID > old(floor) then smallerThanID else old(floor)
      ensures ok ==> writable && forall k :: k in store <==> k in old(store) && k >= smallerThanID
      ensures forall k :: k in store ==> k in old(store) && store[k] == old(store)[k]
    {
      if !writable {
        return false;
      }
      TrimNext(smallerThanID);
      ok := DeleteBatches(smallerThanID);
    }

    method TrimNext(smallerThanID: nat)
      requires Valid()
      modifies this`nextbatch, this`floor
      ensures Valid() && Trim(old(Value()), Value(), smallerThanID)
    {
      var batch := Filter(nextbatch, smallerThanID);
      nextbatch := batch;
      if smallerThanID > floor { floor := smallerThanID; }
      TrimInv(old(Value()), Value(), smallerThanID);
    }

    method DeleteBatches(smallerThanID: nat) returns (ok: bool)
      requires Valid() && smallerThanID <= floor
      modifies this`store
      ensures Valid()
      ensures forall k :: k in store ==> k in old(store) && store[k] == old(store)[k]
      ensures forall k :: k in old(store) && k >= smallerThanID ==> k in store
      ensures ok ==> forall k :: k in store ==> k >= smallerThanID
    {
      var left := set k | k in store && k < smallerThanID;
      while left != {}
        invariant Valid()
        invariant forall k :: k in left <==> k in store && k < smallerThanID
        invariant forall k :: k in store ==> k in old(store) && store[k] == old(store)[k]
        invariant forall k :: k in old(store) && k >= smallerThanID ==> k in store
        decreases left
      {
        if * {
          return false;
        }
        var keys := PickSome(left);
        ghost var s := Value();
        store := store - keys;
        DeleteInv(s, Value(), keys);
        left := left - keys;
      }
      ok := true;
    }
  }

  /** Some of the keys, as many as one round deletes. */
  method PickSome(left: set<nat>) returns (keys: set<nat>)
    requires left != {}
    ensures keys <= left && keys != {} && |keys| <= MAX_WRITE_ENTRIES_PER_TX
  {
    var k :| k in left;
    keys := {k};
    var rest := left - {k};
    while rest != {} && |keys| < MAX_WRITE_ENTRIES_PER_TX
      invariant keys <= left && keys != {} && rest <= left && rest !! keys && |keys| <= MAX_WRITE_ENTRIES_PER_TX
      decreases rest
    {
      k :| k in rest;
      keys, rest := keys + {k}, rest - {k};
    }
  }

  method Filter(txs: seq<Transaction>, minID: nat) returns (r: seq<Transaction>)
    ensures r == From(txs, minID)
  {
    r := [];
    for i := 0 to |txs|
      invariant r == From(txs[..i], minID)
    {
      assert txs[..i + 1][..i] == txs[..i];
      if txs[i].txID >= minID {
        r := r + [txs[i]];
      }
    }
    assert txs[..|txs|] == txs;
  }

  lemma NothingPending(s: Log)
    requires Inv(s) && s.committing == [] && s.next == []
    ensures forall x :: x in s.log && x.txID >= s.floor ==> Stored(s, x)
  {
    forall x: Transaction | x in s.log && x.txID >= s.floor ensures Stored(s, x) {
      assert !Pending(s, x);
    }
  }

  lemma GatheredNumbered(s: Log, s': Log, minID: nat, txs: seq<Transaction>)
    requires Inv(s) && Inv(s') && Later(s, s') && Gathered(s, s', minID, txs)
    ensures Numbered(txs)
  {
    forall x: Transaction | x in txs ensures x in s'.log {
      if Stored(s', x) { StoredLogged(s', x); } else { assert x in s.log; }
    }
    forall x, y | x in txs && y in txs && x.txID == y.txID ensures x == y {
      SameNumber(s'.log, x, y);
    }
  }

  /** A transaction numbered no higher than the last breaks the order. */
  lemma NotAbove(s: Log, s': Log, tx: Transaction)
    requires s'.log == s.log + [tx] && tx.txID <= Last(s.log)
    ensures !Inv(s')
  {
    if s.log == [] {
      assert tx in s'.log;
    } else {
      assert s'.log[|s.log| - 1] == s.log[|s.log| - 1] && s'.log[|s.log|] == tx;
    }
  }

  /**
   * `r` is what is pending or stored from `minID` up, in order: all of it was appended, and of what was
   * appended none is missing from the floor up.
   */
  ghost predicate Found(s: Log, minID: nat, r: seq<Transaction>)
  {
    && Increasing(r)
    && (forall x {:trigger x in r} :: x in r <==> x.txID >= minID && (Pending(s, x) || Stored(s, x)))
    && (forall x {:trigger x in r} :: x in r ==> x in s.log)
    && (forall x {:trigger x in s.log} :: x in s.log && x.txID >= minID && x.txID >= s.floor ==> x in r)
  }

  lemma FoundNow(s: Log, minID: nat, txs: seq<Transaction>, r: seq<Transaction>)
    requires Inv(s) && Gathered(s, s, minID, txs)
    requires Increasing(r) && forall x {:trigger x in r} :: x in r <==> x in txs
    ensures Found(s, minID, r)
  {
    forall x: Transaction | x in r ensures x in s.log {
      if Stored(s, x) { StoredLogged(s, x); }
    }
  }

  lemma FoundAll(s: Log, minID: nat, r: seq<Transaction>)
    requires Inv(s) && Found(s, minID, r) && minID >= s.floor
    ensures r == From(s.log, minID)
  {
    AnswerNow(s, minID, r, r);
  }

  ghost function End(ss: seq<Log>): Log
    requires ss != []
  {
    ss[|ss| - 1]
  }

  /** `r` is the part from `minID` up of the first `n` transactions of the log, all of those of `s` among them. */
  ghost predicate Answer(s: Log, s': Log, minID: nat, r: seq<Transaction>, n: nat)
  {
    |s.log| <= n <= |s'.log| && r == From(s'.log[..n], minID)
  }

  /**
   * A query whose two halves are any number of steps apart answers with all transactions from `minID` up
   * of some beginning of the log, which is no shorter than the log was when the query began: none
   * missing, none invented, none twice, in order.
   */
  lemma QueryAnswer(ss: seq<Log>, minID: nat, txs: seq<Transaction>, uniqed: seq<Transaction>)
    requires Run(ss) && Inv(ss[0]) && minID >= End(ss).floor && Gathered(ss[0], End(ss), minID, txs)
    requires Increasing(uniqed) && forall x {:trigger x in uniqed} :: x in uniqed <==> x in txs
    ensures exists n: nat :: Answer(ss[0], End(ss), minID, uniqed, n)
  {
    var s, s' := ss[0], ss[|ss| - 1];
    RunInv(ss);
    KnownExists(s, s', |s'.log|);
    var n: nat :| Known(s, s', n);
    GatheredKnown(s, s', minID, txs, n);
    FromIncreasing(s'.log[..n], minID);
    IncreasingUnique(uniqed, From(s'.log[..n], minID));
    assert Answer(s, s', minID, uniqed, n);
  }

  /** With nothing in between, the answer is all of the log from `minID` up. */
  lemma AnswerNow(s: Log, minID: nat, txs: seq<Transaction>, uniqed: seq<Transaction>)
    requires Inv(s) && minID >= s.floor && Gathered(s, s, minID, txs)
    requires Increasing(uniqed) && forall x {:trigger x in uniqed} :: x in uniqed <==> x in txs
    ensures uniqed == From(s.log, minID)
  {
    QueryAnswer([s], minID, txs, uniqed);
    assert s.log[..|s.log|] == s.log;
  }
}
