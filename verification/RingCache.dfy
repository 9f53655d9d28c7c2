/**
 * The ring of recent transactions in front of a log (inodedb/cacheddbtransactionlogio.go). Whatever it
 * answers from the ring is what the log behind it would answer, however often the ring has wrapped.
 */
module RingCache {
  import opened Bytes
  import opened INodes
  import opened INodeDB

  const RINGBUF_LEN := 256
  const LATEST_VERSION: nat := MAX_INT64
  const NO_TX := Transaction(0, [])

  /** Each transaction has the number after the one before it, and none has the number 0. */
  ghost predicate Consecutive(txs: seq<Transaction>)
  {
    forall i {:trigger txs[i]} :: 0 <= i < |txs| ==> txs[i].txID == txs[0].txID + i && 0 < txs[i].txID < LATEST_VERSION
  }

  /** The ring from the slot to be written next: what it has had no time to fill, then the latest of the log. */
  ghost predicate Recent(ring: seq<Transaction>, log: seq<Transaction>, n: nat)
  {
    && |ring| == RINGBUF_LEN && n <= |log| && n <= RINGBUF_LEN
    && (forall i {:trigger ring[i]} :: 0 <= i < RINGBUF_LEN - n ==> ring[i] == NO_TX)
    && ring[RINGBUF_LEN - n..] == log[|log| - n..]
  }

  ghost function Oldest(log: seq<Transaction>, n: nat): nat
    requires n <= |log|
  {
    if n == 0 then LATEST_VERSION else log[|log| - n].txID
  }

  /** One more transaction: the first slot makes room, and the oldest number is that of the slot after it. */
  lemma RecentMore(ring: seq<Transaction>, log: seq<Transaction>, n: nat, tx: Transaction)
    requires Recent(ring, log, n) && Consecutive(log + [tx])
    ensures var n' := Min(n + 1, RINGBUF_LEN);
            && Recent(ring[1..] + [tx], log + [tx], n')
            && (ring[0].txID == Oldest(log, n) <==> n == RINGBUF_LEN)
            && (n == RINGBUF_LEN ==> Oldest(log + [tx], n') == Oldest(log, n) + 1)
            && (n < RINGBUF_LEN ==> Oldest(log + [tx], n') == if n == 0 then tx.txID else Oldest(log, n))
  {
    var more, n' := log + [tx], Min(n + 1, RINGBUF_LEN);
    assert forall i :: 0 <= i < |log| ==> more[i] == log[i];
    if n == RINGBUF_LEN {
      assert ring == log[|log| - n..];
      assert ring[1..] + [tx] == more[|more| - n'..];
      assert ring[0] == more[|log| - n] && more[|more| - n'].txID == more[|log| - n].txID + 1;
    } else {
      assert (ring[1..] + [tx])[RINGBUF_LEN - n'..] == ring[RINGBUF_LEN - n..] + [tx];
      assert log[|log| - n..] + [tx] == more[|more| - n'..];
      assert more[|more| - n'].txID > 0;
    }
  }

  lemma {:induction false} FromJoin(a: seq<Transaction>, b: seq<Transaction>, minID: nat)
    ensures From(a + b, minID) == From(a, minID) + From(b, minID)
  {
    if b == [] {
      assert a + b == a;
    } else {
      var c, tx := b[..|b| - 1], b[|b| - 1];
      FromJoin(a, c, minID);
      assert (a + b)[..|a + b| - 1] == a + c && (a + b)[|a + b| - 1] == tx;
      if tx.txID >= minID { assert From(a, minID) + From(c, minID) + [tx] == From(a, minID) + (From(c, minID) + [tx]); }
    }
  }

  /** From its oldest number up, the ring has what the log has. */
  lemma RecentAnswer(ring: seq<Transaction>, log: seq<Transaction>, n: nat, minID: nat)
    requires Recent(ring, log, n) && Consecutive(log) && minID >= Oldest(log, n)
    ensures From(ring, minID) == From(log, minID)
  {
    var pad, k := ring[..RINGBUF_LEN - n], |log| - n;
    assert ring == pad + log[k..] && log == log[..k] + log[k..];
    OlderThan(log, n, minID);
    if n > 0 { assert log[k].txID > 0; }
    FromNone(pad, minID);
    FromNone(log[..k], minID);
    FromJoin(pad, log[k..], minID);
    FromJoin(log[..k], log[k..], minID);
  }

  /** What has left the ring is numbered below its oldest. */
  lemma OlderThan(log: seq<Transaction>, n: nat, minID: nat)
    requires n <= |log| && Consecutive(log) && minID >= Oldest(log, n)
    ensures forall tx {:trigger tx in log[..|log| - n]} :: tx in log[..|log| - n] ==> tx.txID < minID
  {
    var k := |log| - n;
    forall tx | tx in log[..k] ensures tx.txID < minID {
      var i :| 0 <= i < k && log[i] == tx;
      if n > 0 { assert log[k].txID == log[0].txID + k; }
    }
  }

  class CachedDBTransactionLogIO {
    const be: SimpleDBTransactionLogIO
    const ringbuf: array<Transaction>
    var next: nat
    var oldestTxID: nat
    ghost var held: nat

    ghost function Ring(): seq<Transaction>
      requires next <= ringbuf.Length
      reads this, ringbuf
    {
      ringbuf[next..] + ringbuf[..next]
    }

    ghost predicate Valid()
      reads this, ringbuf, be
    {
      && ringbuf.Length == RINGBUF_LEN && next < RINGBUF_LEN
      && Consecutive(be.txs)
      && Recent(Ring(), be.txs, held)
      && oldestTxID == Oldest(be.txs, held)
    }

    constructor (be: SimpleDBTransactionLogIO)
      requires Consecutive(be.txs)
      ensures Valid() && this.be == be && fresh(ringbuf)
    {
      this.be := be;
      ringbuf := new Transaction[RINGBUF_LEN](_ => NO_TX);
      next, oldestTxID, held := 0, LATEST_VERSION, 0;
    }

    method AppendTransaction(tx: Transaction) returns (ok: bool)
      requires Valid() && Consecutive(be.txs + [tx])
      modifies this, ringbuf, be
      ensures Valid() && be.readOnly == old(be.readOnly) && ok == !be.readOnly
      ensures be.txs == if ok then old(be.txs) + [tx] else old(be.txs)
    {
      ok := be.AppendTransaction(tx);
      if !ok {
        return;
      }
      RecentMore(Ring(), old(be.txs), held, tx);
      assert Ring()[0] == ringbuf[next];
      UpdateOldest(tx);
      Put(tx);
      held := Min(held + 1, RINGBUF_LEN);
    }

    method UpdateOldest(tx: Transaction)
      requires next < ringbuf.Length
      modifies this`oldestTxID
      ensures var o := if ringbuf[next].txID == old(oldestTxID) then old(oldestTxID) + 1 else old(oldestTxID);
              oldestTxID == if o == LATEST_VERSION then tx.txID else o
    {
      var txidToBeDeleted := ringbuf[next].txID;
      if txidToBeDeleted == oldestTxID {
        oldestTxID := txidToBeDeleted + 1;
      }
      if oldestTxID == LATEST_VERSION {
        oldestTxID := tx.txID;
      }
    }

    /** Overwrites the slot to be written next and moves on, around the end. */
    method Put(tx: Transaction)
      requires ringbuf.Length == RINGBUF_LEN && next < RINGBUF_LEN
      modifies this`next, ringbuf
      ensures next < RINGBUF_LEN && Ring() == old(Ring())[1..] + [tx]
    {
      ghost var was := ringbuf[..];
      ringbuf[next] := tx;
      assert ringbuf[..] == was[next := tx];
      next := next + 1;
      if next == RINGBUF_LEN {
        next := 0;
      }
    }

    method QueryCachedTransactions(minID: nat) returns (r: seq<Transaction>)
      requires Valid()
      ensures r == From(Ring(), minID)
    {
      r := Select(next, ringbuf.Length, minID, []);
      r := Select(0, next, minID, r);
      assert ringbuf[next..ringbuf.Length] == ringbuf[next..] && ringbuf[0..next] == ringbuf[..next];
      FromJoin(ringbuf[next..], ringbuf[..next], minID);
    }

    method Select(lo: nat, hi: nat, minID: nat, seen: seq<Transaction>) returns (r: seq<Transaction>)
      requires lo <= hi <= ringbuf.Length
      ensures r == seen + From(ringbuf[lo..hi], minID)
    {
      r := seen;
      for i := lo to hi
        invariant r == seen + From(ringbuf[lo..i], minID)
      {
        assert ringbuf[lo..i + 1] == ringbuf[lo..i] + [ringbuf[i]];
        FromLast(ringbuf[lo..i], ringbuf[i], minID);
        if ringbuf[i].txID >= minID {
          r := r + [ringbuf[i]];
        }
      }
    }

    /** The cache is never seen: every query is answered as by the log behind it. */
    method QueryTransactions(minID: nat) returns (r: seq<Transaction>)
      requires Valid()
      ensures r == From(be.txs, minID)
    {
      if minID < oldestTxID {
        r := be.QueryTransactions(minID);
      } else {
        r := QueryCachedTransactions(minID);
        RecentAnswer(Ring(), be.txs, held, minID);
      }
    }
  }
}
