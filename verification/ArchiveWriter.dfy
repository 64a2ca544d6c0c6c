/**
 The kline archive's batching writer (internal/chwriter/writer.go). It keeps the same
 ledger as the open-interest writer, but fills batches while it drains, and its flush
 speaks only of the batches it wrote itself.
 */
module ArchiveWriter {
  import opened Ledger
  import opened Options

  /** No batch that was written is larger than the configured size. */
  ghost predicate Sized<R>(settled: seq<Settled<R>>, batchSize: nat) {
    forall k :: 0 <= k < |settled| ==> 0 < |settled[k].rows| <= batchSize
  }

  /** The batches written since there were `from` of them: the k-th one fared as `landed` says. */
  ghost predicate Outcomes<R>(settled: seq<Settled<R>>, from: nat, landed: nat -> bool) {
    forall i: nat :: from <= i < |settled| ==> settled[i].landed == landed(i - from)
  }

  lemma {:induction false} OneMoreLanded<R>(settled: seq<Settled<R>>, s: Settled<R>, from: nat)
    requires from <= |settled|
    ensures AllLanded(settled + [s], from) <==> AllLanded(settled, from) && s.landed
  {
    assert (settled + [s])[|settled|] == s;
    assert forall k :: 0 <= k < |settled| ==> (settled + [s])[k] == settled[k];
  }

  /** The rows of the first `n` batches that were written: what the archive has. */
  function Landed<R>(settled: seq<Settled<R>>, n: nat): seq<R>
    requires n <= |settled|
  {
    if n == 0 then [] else Landed(settled, n - 1) + if settled[n - 1].landed then settled[n - 1].rows else []
  }

  lemma {:induction false} LandedCount<R>(settled: seq<Settled<R>>, n: nat)
    requires n <= |settled| && forall k :: 0 <= k < |settled| ==> |settled[k].rows| > 0
    ensures |Landed(settled, n)| <= |RowsIn(settled, 0, n)|
    ensures |Landed(settled, n)| == |RowsIn(settled, 0, n)| <==> forall k :: 0 <= k < n ==> settled[k].landed
    ensures (forall k :: 0 <= k < n ==> settled[k].landed) ==> Landed(settled, n) == RowsIn(settled, 0, n)
  {
    if n > 0 {
      LandedCount(settled, n - 1);
    }
  }

  /**
   After batches that all landed, the archive has every row exactly if no batch was lost
   before them.
   */
  lemma {:induction false} NilIsWholeExactly<R>(before: seq<Settled<R>>, after: seq<Settled<R>>)
    requires before <= after && AllLanded(after, |before|) && forall k :: 0 <= k < |after| ==> |after[k].rows| > 0
    ensures Landed(after, |after|) == RowsIn(after, 0, |after|) <==> AllLanded(before, 0)
  {
    LandedCount(after, |after|);
  }

  class KlineWriter<R> {
    const batchSize: nat
    const channelSize: nat
    var queue: seq<R>
    var batch: seq<R>
    var closed: bool
    ghost var settled: seq<Settled<R>>

    ghost function State(): Writer<R>
      reads this
    {
      Writer(queue, batch, settled, !AllLanded(settled, 0), 0, false, closed)
    }

    ghost predicate Valid()
      reads this
    {
      batchSize > 0 && |batch| < batchSize && |queue| <= channelSize && Sized(settled, batchSize)
    }

    constructor (batchSize: nat, channelSize: nat)
      requires batchSize > 0
      ensures Valid() && !closed && Accepted(State()) == [] && settled == []
      ensures this.batchSize == batchSize && this.channelSize == channelSize
    {
      this.batchSize, this.channelSize := batchSize, channelSize;
      queue, batch, closed, settled := [], [], false, [];
    }

    /** Takes the row unless the writer is closed or its buffer is full. */
    method TryPush(r: R) returns (ok: bool)
      requires Valid()
      modifies this`queue
      ensures Valid() && ok == (!closed && |old(queue)| < channelSize)
      ensures Accepted(State()) == old(Accepted(State())) + if ok then [r] else []
    {
      ok := !closed && |queue| < channelSize;
      if ok {
        PushAppends(State(), r);
        queue := queue + [r];
      }
    }

    /** One flush of a batch; what it held is settled, written or lost. */
    method FlushBatch(landed: bool)
      requires 0 < |batch| <= batchSize && Sized(settled, batchSize) && |queue| <= channelSize
      modifies this`batch, this`settled
      ensures Valid() && batch == [] && settled == old(settled) + [Settled(old(batch), landed)]
      ensures Accepted(State()) == old(Accepted(State()))
    {
      FlushKeeps(State(), landed);
      settled := settled + [Settled(batch, landed)];
      batch := [];
    }

    /** Moves one row into the batch, and flushes a batch that became full. */
    method ReceiveOne(landed: bool) returns (flushed: bool)
      requires Valid() && queue != []
      modifies this`queue, this`batch, this`settled
      ensures Valid() && queue == old(queue)[1..]
      ensures flushed <==> |old(batch)| + 1 == batchSize
      ensures settled == old(settled) + if flushed then [Settled(old(batch) + [old(queue)[0]], landed)] else []
      ensures Accepted(State()) == old(Accepted(State()))
    {
      TakeOneKeeps(State());
      batch, queue := batch + [queue[0]], queue[1..];
      flushed := |batch| >= batchSize;
      if flushed {
        FlushBatch(landed);
      }
    }

    /**
     A manual flush; `landed(k)` is the outcome of its k-th batch. Everything queued is
     settled, in order and none twice. The answer is nil exactly if every batch written
     by this flush landed; batches lost before it do not count, so after nil the archive
     has every row ever accepted exactly if none was lost before.
     */
    method FlushNow(landed: nat -> bool) returns (nil: bool)
      requires Valid()
      modifies this`queue, this`batch, this`settled
      ensures Valid() && queue == [] && batch == []
      ensures Accepted(State()) == old(Accepted(State())) == RowsIn(settled, 0, |settled|)
      ensures old(settled) <= settled && (nil <==> AllLanded(settled, |old(settled)|))
      ensures Outcomes(settled, |old(settled)|, landed)
      ensures nil ==> (Landed(settled, |settled|) == Accepted(State()) <==> AllLanded(old(settled), 0))
    {
      nil := FlushAll(landed);
      if nil {
        NilIsWholeExactly(old(settled), settled);
      }
    }

    /** What a manual flush has done: `k` batches written since there were `from`, the k-th as `landed` says. */
    ghost predicate Flushed(landed: nat -> bool, from: nat, k: nat, nil: bool)
      reads this
    {
      |settled| == from + k && Outcomes(settled, from, landed) && (nil <==> AllLanded(settled, from))
    }

    /** Takes one row off the queue, and writes a batch when that fills it. */
    method FlushOne(landed: nat -> bool, ghost from: nat, k: nat, nil: bool) returns (k': nat, nil': bool)
      requires Valid() && queue != [] && Flushed(landed, from, k, nil)
      modifies this`queue, this`batch, this`settled
      ensures Valid() && Flushed(landed, from, k', nil') && |queue| < |old(queue)|
      ensures old(settled) <= settled && Accepted(State()) == old(Accepted(State()))
    {
      OneMoreLanded(settled, Settled(batch + [queue[0]], landed(k)), from);
      k', nil' := k, nil;
      var flushed := ReceiveOne(landed(k));
      if flushed {
        k', nil' := k + 1, nil && landed(k);
      } else {
        assert settled == old(settled);
      }
    }

    /** Writes what is left in the batch once the queue is empty. */
    method FlushRest(landed: nat -> bool, ghost from: nat, k: nat, nil: bool) returns (nil': bool)
      requires Valid() && queue == [] && Flushed(landed, from, k, nil)
      modifies this`batch, this`settled
      ensures Valid() && batch == [] && old(settled) <= settled
      ensures Outcomes(settled, from, landed) && from <= |settled| && (nil' <==> AllLanded(settled, from))
      ensures Accepted(State()) == old(Accepted(State())) == RowsIn(settled, 0, |settled|)
    {
      nil' := nil;
      if |batch| > 0 {
        OneMoreLanded(settled, Settled(batch, landed(k)), from);
        FlushBatch(landed(k));
        nil' := nil && landed(k);
      }
      var rows := RowsIn(settled, 0, |settled|);
      assert rows + [] + [] == rows;
    }

    /** The batches of a manual flush: full ones while the queue lasts, then what is left. */
    method FlushAll(landed: nat -> bool) returns (nil: bool)
      requires Valid()
      modifies this`queue, this`batch, this`settled
      ensures Valid() && queue == [] && batch == []
      ensures Accepted(State()) == old(Accepted(State())) == RowsIn(settled, 0, |settled|)
      ensures old(settled) <= settled && (nil <==> AllLanded(settled, |old(settled)|))
      ensures Outcomes(settled, |old(settled)|, landed)
    {
      nil := true;
      var k := 0;
      while queue != []
        invariant Valid() && Accepted(State()) == old(Accepted(State()))
        invariant old(settled) <= settled && Flushed(landed, |old(settled)|, k, nil)
        decreases |queue|
      {
        k, nil := FlushOne(landed, |old(settled)|, k, nil);
      }
      nil := FlushRest(landed, |old(settled)|, k, nil);
    }

    /** Shutdown: what is queued is flushed once more; no row is left in memory. */
    method Close(landed: nat -> bool)
      requires Valid()
      modifies this
      ensures Valid() && closed && queue == [] && batch == []
      ensures Accepted(State()) == old(Accepted(State())) == RowsIn(settled, 0, |settled|)
    {
      closed := true;
      var nil := FlushNow(landed);
    }
  }

  /** A batch lost in the background goes unreported: the next flush answers nil. */
  method FlushMissesEarlierLoss<R>(r: R) returns (w: KlineWriter<R>, nil: bool)
    ensures w.Valid() && Accepted(w.State()) == [r] && nil && Landed(w.settled, |w.settled|) == []
  {
    w := new KlineWriter(1, 1);
    var ok := w.TryPush(r);
    var flushed := w.ReceiveOne(false);
    assert !w.settled[0].landed;
    nil := w.FlushNow(k => true);
    assert !w.settled[0].landed;
  }
}
