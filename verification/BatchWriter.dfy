/**
 The asynchronous batching writer (internal/openinterest/writer.go), first as a
 ledger of values with one function per step of its run loop, then as the object
 whose methods take those steps.
 */
module Ledger {
  import opened Options

  /** A batch the flusher is done with: written to the store, or dropped after its retries. */
  datatype Settled<R> = Settled(rows: seq<R>, landed: bool)

  /**
   `dropped` is the loop's memory of a lost batch. `mark` is the number of batches
   settled when the last barrier replied; the code has no such counter, it is there
   to say what `dropped` remembers.
   */
  datatype Writer<R> = Writer(
    queue: seq<R>, batch: seq<R>, settled: seq<Settled<R>>, dropped: bool, mark: nat, draining: bool, stopped: bool)

  function Fresh<R>(): Writer<R> {
    Writer([], [], [], false, 0, false, false)
  }

  function RowsIn<R>(settled: seq<Settled<R>>, i: nat, j: nat): seq<R>
    requires i <= j <= |settled|
    decreases j
  {
    if i == j then [] else RowsIn(settled, i, j - 1) + settled[j - 1].rows
  }

  /** Every row ever accepted, in acceptance order: settled, then batched, then queued. */
  function Accepted<R>(w: Writer<R>): seq<R> {
    RowsIn(w.settled, 0, |w.settled|) + w.batch + w.queue
  }

  ghost predicate AllLanded<R>(settled: seq<Settled<R>>, i: nat) {
    forall k :: i <= k < |settled| ==> settled[k].landed
  }

  /** `dropped` says exactly whether a batch was lost since the last barrier. */
  ghost predicate Consistent<R>(w: Writer<R>) {
    w.mark <= |w.settled| && (w.dropped <==> !AllLanded(w.settled, w.mark))
  }

  // ---------------------------------------------------------------- steps

  function Push<R>(w: Writer<R>, r: R): Writer<R> {
    w.(queue := w.queue + [r])
  }

  /** Settles the current batch; an empty batch is left alone. */
  function Flush<R>(w: Writer<R>, ok: bool): Writer<R> {
    if w.batch == [] then w
    else w.(batch := [], settled := w.settled + [Settled(w.batch, ok)], dropped := w.dropped || !ok)
  }

  function TakeOne<R>(w: Writer<R>): Writer<R>
    requires w.queue != []
  {
    w.(batch := w.batch + [w.queue[0]], queue := w.queue[1..])
  }

  /** The loop receives a row, and flushes a batch that became full. */
  function Receive<R>(w: Writer<R>, batchSize: nat, ok: bool): Writer<R>
    requires w.queue != []
  {
    var t := TakeOne(w);
    if |t.batch| >= batchSize then Flush(t, ok) else t
  }

  function BeginBarrier<R>(w: Writer<R>): Writer<R> {
    w.(draining := true)
  }

  /** What the barrier answers: nil exactly if its own flush and every one since the last barrier landed. */
  function BarrierReply<R>(w: Writer<R>, ok: bool): bool {
    !Flush(w, ok).dropped
  }

  function EndBarrier<R>(w: Writer<R>, ok: bool): Writer<R> {
    var f := Flush(w, ok);
    f.(dropped := false, mark := |f.settled|, draining := false)
  }

  /** Everything queued moves into the batch. */
  function Drain<R>(w: Writer<R>): Writer<R> {
    w.(queue := [], batch := w.batch + w.queue)
  }

  /** The loop ends: what is queued is flushed once more. */
  function Stop<R>(w: Writer<R>, ok: bool): Writer<R> {
    Flush(Drain(w), ok).(stopped := true)
  }

  // ---------------------------------------------------------------- what every step keeps

  lemma {:induction false} RowsInPrefix<R>(a: seq<Settled<R>>, s: Settled<R>, i: nat, j: nat)
    requires i <= j <= |a|
    ensures RowsIn(a + [s], i, j) == RowsIn(a, i, j)
    decreases j
  {
    if i < j {
      RowsInPrefix(a, s, i, j - 1);
    }
  }

  /** Flushing loses, repeats and reorders no row, whether the batch lands or not. */
  lemma {:induction false} FlushKeeps<R>(w: Writer<R>, ok: bool)
    requires Consistent(w)
    ensures Consistent(Flush(w, ok)) && Accepted(Flush(w, ok)) == Accepted(w)
    ensures w.settled <= Flush(w, ok).settled
  {
    if w.batch != [] {
      var s := Settled(w.batch, ok);
      RowsInPrefix(w.settled, s, 0, |w.settled|);
      assert (w.settled + [s])[|w.settled|] == s;
      assert AllLanded(w.settled + [s], w.mark) <==> AllLanded(w.settled, w.mark) && ok by {
        assert forall k :: 0 <= k < |w.settled| ==> (w.settled + [s])[k] == w.settled[k];
      }
      var rows := RowsIn(w.settled, 0, |w.settled|);
      assert (rows + w.batch) + [] + w.queue == rows + w.batch + w.queue;
    }
  }

  lemma {:induction false} TakeOneKeeps<R>(w: Writer<R>)
    requires Consistent(w) && w.queue != []
    ensures Consistent(TakeOne(w)) && Accepted(TakeOne(w)) == Accepted(w)
  {
  }

  /** A row that is received is batched; the batch is settled when it is full, and only then. */
  lemma {:induction false} ReceiveFillsBatch<R>(w: Writer<R>, batchSize: nat, ok: bool)
    requires w.queue != []
    ensures var t, full := Receive(w, batchSize, ok), w.batch + [w.queue[0]];
            && t.queue == w.queue[1..] && (|w.batch| < batchSize ==> |t.batch| < batchSize)
            && (if |full| < batchSize then t.batch == full && t.settled == w.settled
                else t.batch == [] && t.settled == w.settled + [Settled(full, ok)])
  {
  }

  lemma {:induction false} DrainKeeps<R>(w: Writer<R>)
    requires Consistent(w)
    ensures Consistent(Drain(w)) && Accepted(Drain(w)) == Accepted(w)
  {
  }

  lemma {:induction false} PushAppends<R>(w: Writer<R>, r: R)
    requires Consistent(w)
    ensures Consistent(Push(w, r)) && Accepted(Push(w, r)) == Accepted(w) + [r]
  {
  }

  /**
   The barrier's answer. Once the queue is drained, nil means that every batch settled
   since the previous barrier landed, so every row still open then is in the store.
   */
  lemma {:induction false} BarrierIsHonest<R>(w: Writer<R>, ok: bool)
    requires Consistent(w) && w.queue == []
    ensures var e := EndBarrier(w, ok);
            && Consistent(e) && Accepted(e) == Accepted(w) == RowsIn(e.settled, 0, |e.settled|)
            && w.settled <= e.settled
            && (BarrierReply(w, ok) <==> AllLanded(e.settled, w.mark))
  {
    FlushKeeps(w, ok);
    var f := Flush(w, ok);
    var rows := RowsIn(f.settled, 0, |f.settled|);
    assert f.batch == [] && f.queue == [] && rows + [] + [] == rows;
  }
}

/** The writer as an object: each method takes one step of the run loop. */
module BatchWriters {
  import opened Ledger
  import opened Options

  /**
   Tries one batch up to 1 + maxRetries times. `attempt(k)` is the outcome of the k-th
   try, `cancelled(k)` whether the context has ended after it.
   */
  method FlushWithRetry(maxRetries: nat, attempt: nat -> bool, cancelled: nat -> bool) returns (ok: bool)
    ensures ok <==> exists k: nat ::
      k <= maxRetries && attempt(k) && forall j: nat :: j < k ==> !attempt(j) && !cancelled(j)
  {
    for k := 0 to maxRetries + 1
      invariant forall j: nat :: j < k ==> !attempt(j) && !cancelled(j)
    {
      if attempt(k) {
        return true;
      }
      if k == maxRetries || cancelled(k) {
        return false;
      }
    }
    ok := false;
  }

  class BatchWriter<R> {
    const batchSize: nat
    var queue: seq<R>
    var batch: seq<R>
    var dropped: bool
    var closed: bool
    var stopped: bool
    ghost var settled: seq<Settled<R>>
    ghost var mark: nat

    ghost function State(): Writer<R>
      reads this
    {
      Writer(queue, batch, settled, dropped, mark, false, stopped)
    }

    ghost predicate Valid()
      reads this
    {
      Consistent(State())
    }

    constructor (batchSize: nat)
      ensures Valid() && State() == Fresh() && !closed && this.batchSize == batchSize
    {
      this.batchSize := batchSize;
      queue, batch, dropped, closed, stopped := [], [], false, false, false;
      settled, mark := [], 0;
    }

    /** `room` is whether the queue had room before the caller's context ended. */
    method Push(r: R, acceptable: bool, room: bool) returns (ok: bool)
      requires Valid()
      modifies this`queue
      ensures Valid() && ok == (acceptable && !closed && room)
      ensures State() == if ok then Ledger.Push(old(State()), r) else old(State())
    {
      ok := acceptable && !closed && room;
      if ok {
        PushAppends(State(), r);
        queue := queue + [r];
      }
    }

    /** `landed` is the outcome of the retries, see FlushWithRetry. */
    method FlushBatch(landed: bool)
      requires Valid()
      modifies this`batch, this`dropped, this`settled
      ensures Valid() && State() == Flush(old(State()), landed)
      ensures batch == [] && settled == old(settled) + if old(batch) == [] then [] else [Settled(old(batch), landed)]
    {
      FlushKeeps(State(), landed);
      if |batch| > 0 {
        settled := settled + [Settled(batch, landed)];
        batch := [];
        if !landed {
          dropped := true;
        }
      }
    }

    method ReceiveOne(landed: bool)
      requires Valid() && queue != []
      modifies this`queue, this`batch, this`dropped, this`settled
      ensures Valid() && State() == Receive(old(State()), batchSize, landed)
      ensures queue == old(queue)[1..]
      ensures if |old(batch)| + 1 < batchSize then batch == old(batch) + [old(queue)[0]] && settled == old(settled)
              else batch == [] && settled == old(settled) + [Settled(old(batch) + [old(queue)[0]], landed)]
    {
      TakeOneKeeps(State());
      batch, queue := batch + [queue[0]], queue[1..];
      if |batch| >= batchSize {
        FlushBatch(landed);
      }
    }

    /** Moves the whole queue into the batch. */
    method Drain()
      requires Valid()
      modifies this`queue, this`batch
      ensures Valid() && State() == Ledger.Drain(old(State()))
      ensures Accepted(State()) == old(Accepted(State()))
    {
      DrainKeeps(State());
      while queue != []
        invariant batch + queue == old(batch) + old(queue)
        decreases |queue|
      {
        assert batch + queue == (batch + [queue[0]]) + queue[1..];
        batch, queue := batch + [queue[0]], queue[1..];
      }
    }

    /**
     Serves one flush barrier. The answer is nil exactly if no batch was lost since the
     previous barrier; then every row accepted since that barrier is in the store.
     */
    method ServeBarrier(landed: bool) returns (nil: bool)
      requires Valid()
      modifies this`queue, this`batch, this`dropped, this`settled, this`mark
      ensures Valid() && queue == [] && batch == [] && !dropped
      ensures Accepted(State()) == old(Accepted(State())) == RowsIn(settled, 0, |settled|)
      ensures old(settled) <= settled && mark == |settled|
      ensures nil <==> AllLanded(settled, old(mark))
    {
      Drain();
      BarrierIsHonest(State(), landed);
      FlushBatch(landed);
      nil := !dropped;
      dropped := false;
      mark := |settled|;
    }

    /** Stops the loop: what is queued is flushed once more, and nothing is lost from the ledger. */
    method Close(landed: bool)
      requires Valid()
      modifies this
      ensures Valid() && closed && stopped && State() == Stop(old(State()), landed)
      ensures queue == [] && batch == []
      ensures Accepted(State()) == old(Accepted(State())) == RowsIn(settled, 0, |settled|)
    {
      closed := true;
      Drain();
      FlushKeeps(State(), landed);
      FlushBatch(landed);
      stopped := true;
      var rows := RowsIn(settled, 0, |settled|);
      assert rows + [] + [] == rows;
    }
  }
}
