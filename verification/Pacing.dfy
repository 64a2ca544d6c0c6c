/**
 When a pass starts and how its fetches are spread (nextReconcileTime and pacer in
 internal/openinterest/hist.go).
 */
module Pacing {
  import opened Multiples
  import opened Options

  /** The first instant after `now` that lies `offset` past a whole interval. */
  function NextReconcileTime(now: int, interval: int, offset: int): (t: int)
    requires 0 <= offset < interval
    ensures t - interval <= now < t
  {
    var t := now - now % interval + offset;
    if t <= now then t + interval else t
  }

  lemma {:induction false} NextReconcileIsFirst(now: int, interval: int, offset: int, u: int)
    requires 0 <= offset < interval
    ensures Multiple(NextReconcileTime(now, interval, offset) - offset, interval)
    ensures u > now && Multiple(u - offset, interval) ==> NextReconcileTime(now, interval, offset) <= u
  {
    var t, floor := NextReconcileTime(now, interval, offset), now - now % interval;
    assert Multiple(floor, interval) by { assert floor == (now / interval) * interval; }
    MultipleShift(floor + interval, interval);
    if u > now && Multiple(u - offset, interval) && u < t {
      MultiplesApart(u - offset, t - offset, interval);
    }
  }

  function Slot(s: seq<int>, i: nat): int
    requires i < |s|
  {
    s[i]
  }

  /** Neighbouring calls are at least a step apart. */
  ghost predicate StepApart(slots: seq<int>, step: int) {
    forall i: nat {:trigger Slot(slots, i)} :: i + 1 < |slots| ==> Slot(slots, i) + step <= slots[i + 1]
  }

  /** The k-th slot of callers whose clocks read `nows`. */
  function SlotOf(nows: seq<int>, start: int, step: int, k: nat): int
    requires k < |nows|
  {
    var due := if k == 0 then start else SlotOf(nows, start, step, k - 1) + step;
    if due < nows[k] then nows[k] else due
  }

  lemma {:induction false} SlotOfPrefix(nows: seq<int>, now: int, start: int, step: int, k: nat)
    requires k < |nows|
    ensures SlotOf(nows + [now], start, step, k) == SlotOf(nows, start, step, k)
  {
    if k > 0 {
      SlotOfPrefix(nows, now, start, step, k - 1);
    }
  }

  /** Every slot is the one `SlotOf` gives for the clocks of the callers so far. */
  ghost predicate AreSlots(slots: seq<int>, nows: seq<int>, start: int, step: int) {
    |slots| == |nows| && forall k: nat {:trigger Slot(slots, k)} :: k < |slots| ==> Slot(slots, k) == SlotOf(nows, start, step, k)
  }

  lemma {:induction false} OneMoreSlot(slots: seq<int>, nows: seq<int>, start: int, step: int, now: int, t: int)
    requires AreSlots(slots, nows, start, step) && StepApart(slots, step)
    requires var due := if slots == [] then start else slots[|slots| - 1] + step; t == if due < now then now else due
    ensures AreSlots(slots + [t], nows + [now], start, step) && StepApart(slots + [t], step)
  {
    var more := slots + [t];
    assert slots != [] ==> Slot(slots, |slots| - 1) == SlotOf(nows, start, step, |slots| - 1);
    forall k: nat {:trigger Slot(more, k)} | k < |more|
      ensures Slot(more, k) == SlotOf(nows + [now], start, step, k) && (k + 1 < |more| ==> Slot(more, k) + step <= more[k + 1])
    {
      if k < |slots| {
        SlotOfPrefix(nows, now, start, step, k);
        assert Slot(more, k) == Slot(slots, k);
      } else if k > 0 {
        SlotOfPrefix(nows, now, start, step, k - 1);
      }
    }
  }

  class Pacer {
    const step: int
    const start: int
    var next: int

    /** The slot granted to every call so far, and the clock each call came with. */
    ghost var slots: seq<int>
    ghost var nows: seq<int>

    ghost predicate Valid()
      reads this
    {
      && AreSlots(slots, nows, start, step) && StepApart(slots, step)
      && next == if slots == [] then start else slots[|slots| - 1] + step
    }

    constructor (step: int, now: int)
      ensures Valid() && slots == [] && this.step == step && start == now
    {
      this.step, start, next := step, now, now;
      slots, nows := [], [];
    }

    /** Grants the next slot, until which the caller sleeps; without a step nobody waits. */
    method Wait(now: int) returns (t: int)
      requires Valid()
      modifies this
      ensures Valid()
      ensures step <= 0 ==> t == now && slots == old(slots) && nows == old(nows)
      ensures step > 0 ==>
        slots == old(slots) + [t] && nows == old(nows) + [now] && t >= now && t >= old(next) && (t == now || t == old(next))
    {
      if step <= 0 {
        return now;
      }
      t := next;
      if t < now {
        t := now;
      }
      next := t + step;
      OneMoreSlot(slots, nows, start, step, now, t);
      slots, nows := slots + [t], nows + [now];
    }
  }

  /** However many workers call, any two calls are their distance in steps apart. */
  lemma {:induction false} SpreadOut(slots: seq<int>, step: int, i: nat, j: nat)
    requires StepApart(slots, step) && i <= j < |slots|
    ensures slots[j] - slots[i] >= (j - i) * step
    decreases j
  {
    if i < j {
      SpreadOut(slots, step, i, j - 1);
      assert Slot(slots, j - 1) + step <= slots[j];
    }
  }

  /** Workers that keep up get exactly the evenly spaced timeline, all of it inside the spread. */
  lemma {:induction false} OnTime(nows: seq<int>, start: int, step: int, k: nat)
    requires k < |nows| && step >= 0 && forall m: nat :: m < |nows| ==> nows[m] <= start + m * step
    ensures SlotOf(nows, start, step, k) == start + k * step
  {
    if k > 0 {
      OnTime(nows, start, step, k - 1);
      assert (k - 1) * step + step == k * step;
    }
  }

  lemma {:induction false} InsideSpread(nows: seq<int>, start: int, spread: int)
    requires nows != [] && spread >= 0 && forall m: nat :: m < |nows| ==> nows[m] <= start + m * (spread / |nows|)
    ensures SlotOf(nows, start, spread / |nows|, |nows| - 1) <= start + spread
  {
    var n, step := |nows|, spread / |nows|;
    OnTime(nows, start, step, n - 1);
    assert n * step <= spread && (n - 1) * step <= n * step;
  }
}
