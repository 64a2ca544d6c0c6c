/**
 The repair tool's pacer (DataPacer in cmd/test-tools/backfill_missing_oi.py): one thread,
 a clock that never goes back, a minimum gap between requests and a cap per window.
 */
module RepairPacer {
  import opened DataPool
  import opened Options

  /** How many events at the front are no longer inside the window. */
  function Gone(events: seq<int>, now: int, window: int): (n: nat)
    ensures n <= |events|
    ensures forall i: nat {:trigger Time(events, i)} :: i < n ==> now - Time(events, i) >= window
    ensures n < |events| ==> now - events[n] < window
  {
    Stale(events, now - window)
  }

  /** Neighbours are at least `gap` apart. */
  ghost predicate Gapped(log: seq<int>, gap: int) {
    forall i: nat {:trigger Time(log, i)} :: i + 1 < |log| ==> log[i + 1] - Time(log, i) >= gap
  }

  ghost predicate Rising(log: seq<int>) {
    forall i: nat, j: nat {:trigger Time(log, i), Time(log, j)} :: i <= j < |log| ==> Time(log, i) <= Time(log, j)
  }

  lemma {:induction false} OneMore(log: seq<int>, now: int, gap: int)
    requires Rising(log) && Gapped(log, gap) && (forall i: nat {:trigger Time(log, i)} :: i < |log| ==> Time(log, i) <= now)
    requires log != [] ==> now - log[|log| - 1] >= gap
    ensures Rising(log + [now]) && Gapped(log + [now], gap)
  {
    var next := log + [now];
    forall i: nat, j: nat {:trigger Time(next, i), Time(next, j)} | i <= j < |next| ensures Time(next, i) <= Time(next, j) {
      assert i < |log| ==> Time(log, i) == Time(next, i) <= now;
      assert j < |log| ==> Time(log, j) == Time(next, j);
    }
    forall i: nat {:trigger Time(next, i)} | i + 1 < |next| ensures next[i + 1] - Time(next, i) >= gap {
      assert Time(log, i) == Time(next, i);
    }
  }

  class DataPacer {
    const minGap: int
    const cap: nat
    const window: int
    var events: seq<int>
    var blockedUntil: int

    /** Every request let through, and the last reading of the clock. */
    ghost var log: seq<int>
    ghost var clock: int

    ghost predicate Valid()
      reads this
    {
      && cap > 0 && window > 0 && minGap >= 0
      && |events| <= cap && Tail(log, events, clock, window)
      && Rising(log) && Apart(log, cap, window) && Gapped(log, Min(minGap, window))
    }

    constructor (minGap: int, cap: nat, window: int, now: int)
      requires minGap >= 0 && cap > 0 && window > 0
      ensures Valid() && log == [] && this.minGap == minGap && this.cap == cap && this.window == window
    {
      this.minGap, this.cap, this.window := minGap, cap, window;
      events, blockedUntil, log, clock := [], now, [], now;
    }

    /** Drops the events that have left the window. */
    method Forget(now: int)
      requires Valid() && clock <= now
      modifies this`events, this`clock
      ensures Valid() && clock == now && |events| == old(|events|) - Gone(old(events), now, window)
      ensures events != [] ==> now - events[0] < window
    {
      var n := Gone(events, now, window);
      forall i: nat {:trigger Time(log, i)} | i < |log| - |events| + n ensures now - Time(log, i) >= window {
        if i >= |log| - |events| {
          assert Time(events, i - (|log| - |events|)) == Time(log, i);
        }
      }
      events := events[n..];
      clock := now;
    }

    /** One turn of the loop: 0 or less lets the request through, more is how long to sleep. */
    method Try(now: int) returns (wait: int)
      requires Valid() && clock <= now
      modifies this`events, this`log, this`clock
      ensures Valid() && clock == now
      ensures log == (if wait <= 0 then old(log) + [now] else old(log)) && now + wait >= blockedUntil
      ensures wait <= 0 <==>
        && blockedUntil <= now
        && (old(log) == [] || now - old(log)[|old(log)| - 1] >= Min(minGap, window))
        && |old(events)| - Gone(old(events), now, window) < cap
    {
      Forget(now);
      if log != [] {
        LastEvent();
      }
      wait := Max(0, blockedUntil - now);
      if |events| > 0 {
        wait := Max(wait, events[|events| - 1] + minGap - now);
      }
      if |events| >= cap {
        wait := Max(wait, events[0] + window - now);
      }
      if wait <= 0 {
        LetThrough(now);
      }
    }

    /** The last request is still an event, or it is a whole window ago. */
    lemma LastEvent()
      requires Valid() && log != []
      ensures if events == [] then clock - log[|log| - 1] >= window
              else log[|log| - 1] == events[|events| - 1] && events[0] <= events[|events| - 1]
    {
      assert Time(log, |log| - 1) == log[|log| - 1];
      assert events != [] ==> Time(log, |log| - |events|) == events[0];
    }

    method LetThrough(now: int)
      requires Valid() && clock == now && |events| < cap
      requires events != [] ==> now - events[|events| - 1] >= minGap
      modifies this`events, this`log
      ensures Valid() && log == old(log) + [now]
    {
      if log != [] {
        LastEvent();
      }
      OneMore(log, now, Min(minGap, window));
      MoreApart(log, now, cap, window, |events|);
      OneMoreEvent(log, events, now, clock, window);
      events := events + [now];
      log := log + [now];
    }

    /** A refusal by the exchange: a request may go only when the block in force and the new one are both over. */
    method PauseFor(now: int, seconds: int)
      requires Valid()
      modifies this`blockedUntil
      ensures Valid() && forall t :: Over(blockedUntil, t) <==> Over(old(blockedUntil), t) && Over(now + seconds, t)
    {
      blockedUntil := Max(blockedUntil, now + seconds);
    }
  }

  /** Until a block is over no request is let through, and a turn before its end sleeps to the end at least. */
  method BlockHolds(p: DataPacer, now: int, seconds: int, turns: seq<int>)
    requires p.Valid() && (turns != [] ==> p.clock <= turns[0])
    requires forall i, j :: 0 <= i <= j < |turns| ==> turns[i] <= turns[j] < now + seconds
    modifies p
    ensures p.Valid() && p.log == old(p.log)
  {
    p.PauseFor(now, seconds);
    assert Over(p.blockedUntil, p.blockedUntil);
    for k := 0 to |turns|
      invariant p.Valid() && p.log == old(p.log) && p.blockedUntil >= now + seconds
      invariant k < |turns| ==> p.clock <= turns[k]
    {
      var wait := p.Try(turns[k]);
      assert wait >= now + seconds - turns[k] > 0;
    }
  }
}
