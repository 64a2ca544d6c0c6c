/**
 Admission to the shared request pool (DataPool in internal/openinterest/limiter.go): at
 most `cap` requests in any window. Callers read the clock before they take the lock, so
 the instants that are recorded may be out of order by up to `skew`.
 */
module DataPool {
  import opened Options

  function Time(s: seq<int>, i: nat): int
    requires i < |s|
  {
    s[i]
  }

  /** How many entries at the front are not after the cutoff. */
  function Stale(times: seq<int>, cutoff: int): (n: nat)
    ensures n <= |times| && (n < |times| ==> times[n] > cutoff)
    ensures forall i: nat {:trigger Time(times, i)} :: i < n ==> Time(times, i) <= cutoff
  {
    StaleFrom(times, cutoff, 0)
  }

  function StaleFrom(times: seq<int>, cutoff: int, i: nat): (n: nat)
    requires i <= |times|
    ensures i <= n <= |times| && (n < |times| ==> times[n] > cutoff)
    ensures forall k: nat {:trigger Time(times, k)} :: i <= k < n ==> Time(times, k) <= cutoff
    decreases |times| - i
  {
    if i < |times| && times[i] <= cutoff then StaleFrom(times, cutoff, i + 1) else i
  }

  /** Requests `cap` places apart are a whole window apart, up to the skew. */
  ghost predicate Apart(log: seq<int>, cap: nat, span: int) {
    forall i: nat, j: nat {:trigger Time(log, i), Time(log, j)} :: i + cap <= j < |log| ==> Time(log, j) - Time(log, i) >= span
  }

  /** Admitting one more while fewer than `cap` are kept, the others a whole span ago. */
  lemma {:induction false} MoreApart(log: seq<int>, now: int, cap: nat, span: int, kept: nat)
    requires Apart(log, cap, span) && kept < cap && kept <= |log|
    requires forall i: nat {:trigger Time(log, i)} :: i < |log| - kept ==> now - Time(log, i) >= span
    ensures Apart(log + [now], cap, span)
  {
    var next := log + [now];
    forall i: nat, j: nat {:trigger Time(next, i), Time(next, j)} | i + cap <= j < |next| ensures Time(next, j) - Time(next, i) >= span {
      assert Time(log, i) == Time(next, i);
      assert j < |log| ==> Time(log, j) == Time(next, j);
    }
  }

  /**
   One turn of Wait: the clock before, the clock at every request that other callers count
   while this one sleeps or waits for its token, and the clock after.
   */
  datatype Turn = Turn(now: int, others: seq<int>, after: int)

  /** Readings may be out of order by no more than the skew. */
  ghost predicate Skewed(s: seq<int>, skew: int) {
    forall i: nat, j: nat {:trigger Time(s, i), Time(s, j)} :: i < j < |s| ==> Time(s, i) <= Time(s, j) + skew
  }

  /** No reading from `from` on is behind `latest` by more than the skew. */
  ghost predicate Ahead(all: seq<int>, from: nat, latest: int, skew: int) {
    forall i: nat {:trigger Time(all, i)} :: from <= i < |all| ==> latest <= Time(all, i) + skew
  }

  lemma {:induction false} ReadNext(all: seq<int>, from: nat, latest: int, skew: int)
    requires Skewed(all, skew) && Ahead(all, from, latest, skew) && from < |all|
    ensures latest <= all[from] + skew && Ahead(all, from + 1, if latest < all[from] then all[from] else latest, skew)
  {
    assert latest <= Time(all, from) + skew;
  }

  /** The readings of one turn lie in `all` from position `from` on. */
  ghost predicate Holds(all: seq<int>, from: nat, turn: Turn) {
    forall u {:trigger Unfold(u)} :: Unfold(u) ==>
      var m := |turn.others|;
      && from + m + 2 <= |all| && all[from] == turn.now
      && all[from + 1..from + 1 + m] == turn.others && all[from + 1 + m] == turn.after
  }

  /** What is read from `from` on comes in an order the skew allows. */
  ghost predicate InStep(all: seq<int>, from: nat, latest: int, skew: int) {
    forall u {:trigger Unfold(u)} :: Unfold(u) ==> Skewed(all, skew) && Ahead(all, from, latest, skew)
  }

  /** The events are the tail of the log; what is before them has left the window. */
  ghost predicate Tail(log: seq<int>, events: seq<int>, clock: int, window: int) {
    && |events| <= |log| && events == log[|log| - |events|..]
    && (forall i: nat {:trigger Time(log, i)} :: i < |log| ==> Time(log, i) <= clock)
    && (forall i: nat {:trigger Time(log, i)} :: i < |log| - |events| ==> Time(log, i) + window <= clock)
  }

  lemma {:induction false} OneMoreEvent(log: seq<int>, events: seq<int>, now: int, clock: int, window: int)
    requires Tail(log, events, clock, window) && now <= clock
    ensures Tail(log + [now], events + [now], clock, window)
  {
    var next := log + [now];
    assert events + [now] == next[|next| - |events + [now]|..];
    forall i: nat {:trigger Time(next, i)} | i < |next|
      ensures Time(next, i) <= clock && (i < |log| - |events| ==> Time(next, i) + window <= clock)
    {
      assert i < |log| ==> Time(next, i) == Time(log, i);
    }
  }

  /** Where the readings of the k-th turn begin. */
  function Where(turns: seq<Turn>, k: nat): nat
    requires k <= |turns|
  {
    if k == 0 then 0 else Where(turns, k - 1) + |turns[k - 1].others| + 2
  }

  /** `all` lists the readings of the turns in the order in which the pool sees them. */
  ghost predicate Readings(turns: seq<Turn>, all: seq<int>) {
    forall k: nat :: k < |turns| ==> Holds(all, Where(turns, k), turns[k])
  }

  /** The log has grown by what others counted, and by one request of this caller, last, if it was admitted. */
  ghost predicate Grown(log: seq<int>, log': seq<int>, foreign: nat, admitted: bool, at: int) {
    && log <= log' && |log'| == |log| + foreign + (if admitted then 1 else 0)
    && (admitted ==> log'[|log'| - 1] == at)
  }

  /** A block that ends at `until` is over. */
  predicate Over(until: int, t: int) {
    until <= t
  }

  /** Of the first `n` requests the `cap` newest reach back less than a window before `t`. */
  ghost predicate Full(log: seq<int>, n: nat, cap: nat, window: int, t: int) {
    cap <= n <= |log| && (cap > 0 ==> t < Time(log, n - cap) + window)
  }

  /** The window was full for `t` at some moment since the first `from` requests had been counted. */
  ghost predicate WasFull(log: seq<int>, from: nat, cap: nat, window: int, t: int) {
    exists n: nat :: from <= n && Full(log, n, cap, window, t)
  }

  lemma {:induction false} WasFullStays(log: seq<int>, log': seq<int>, from: nat, from': nat, cap: nat, window: int, t: int)
    requires WasFull(log, from, cap, window, t) && log <= log' && from' <= from
    ensures WasFull(log', from', cap, window, t)
  {
    var n: nat :| from <= n && Full(log, n, cap, window, t);
    assert Full(log', n, cap, window, t) by { assert cap > 0 ==> Time(log', n - cap) == Time(log, n - cap); }
  }

  /** A pause until `until` is in force at `t`. */
  predicate Paused(until: int, t: int) {
    until != 0 && t < until
  }

  /** What can turn a request away: a pause, or a full window, before the token or after it. */
  ghost predicate Held(log: seq<int>, from: nat, cap: nat, window: int, until: int, turn: Turn) {
    || Paused(until, turn.now) || Paused(until, turn.after)
    || WasFull(log, from, cap, window, turn.now) || WasFull(log, from, cap, window, turn.after)
  }

  /** Every one of the first `n` turns was held up. */
  ghost predicate AllHeld(log: seq<int>, from: nat, cap: nat, window: int, until: int, turns: seq<Turn>, n: nat)
    requires n <= |turns|
  {
    forall u {:trigger Unfold(u)} :: Unfold(u) ==> forall k: nat :: k < n ==> Held(log, from, cap, window, until, turns[k])
  }

  /** One turn more was held up, while the log grew. */
  lemma {:induction false} OneMoreHeld(log: seq<int>, mid: nat, log': seq<int>, from: nat, cap: nat, window: int, until: int,
                                       turns: seq<Turn>, n: nat)
    requires n < |turns| && AllHeld(log, from, cap, window, until, turns, n) && log <= log' && from <= mid
    requires Held(log', mid, cap, window, until, turns[n])
    ensures AllHeld(log', from, cap, window, until, turns, n + 1)
  {
    assert Unfold(0);
    forall k: nat | k <= n ensures Held(log', from, cap, window, until, turns[k]) {
      HeldStays(if k == n then log' else log, log', from, if k == n then mid else from, cap, window, until, turns[k]);
    }
  }

  lemma {:induction false} AllHeldStays(log: seq<int>, log': seq<int>, from: nat, cap: nat, window: int, until: int,
                                       turns: seq<Turn>, n: nat)
    requires n <= |turns| && AllHeld(log, from, cap, window, until, turns, n) && log <= log'
    ensures AllHeld(log', from, cap, window, until, turns, n)
  {
    assert Unfold(0);
    forall k: nat | k < n ensures Held(log', from, cap, window, until, turns[k]) {
      HeldStays(log, log', from, from, cap, window, until, turns[k]);
    }
  }

  lemma {:induction false} HeldStays(log: seq<int>, log': seq<int>, from: nat, mid: nat, cap: nat, window: int, until: int, turn: Turn)
    requires Held(log, mid, cap, window, until, turn) && log <= log' && from <= mid
    ensures Held(log', from, cap, window, until, turn)
  {
    if WasFull(log, mid, cap, window, turn.now) {
      WasFullStays(log, log', mid, from, cap, window, turn.now);
    }
    if WasFull(log, mid, cap, window, turn.after) {
      WasFullStays(log, log', mid, from, cap, window, turn.after);
    }
  }

  class Pool {
    const window: int
    const cap: nat
    ghost const skew: int
    var times: seq<int>
    var pausedUntil: int

    /** Every request ever admitted, and the latest clock reading seen so far. */
    ghost var log: seq<int>
    ghost var latest: int

    ghost predicate Valid()
      reads this
    {
      && cap > 0 && window > 0 && skew >= 0
      && |times| <= cap && Tail(log, times, latest, window)
      && Apart(log, cap, window - skew)
    }

    constructor (window: int, cap: nat, ghost skew: int)
      requires cap > 0 && window > 0 && skew >= 0
      ensures Valid() && log == [] && this.window == window && this.cap == cap && this.skew == skew
    {
      this.window, this.cap, this.skew := window, cap, skew;
      times, pausedUntil, log, latest := [], 0, [], 0;
    }

    method Prune(now: int)
      requires Valid() && latest <= now + skew
      modifies this`times, this`latest
      ensures Valid() && latest == if old(latest) < now then now else old(latest)
      ensures times == old(times)[Stale(old(times), now - window)..]
      ensures |times| <= old(|times|)
    {
      latest := if latest < now then now else latest;
      var n := Stale(times, now - window);
      forall i: nat {:trigger Time(log, i)} | i < |log| - |times| + n ensures Time(log, i) + window <= latest {
        if i >= |log| - |times| {
          assert Time(times, i - (|log| - |times|)) == Time(log, i);
        }
      }
      times := times[n..];
    }

    /** How long until the window has room; 0 when it has. */
    method WindowWait(now: int) returns (d: int)
      requires Valid() && latest <= now + skew
      modifies this`times, this`latest
      ensures Valid() && latest == if old(latest) < now then now else old(latest)
      ensures times == old(times)[Stale(old(times), now - window)..]
      ensures d == 0 <==> |times| < cap
      ensures d != 0 ==> Full(log, |log|, cap, window, now)
      ensures d == 0 ==> !Full(log, |log|, cap, window, latest)
      ensures d != 0 ==> d >= 1 && now + d >= times[0] + window
    {
      Prune(now);
      if |times| < cap {
        return 0;
      }
      d := times[0] + window - now;
      if d < 1 {
        d := 1;
      }
    }

    /** Counts one request, unless the window is full. */
    method Record(now: int) returns (ok: bool)
      requires Valid() && latest <= now + skew
      modifies this`times, this`latest, this`log
      ensures Valid() && latest == if old(latest) < now then now else old(latest)
      ensures ok <==> |old(times)| - Stale(old(times), now - window) < cap
      ensures log == if ok then old(log) + [now] else old(log)
      ensures !ok ==> Full(log, |log|, cap, window, now)
    {
      Prune(now);
      if |times| >= cap {
        return false;
      }
      MoreApart(log, now, cap, window - skew, |times|);
      OneMoreEvent(log, times, now, latest, window);
      times := times + [now];
      log := log + [now];
      ok := true;
    }

    /** A pause only ever gets longer: requests may go when the one in force and the new one are both over. */
    method PauseFor(now: int, d: int)
      modifies this`pausedUntil
      ensures forall t :: Over(pausedUntil, t) <==> Over(old(pausedUntil), t) && (d > 0 ==> Over(now + d, t))
    {
      if d <= 0 {
        return;
      }
      if now + d > pausedUntil {
        pausedUntil := now + d;
      }
    }

    method PauseRemaining(now: int) returns (d: int)
      ensures d == if pausedUntil == 0 then 0 else pausedUntil - now
    {
      d := if pausedUntil == 0 then 0 else pausedUntil - now;
    }

    /** Other callers count their requests, those that find room. */
    method CountOthers(others: seq<int>, ghost all: seq<int>, ghost from: nat) returns (ghost foreign: nat)
      requires Valid() && Skewed(all, skew) && from + |others| <= |all| && all[from..from + |others|] == others
      requires Ahead(all, from, latest, skew)
      modifies this`times, this`latest, this`log
      ensures Valid() && Grown(old(log), log, foreign, false, 0) && foreign <= |others| && Ahead(all, from + |others|, latest, skew)
      ensures foreign < |others| ==> exists k: nat :: k < |others| && WasFull(log, |old(log)|, cap, window, Time(others, k))
    {
      foreign := 0;
      for k := 0 to |others|
        invariant Valid() && Grown(old(log), log, foreign, false, 0) && foreign <= k && Ahead(all, from + k, latest, skew)
        invariant foreign < k ==> exists j: nat :: j < k && WasFull(log, |old(log)|, cap, window, Time(others, j))
      {
        ghost var before := log;
        assert all[from + k] == all[from..from + |others|][k];
        ReadNext(all, from + k, latest, skew);
        var ok := Record(others[k]);
        if ok {
          foreign := foreign + 1;
        } else {
          assert WasFull(log, |old(log)|, cap, window, Time(others, k));
        }
        forall j: nat | j < k && WasFull(before, |old(log)|, cap, window, Time(others, j))
          ensures WasFull(log, |old(log)|, cap, window, Time(others, j))
        {
          WasFullStays(before, log, |old(log)|, |old(log)|, cap, window, Time(others, j));
        }
      }
    }

    /** The wait for a token, in which others count their requests, and what follows it. */
    method TakeToken(turn: Turn, ghost all: seq<int>, ghost from: nat) returns (admitted: bool, ghost foreign: nat)
      requires Valid() && Skewed(all, skew) && Holds(all, from, turn) && Ahead(all, from + 1, latest, skew)
      modifies this`times, this`latest, this`log
      ensures Valid() && Ahead(all, from + |turn.others| + 2, latest, skew)
      ensures Grown(old(log), log, foreign, admitted, turn.after)
      ensures admitted ==> !Paused(pausedUntil, turn.after)
      ensures !admitted ==> Paused(pausedUntil, turn.after) || WasFull(log, |old(log)|, cap, window, turn.after)
      ensures foreign < |turn.others| ==> exists k: nat :: k < |turn.others| && WasFull(log, |old(log)|, cap, window, Time(turn.others, k))
    {
      assert Unfold(0);
      admitted := false;
      foreign := CountOthers(turn.others, all, from + 1);
      var paused := PauseRemaining(turn.after);
      if paused > 0 {
        return;
      }
      ReadNext(all, from + 1 + |turn.others|, latest, skew);
      ghost var before := log;
      admitted := Record(turn.after);
      if k: nat :| k < |turn.others| && WasFull(before, |old(log)|, cap, window, Time(turn.others, k)) {
        WasFullStays(before, log, |old(log)|, |old(log)|, cap, window, Time(turn.others, k));
      }
    }

    /** One turn: it ends with a sleep, or with a token after a delay; others count their requests meanwhile. */
    method OneTurn(turn: Turn, ghost all: seq<int>, ghost from: nat) returns (admitted: bool, ghost foreign: nat)
      requires Valid() && Holds(all, from, turn) && InStep(all, from, latest, skew)
      modifies this`times, this`latest, this`log
      ensures Valid() && InStep(all, from + |turn.others| + 2, latest, skew)
      ensures Grown(old(log), log, foreign, admitted, turn.after)
      ensures admitted ==> !Paused(pausedUntil, turn.now) && !Paused(pausedUntil, turn.after)
      ensures admitted ==> !Full(old(log), |old(log)|, cap, window, if old(latest) < turn.now then turn.now else old(latest))
      ensures foreign < |turn.others| ==> exists k: nat :: k < |turn.others| && WasFull(log, |old(log)|, cap, window, Time(turn.others, k))
      ensures !admitted ==> Held(log, |old(log)|, cap, window, pausedUntil, turn)
    {
      assert Unfold(0);
      admitted, foreign := false, 0;
      var paused := PauseRemaining(turn.now);
      if paused > 0 {
        foreign := CountOthers(turn.others, all, from + 1);
        return;
      }
      ReadNext(all, from, latest, skew);
      var d := WindowWait(turn.now);
      if d > 0 {
        assert WasFull(log, |old(log)|, cap, window, turn.now);
        ghost var before := log;
        foreign := CountOthers(turn.others, all, from + 1);
        WasFullStays(before, log, |old(log)|, |old(log)|, cap, window, turn.now);
        return;
      }
      admitted, foreign := TakeToken(turn, all, from);
    }

    /** The k-th turn of a wait that began when the log was `base`. */
    method NextTurn(turns: seq<Turn>, k: nat, ghost all: seq<int>, ghost base: seq<int>, ghost foreign: nat)
      returns (admitted: bool, ghost foreign': nat)
      requires Valid() && Readings(turns, all) && k < |turns| && InStep(all, Where(turns, k), latest, skew)
      requires Grown(base, log, foreign, false, 0) && AllHeld(log, |base|, cap, window, pausedUntil, turns, k)
      modifies this`times, this`latest, this`log
      ensures Valid() && InStep(all, Where(turns, k + 1), latest, skew)
      ensures Grown(base, log, foreign', admitted, turns[k].after)
      ensures admitted ==> !Paused(pausedUntil, turns[k].after) && AllHeld(log, |base|, cap, window, pausedUntil, turns, k)
      ensures !admitted ==> AllHeld(log, |base|, cap, window, pausedUntil, turns, k + 1)
    {
      ghost var before, more := log, 0;
      admitted, more := OneTurn(turns[k], all, Where(turns, k));
      foreign' := foreign + more;
      if admitted {
        AllHeldStays(before, log, |base|, cap, window, pausedUntil, turns, k);
      } else {
        OneMoreHeld(before, |before|, log, |base|, cap, window, pausedUntil, turns, k);
      }
    }

    /**
     Waits for one request. An admitted request has been counted once, after the others and
     outside any pause, in the first turn in which nothing held it up. One that is not
     admitted has not been counted, and every turn met a pause or a full window, the window
     possibly filled by others meanwhile.
     */
    method Wait(turns: seq<Turn>, ghost all: seq<int>) returns (admitted: bool, at: int, ghost foreign: nat)
      requires Valid() && Readings(turns, all) && InStep(all, 0, latest, skew)
      modifies this`times, this`latest, this`log
      ensures Valid() && Grown(old(log), log, foreign, admitted, at)
      ensures admitted ==> !Paused(pausedUntil, at)
      ensures admitted ==> exists k: nat :: k < |turns| && at == turns[k].after && AllHeld(log, |old(log)|, cap, window, pausedUntil, turns, k)
      ensures !admitted ==> AllHeld(log, |old(log)|, cap, window, pausedUntil, turns, |turns|)
    {
      admitted, foreign, at := false, 0, 0;
      for k := 0 to |turns|
        invariant Valid() && Grown(old(log), log, foreign, false, 0) && !admitted
        invariant InStep(all, Where(turns, k), latest, skew)
        invariant AllHeld(log, |old(log)|, cap, window, pausedUntil, turns, k)
      {
        at := turns[k].after;
        admitted, foreign := NextTurn(turns, k, all, old(log), foreign);
        if admitted {
          return;
        }
      }
    }
  }

  /** The number of admissions in [x, y) among the first `n`. */
  function CountIn(log: seq<int>, n: nat, x: int, y: int): nat
    requires n <= |log|
  {
    if n == 0 then 0 else CountIn(log, n - 1, x, y) + if x <= log[n - 1] < y then 1 else 0
  }

  lemma {:induction false} FirstIn(log: seq<int>, n: nat, x: int, y: int) returns (i: nat)
    requires n <= |log| && CountIn(log, n, x, y) > 0
    ensures i < n && x <= log[i] < y && CountIn(log, n, x, y) <= n - i
  {
    if CountIn(log, n - 1, x, y) > 0 {
      i := FirstIn(log, n - 1, x, y);
    } else {
      i := n - 1;
    }
  }

  /**
   The bound: no interval shorter than a window, less the skew, holds more than `cap`
   admitted requests. With instants in order that is any half-open window.
   */
  lemma {:induction false} AtMostCap(log: seq<int>, cap: nat, span: int, n: nat, x: int, y: int)
    requires Apart(log, cap, span) && n <= |log| && y - x <= span
    ensures CountIn(log, n, x, y) <= cap
  {
    if CountIn(log, n, x, y) > 0 {
      var i := FirstIn(log, n, x, y);
      if x <= log[n - 1] < y {
        assert i + cap <= n - 1 ==> Time(log, n - 1) - Time(log, i) >= span;
      } else {
        AtMostCap(log, cap, span, n - 1, x, y);
      }
    }
  }

  /** Sleeping for the delay that was returned is enough, if nobody else was admitted meanwhile. */
  lemma {:induction false} SleepMakesRoom(times: seq<int>, cap: nat, window: int, now: int, d: int, later: int)
    requires 0 < |times| <= cap && now + d >= times[0] + window && later >= now + d
    ensures |times| - Stale(times, later - window) < cap
  {
  }
}
