/** When live snapshots are taken (nextRound, missedBoundary and Run in internal/openinterest/live.go). */
module LiveSchedule {
  import opened Align
  import opened Options

  datatype LiveConfig = LiveConfig(lead: int, acceptWindow: int, minRemaining: int, catchUp: int) {
    /** What Validate demands. */
    predicate Valid() {
      0 < minRemaining <= lead < BAR && 0 < acceptWindow < BAR
    }
  }

  predicate After(b: int, last: Option<int>) {
    last.None? || b > last.value
  }

  /** A boundary a round may still be started for at `now`. */
  predicate Eligible(cfg: LiveConfig, last: Option<int>, now: int, b: int) {
    OnGrid(b) && After(b, last) && b > now && b - now >= cfg.minRemaining
  }

  /**
   The next boundary is the first one that has not been taken and leaves enough time;
   its round starts `lead` before it, or at once when that is past.
   */
  function NextRound(cfg: LiveConfig, last: Option<int>, now: int): (r: (int, int))
    requires cfg.Valid() && (last.Some? ==> OnGrid(last.value))
    ensures Eligible(cfg, last, now, r.0) && forall b :: Eligible(cfg, last, now, b) ==> r.0 <= b
    ensures r.1 == Max(now, r.0 - cfg.lead) && r.1 <= r.0 - cfg.minRemaining
  {
    var next := FloorBar(now) + BAR;
    var late := if next - now < cfg.minRemaining then next + BAR else next;
    var boundary := if !After(late, last) then last.value + BAR else late;
    var start := boundary - cfg.lead;
    (boundary, if start < now then now else start)
  }

  /** The boundary just missed at start-up: the latest one, if it is recent and not taken. */
  function MissedBoundary(cfg: LiveConfig, last: Option<int>, now: int): (m: Option<int>)
    ensures m.Some? ==> OnGrid(m.value) && After(m.value, last) && m.value <= now <= m.value + cfg.catchUp
    ensures m.None? ==> forall b :: OnGrid(b) && After(b, last) && b <= now <= b + cfg.catchUp ==> b < FloorBar(now)
  {
    var b := FloorBar(now);
    if now - b > cfg.catchUp || !After(b, last) then None else Some(b)
  }

  /** The round after boundary `b` is the next bar's exactly if the clock leaves enough time for it. */
  lemma {:induction false} NoneSkippedExactly(cfg: LiveConfig, b: int, now: int)
    requires cfg.Valid() && OnGrid(b)
    ensures NextRound(cfg, Some(b), now).0 == b + BAR <==> now + cfg.minRemaining <= b + BAR
  {
  }

  function Boundary(s: seq<int>, i: nat): int
    requires i < |s|
  {
    s[i]
  }

  ghost predicate Rising(s: seq<int>) {
    forall i: nat, j: nat {:trigger Boundary(s, i), Boundary(s, j)} :: i < j < |s| ==> Boundary(s, i) < Boundary(s, j)
  }

  class Live {
    const cfg: LiveConfig
    var lastBoundary: Option<int>

    /** Every boundary snapshotted so far. */
    ghost var taken: seq<int>

    ghost predicate Valid()
      reads this
    {
      && cfg.Valid() && Rising(taken) && (forall i: nat {:trigger Boundary(taken, i)} :: i < |taken| ==> OnGrid(Boundary(taken, i)))
      && lastBoundary == (if taken == [] then None else Some(taken[|taken| - 1]))
    }

    constructor (cfg: LiveConfig)
      requires cfg.Valid()
      ensures Valid() && this.cfg == cfg && taken == []
    {
      this.cfg := cfg;
      lastBoundary, taken := None, [];
    }

    method Take(b: int)
      requires Valid() && OnGrid(b) && After(b, lastBoundary)
      modifies this
      ensures Valid() && taken == old(taken) + [b]
    {
      ghost var next := taken + [b];
      forall i: nat, j: nat {:trigger Boundary(next, i), Boundary(next, j)} | i < j < |next| ensures Boundary(next, i) < Boundary(next, j) {
        if j < |taken| {
          assert Boundary(taken, i) < Boundary(taken, j);
        } else {
          assert i < |taken| - 1 ==> Boundary(taken, i) < Boundary(taken, |taken| - 1);
        }
      }
      forall i: nat {:trigger Boundary(next, i)} | i < |next| ensures OnGrid(Boundary(next, i)) {
        assert i < |taken| ==> OnGrid(Boundary(taken, i));
      }
      lastBoundary := Some(b);
      taken := next;
    }

    /** The boundary at position `i` was the first one left at `now`, and its round begins at `start`. */
    ghost predicate Due(taken: seq<int>, i: nat, now: int, start: int) {
      && i < |taken| && taken[i] - now >= cfg.minRemaining && start == Max(now, taken[i] - cfg.lead)
      && (taken[i] - BAR - now >= cfg.minRemaining ==> i > 0 && taken[i - 1] == taken[i] - BAR)
    }

    /** Schedules one round. */
    method Round(now: int) returns (start: int)
      requires Valid()
      modifies this
      ensures Valid() && old(taken) <= taken && |taken| == |old(taken)| + 1 && Due(taken, |old(taken)|, now, start)
    {
      assert taken != [] ==> OnGrid(Boundary(taken, |taken| - 1));
      var (bound, begin) := NextRound(cfg, lastBoundary, now);
      assert !Eligible(cfg, lastBoundary, now, bound - BAR);
      Take(bound);
      start := begin;
    }

    /** A round that is due soon after the boundary before it is the next bar's. */
    lemma {:induction false} NoneSkipped(i: nat, now: int)
      requires Valid() && 0 < i < |taken| && now <= taken[i - 1] + cfg.acceptWindow && cfg.acceptWindow + cfg.minRemaining <= BAR
      requires taken[i] - BAR - now >= cfg.minRemaining ==> taken[i - 1] == taken[i] - BAR
      ensures taken[i] == taken[i - 1] + BAR
    {
      assert Boundary(taken, i - 1) < Boundary(taken, i) && OnGrid(Boundary(taken, i - 1)) && OnGrid(Boundary(taken, i));
    }

    /**
     A run: `first` is the clock at start-up, `nows[k]` the clock when the k-th round is
     scheduled. A boundary just missed is caught up first. Boundaries are taken in strictly
     rising order, each the first that leaves enough time, its round starting `lead` ahead
     or at once; none is skipped wherever the clock is at most `acceptWindow` past the
     boundary before.
     */
    method Run(first: int, nows: seq<int>) returns (starts: seq<int>)
      requires Valid()
      modifies this
      ensures Valid() && old(taken) <= taken && |starts| == |nows|
      ensures var b := FloorBar(first);
              var recent := first - b <= cfg.catchUp && (old(taken) == [] || old(taken)[|old(taken)| - 1] < b);
              && |taken| == |old(taken)| + |nows| + (if recent then 1 else 0)
              && (recent ==> taken[|old(taken)|] == b)
      ensures forall k :: 0 <= k < |nows| ==>
        var b := taken[|taken| - |nows| + k];
        && b - nows[k] >= cfg.minRemaining && starts[k] == Max(nows[k], b - cfg.lead)
        && (b - BAR - nows[k] >= cfg.minRemaining ==> |taken| - |nows| + k > 0 && taken[|taken| - |nows| + k - 1] == b - BAR)
      ensures cfg.acceptWindow + cfg.minRemaining <= BAR ==>
        forall k :: 0 <= k < |nows| && |taken| - |nows| + k > 0 ==>
          nows[k] <= taken[|taken| - |nows| + k - 1] + cfg.acceptWindow ==>
          taken[|taken| - |nows| + k] == taken[|taken| - |nows| + k - 1] + BAR
    {
      var missed := MissedBoundary(cfg, lastBoundary, first);
      if missed.Some? {
        Take(missed.value);
      }
      starts := [];
      ghost var base := |taken|;
      for k := 0 to |nows|
        invariant Valid() && old(taken) <= taken && |starts| == k && |taken| == base + k
        invariant base > |old(taken)| ==> taken[|old(taken)|] == FloorBar(first)
        invariant forall m :: 0 <= m < k ==> Due(taken, base + m, nows[m], starts[m])
      {
        ghost var before := taken;
        var start := Round(nows[k]);
        starts := starts + [start];
        assert forall m :: 0 <= m < k && Due(before, base + m, nows[m], starts[m]) ==> Due(taken, base + m, nows[m], starts[m]);
      }
      forall k | 0 <= k < |nows| && base + k > 0 && cfg.acceptWindow + cfg.minRemaining <= BAR && nows[k] <= taken[base + k - 1] + cfg.acceptWindow
        ensures taken[base + k] == taken[base + k - 1] + BAR
      {
        assert Due(taken, base + k, nows[k], starts[k]);
        NoneSkipped(base + k, nows[k]);
      }
    }
  }
}
