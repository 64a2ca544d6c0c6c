/**
 The integrity sweep (internal/backfill/sweep.go): it asks for the interior holes of the
 archive and remembers the ones the exchange has nothing for. A bar is named by its
 number; the exchange's history of past bars does not change.
 */
module Sweep {
  import opened Options
  import opened Ranges

  /** What FindGaps reports: bars missing between two that are there, all inside [from, to). */
  ghost predicate IsHole(archive: set<int>, from: int, to: int, r: Range) {
    && from < r.lo < r.hi < to
    && r.lo - 1 in archive && r.hi in archive
    && forall t :: r.Has(t) ==> t !in archive
  }

  /** The exchange has no bar in the range. */
  ghost predicate Barren(exchange: set<int>, r: Range) {
    forall t :: r.Has(t) ==> t !in exchange
  }

  type Place = (string, int)

  function BarsOf(m: map<string, set<int>>, sym: string): set<int> {
    if sym in m then m[sym] else {}
  }

  // ---------------------------------------------------------------- many sweeps

  /**
   The archive, the ranges a sweep has sent for repair, and the memory of empty ones
   with its expiry times.
   */
  datatype System = System(archive: map<string, set<int>>, asked: set<(string, Range)>, empty: map<Place, int>)

  /** `Report` is the outcome of one range: the number of bars fetched, or an error. */
  datatype Event =
    | Grow(sym: string, bar: int)
    | Find(from: int, to: int, chosen: set<(string, Range)>)
    | Report(sym: string, range: Range, fetched: Option<nat>, expiry: int)
    | Prune(now: int)

  /** Holes are sent only when the memory does not suppress them; a fetch counts the exchange's bars. */
  ghost predicate Enabled(exchange: map<string, set<int>>, s: System, e: Event) {
    match e
    case Grow(_, _) => true
    case Find(from, to, chosen) => forall c :: c in chosen ==> IsHole(BarsOf(s.archive, c.0), from, to, c.1)
    case Report(sym, range, fetched, _) =>
      (sym, range) in s.asked && (fetched == Some(0) ==> Barren(BarsOf(exchange, sym), range))
    case Prune(_) => true
  }

  /** A range that was fetched without an error and without a bar is remembered by its first bar. */
  function Mark(empty: map<Place, int>, sym: string, range: Range, fetched: Option<nat>, expiry: int): map<Place, int> {
    if fetched == Some(0) then empty[(sym, range.lo) := expiry] else empty
  }

  /** What is left of the memory at `now`. */
  function Pruned(empty: map<Place, int>, now: int): map<Place, int> {
    map p | p in empty && now < empty[p] :: empty[p]
  }

  function Apply(s: System, e: Event): System {
    match e
    case Grow(sym, bar) => s.(archive := s.archive[sym := BarsOf(s.archive, sym) + {bar}])
    case Find(_, _, chosen) => s.(asked := chosen)
    case Report(sym, range, fetched, expiry) => s.(empty := Mark(s.empty, sym, range, fetched, expiry))
    case Prune(now) => s.(empty := Pruned(s.empty, now))
  }

  ghost predicate Runs(exchange: map<string, set<int>>, s: System, events: seq<Event>, t: System)
    decreases |events|
  {
    if events == [] then s == t
    else Enabled(exchange, s, events[0]) && Runs(exchange, Apply(s, events[0]), events[1..], t)
  }

  /** From `s` to `t` exactly these bars of the symbol have come into the archive. */
  ghost predicate Arrived(s: System, t: System, sym: string, bars: set<int>) {
    && t.empty == s.empty && t.asked == s.asked
    && forall x :: BarsOf(t.archive, x) == if x == sym then BarsOf(s.archive, x) + bars else BarsOf(s.archive, x)
  }

  lemma {:induction false} OneArrived(s: System, sym: string, bar: int, t: System, bars: set<int>)
    requires bar in bars && Arrived(Apply(s, Grow(sym, bar)), t, sym, bars - {bar})
    ensures Arrived(s, t, sym, bars)
  {
    assert {bar} + (bars - {bar}) == bars;
    forall x ensures BarsOf(t.archive, x) == if x == sym then BarsOf(s.archive, x) + bars else BarsOf(s.archive, x) {
      assert BarsOf(s.archive, x) + {bar} + (bars - {bar}) == BarsOf(s.archive, x) + bars;
    }
  }

  /** Whatever bars come into the archive between and during sweeps, there is a run in which they do. */
  lemma {:induction false} BarsArrive(exchange: map<string, set<int>>, s: System, sym: string, bars: set<int>) returns (events: seq<Event>, t: System)
    ensures Runs(exchange, s, events, t) && Arrived(s, t, sym, bars)
    decreases |bars|
  {
    if bars == {} {
      events, t := [], s;
    } else {
      var b := Options.Pick(bars);
      var rest;
      rest, t := BarsArrive(exchange, Apply(s, Grow(sym, b)), sym, bars - {b});
      events := [Grow(sym, b)] + rest;
      assert events[1..] == rest;
      OneArrived(s, sym, b, t, bars);
    }
  }

  /** The exchange has nothing from the remembered bar up to one that the archive holds. */
  ghost predicate Closed(exchange: map<string, set<int>>, archive: map<string, set<int>>, p: Place) {
    exists to: int :: to in BarsOf(archive, p.0) && p.1 < to && Barren(BarsOf(exchange, p.0), Range(p.1, to))
  }

  ghost predicate Inv(exchange: map<string, set<int>>, s: System) {
    && (forall p :: p in s.empty ==> Closed(exchange, s.archive, p))
    && (forall c :: c in s.asked ==> c.1.lo < c.1.hi && c.1.hi in BarsOf(s.archive, c.0))
  }

  lemma {:induction false} StepKeeps(exchange: map<string, set<int>>, s: System, e: Event)
    requires Inv(exchange, s) && Enabled(exchange, s, e)
    ensures Inv(exchange, Apply(s, e))
  {
  }

  lemma {:induction false} RunKeeps(exchange: map<string, set<int>>, s: System, events: seq<Event>, t: System)
    requires Inv(exchange, s) && Runs(exchange, s, events, t)
    ensures Inv(exchange, t)
    decreases |events|
  {
    if events != [] {
      StepKeeps(exchange, s, events[0]);
      RunKeeps(exchange, Apply(s, events[0]), events[1..], t);
    }
  }

  /**
   The memory never hides a bar the exchange has, although it keys a hole by its symbol
   and its first bar only: the archive only grows, so a hole that begins there later is
   never longer than the one that was found empty.
   */
  lemma {:induction false} SuppressedIsBarren(exchange: map<string, set<int>>, archive: map<string, set<int>>, events: seq<Event>,
                                              t: System, sym: string, from: int, to: int, r: Range)
    requires Runs(exchange, System(archive, {}, map[]), events, t)
    requires (sym, r.lo) in t.empty && IsHole(BarsOf(t.archive, sym), from, to, r)
    ensures Barren(BarsOf(exchange, sym), r)
  {
    RunKeeps(exchange, System(archive, {}, map[]), events, t);
    var end: int :| end in BarsOf(t.archive, sym) && r.lo < end && Barren(BarsOf(exchange, sym), Range(r.lo, end));
    assert r.hi <= end by { assert !r.Has(end); }
    forall x | r.Has(x) ensures x !in BarsOf(exchange, sym) {
      assert Range(r.lo, end).Has(x);
    }
  }

  // ---------------------------------------------------------------- two sweeps settle a window

  /** The bar lies in a hole the memory does not suppress. */
  ghost predicate Sent(archive: set<int>, memory: set<int>, from: int, to: int, t: int) {
    exists r :: IsHole(archive, from, to, r) && r.Has(t) && r.lo !in memory
  }

  /** The archive of one symbol after a sweep without errors: each range sent gets the exchange's bars. */
  ghost function Repaired(archive: set<int>, exchange: set<int>, memory: set<int>, from: int, to: int): set<int> {
    archive + set t | t in exchange && Sent(archive, memory, from, to, t)
  }

  ghost predicate FoundBarren(archive: set<int>, exchange: set<int>, memory: set<int>, from: int, to: int, lo: int) {
    lo !in memory && exists hi :: IsHole(archive, from, to, Range(lo, hi)) && Barren(exchange, Range(lo, hi))
  }

  /** The memory after that sweep: the ranges that came back empty are added. */
  ghost predicate Remembered(archive: set<int>, exchange: set<int>, memory: set<int>, from: int, to: int, memory': set<int>) {
    forall u {:trigger Unfold(u)} :: Unfold(u) ==>
      forall lo :: lo in memory' <==> lo in memory || FoundBarren(archive, exchange, memory, from, to, lo)
  }

  /** The memory only lists holes the exchange has nothing for. */
  ghost predicate SoundMemory(archive: set<int>, exchange: set<int>, memory: set<int>, from: int, to: int) {
    forall r :: IsHole(archive, from, to, r) && r.lo in memory ==> Barren(exchange, r)
  }

  /**
   The situation between two sweeps: the first one covered [from, to), and since then
   only bars newer than that window have arrived.
   */
  ghost predicate Between(a0: set<int>, exchange: set<int>, m0: set<int>, from: int, to: int, a1: set<int>) {
    forall u {:trigger Unfold(u)} :: Unfold(u) ==>
      && SoundMemory(a0, exchange, m0, from, to)
      && forall x :: x < to ==> (x in a1 <==> x in Repaired(a0, exchange, m0, from, to))
  }

  /** A hole that is left between two bars of the archive after a sweep is part of a hole from before it. */
  lemma {:induction false} InsideOldHole(a0: set<int>, exchange: set<int>, m0: set<int>, from: int, to: int, a1: set<int>,
                                         from': int, to': int, r: Range) returns (q: Range)
    requires Between(a0, exchange, m0, from, to, a1) && from <= from'
    requires IsHole(a1, from', to', r) && r.hi < to
    ensures IsHole(a0, from, to, q) && q.lo <= r.lo && r.hi <= q.hi
  {
    assert Unfold(0);
    if r.lo - 1 !in a0 {
      q :| IsHole(a0, from, to, q) && q.Has(r.lo - 1) && q.lo !in m0;
      assert !r.Has(q.hi);
    } else if r.hi !in a0 {
      q :| IsHole(a0, from, to, q) && q.Has(r.hi) && q.lo !in m0;
      assert !r.Has(q.lo - 1);
    } else {
      q := r;
    }
  }

  /** After one sweep no hole inside its window holds a bar of the exchange. */
  lemma {:induction false} OneSweepFills(a0: set<int>, exchange: set<int>, m0: set<int>, from: int, to: int, a1: set<int>,
                                         from': int, to': int, r: Range)
    requires Between(a0, exchange, m0, from, to, a1) && from <= from'
    requires IsHole(a1, from', to', r) && r.hi < to
    ensures Barren(exchange, r)
  {
    assert Unfold(0);
    var q := InsideOldHole(a0, exchange, m0, from, to, a1, from', to', r);
    forall t | r.Has(t) ensures t !in exchange {
      assert q.Has(t);
      assert q.lo !in m0 ==> Sent(a0, m0, from, to, t);
    }
  }

  /** The second sweep adds nothing below a bar `top` that the first window held after its sweep. */
  lemma {:induction false} NothingAdded(a0: set<int>, exchange: set<int>, m0: set<int>, from: int, to: int, a1: set<int>, top: int,
                                        m1: set<int>, from': int, to': int, x: int)
    requires Between(a0, exchange, m0, from, to, a1) && from <= from' && top in a1 && x <= top < to
    ensures x in Repaired(a1, exchange, m1, from', to') <==> x in a1
  {
    if x in exchange && Sent(a1, m1, from', to', x) {
      var q :| IsHole(a1, from', to', q) && q.Has(x) && q.lo !in m1;
      assert !q.Has(top);
      OneSweepFills(a0, exchange, m0, from, to, a1, from', to', q);
    }
  }

  /**
   Convergence: with no errors, no cap and no expiry, two sweeps leave every hole below
   the newest bar of the first one's window filled or suppressed, whatever bars arrived
   after that window in between.
   */
  lemma {:induction false} TwoSweepsSettle(a0: set<int>, exchange: set<int>, m0: set<int>, from: int, to: int, a1: set<int>, top: int,
                                           m1: set<int>, from': int, to': int, m2: set<int>, r: Range)
    requires Between(a0, exchange, m0, from, to, a1) && from <= from' && top in a1 && top < to
    requires Remembered(a1, exchange, m1, from', to', m2)
    requires IsHole(Repaired(a1, exchange, m1, from', to'), from', to', r) && r.hi <= top
    ensures r.lo in m2
  {
    NothingAdded(a0, exchange, m0, from, to, a1, top, m1, from', to', r.hi);
    NothingAdded(a0, exchange, m0, from, to, a1, top, m1, from', to', r.lo - 1);
    StillHole(a1, exchange, m1, from', to', r);
    OneSweepFills(a0, exchange, m0, from, to, a1, from', to', r);
    BarrenIsRemembered(a1, exchange, m1, from', to', m2, r);
  }

  lemma {:induction false} StillHole(a1: set<int>, exchange: set<int>, m1: set<int>, from: int, to: int, r: Range)
    requires IsHole(Repaired(a1, exchange, m1, from, to), from, to, r) && r.hi in a1 && r.lo - 1 in a1
    ensures IsHole(a1, from, to, r)
  {
  }

  lemma {:induction false} BarrenIsRemembered(a1: set<int>, exchange: set<int>, m1: set<int>, from: int, to: int, m2: set<int>, r: Range)
    requires Remembered(a1, exchange, m1, from, to, m2) && IsHole(a1, from, to, r) && Barren(exchange, r)
    ensures r.lo in m2
  {
    assert Unfold(0);
    assert Range(r.lo, r.hi) == r;
    assert r.lo in m1 || FoundBarren(a1, exchange, m1, from, to, r.lo);
  }

  // ---------------------------------------------------------------- one sweep

  type Hole = (string, Range)

  /** The holes of the first `n` symbols, in order. */
  function Holes(syms: seq<string>, gaps: map<string, seq<Range>>, n: nat): seq<Hole>
    requires n <= |syms| && forall s :: s in syms ==> s in gaps
  {
    if n == 0 then [] else Holes(syms, gaps, n - 1) + HolesOf(syms[n - 1], gaps[syms[n - 1]], |gaps[syms[n - 1]]|)
  }

  function HolesOf(sym: string, ranges: seq<Range>, n: nat): (holes: seq<Hole>)
    requires n <= |ranges|
    ensures |holes| == n
  {
    if n == 0 then [] else HolesOf(sym, ranges, n - 1) + [(sym, ranges[n - 1])]
  }

  predicate Suppressed(empty: map<Place, int>, h: Hole, at: int) {
    (h.0, h.1.lo) in empty && at < empty[(h.0, h.1.lo)]
  }

  /** The holes sent for repair among the first `n`: the first `cap` that are not suppressed. */
  function Chosen(empty: map<Place, int>, clock: nat -> int, cap: nat, all: seq<Hole>, n: nat): (c: seq<Hole>)
    requires n <= |all|
    ensures |c| <= cap
  {
    if n == 0 then []
    else
      var c := Chosen(empty, clock, cap, all, n - 1);
      if Suppressed(empty, all[n - 1], clock(n - 1)) || |c| >= cap then c else c + [all[n - 1]]
  }

  /** How many of the first `n` holes the memory suppresses. */
  function Skips(empty: map<Place, int>, clock: nat -> int, all: seq<Hole>, n: nat): nat
    requires n <= |all|
  {
    if n == 0 then 0 else Skips(empty, clock, all, n - 1) + if Suppressed(empty, all[n - 1], clock(n - 1)) then 1 else 0
  }

  /** Below the cap, what is sent is exactly what is not suppressed. */
  lemma {:induction false} ChosenExactly(empty: map<Place, int>, clock: nat -> int, cap: nat, all: seq<Hole>, n: nat, h: Hole)
    requires n <= |all|
    ensures h in Chosen(empty, clock, cap, all, n) ==> exists k: nat :: k < n && all[k] == h && !Suppressed(empty, h, clock(k))
    ensures |Chosen(empty, clock, cap, all, n)| < cap ==>
      forall k: nat :: k < n && all[k] == h && !Suppressed(empty, h, clock(k)) ==> h in Chosen(empty, clock, cap, all, n)
  {
    if n > 0 {
      ChosenExactly(empty, clock, cap, all, n - 1, h);
    }
  }

  function RangesFor(chosen: seq<Hole>, sym: string): seq<Range> {
    if chosen == [] then []
    else
      var n := |chosen| - 1;
      RangesFor(chosen[..n], sym) + if chosen[n].0 == sym then [chosen[n].1] else []
  }

  /** The request lists each symbol once, with its ranges in order. */
  ghost predicate Grouped(chosen: seq<Hole>, keys: seq<string>, ranges: map<string, seq<Range>>) {
    && (forall sym :: GroupedFor(chosen, keys, ranges, sym))
    && (forall i: nat, j: nat :: i < j < |keys| ==> keys[i] != keys[j])
  }

  /** The request holds the ranges picked for one symbol. */
  ghost predicate GroupedFor(chosen: seq<Hole>, keys: seq<string>, ranges: map<string, seq<Range>>, sym: string) {
    && RangesFor(chosen, sym) == (if sym in ranges then ranges[sym] else [])
    && (sym in keys <==> RangesFor(chosen, sym) != [])
  }

  lemma {:induction false} GroupSym(chosen: seq<Hole>, keys: seq<string>, ranges: map<string, seq<Range>>, h: Hole, before: seq<Range>,
                                    sym: string)
    requires GroupedFor(chosen, keys, ranges, sym) && GroupedFor(chosen, keys, ranges, h.0)
    requires before == if h.0 in ranges then ranges[h.0] else []
    ensures GroupedFor(chosen + [h], if before == [] then keys + [h.0] else keys, ranges[h.0 := before + [h.1]], sym)
  {
  }

  lemma {:induction false} GroupOne(chosen: seq<Hole>, keys: seq<string>, ranges: map<string, seq<Range>>, h: Hole, before: seq<Range>)
    requires Grouped(chosen, keys, ranges) && before == if h.0 in ranges then ranges[h.0] else []
    ensures Grouped(chosen + [h], if before == [] then keys + [h.0] else keys, ranges[h.0 := before + [h.1]])
  {
    assert GroupedFor(chosen, keys, ranges, h.0);
    var keys', ranges' := if before == [] then keys + [h.0] else keys, ranges[h.0 := before + [h.1]];
    forall sym ensures GroupedFor(chosen + [h], keys', ranges', sym) {
      assert GroupedFor(chosen, keys, ranges, sym);
      GroupSym(chosen, keys, ranges, h, before, sym);
    }
  }

  /** What one sweep has found and picked so far. */
  datatype Pick = Pick(found: nat, skipped: nat, chosen: seq<Hole>, keys: seq<string>, ranges: map<string, seq<Range>>)

  /** The picks from `all` are as specified, and every hole is accounted for. */
  ghost predicate Right(empty: map<Place, int>, clock: nat -> int, cap: nat, all: seq<Hole>, p: Pick) {
    && p.found == |all| && p.chosen == Chosen(empty, clock, cap, all, |all|)
    && p.skipped == Skips(empty, clock, all, |all|)
    && p.skipped + |p.chosen| <= p.found && (p.skipped + |p.chosen| < p.found ==> |p.chosen| == cap)
    && Grouped(p.chosen, p.keys, p.ranges)
  }

  datatype Outcome = Outcome(sym: string, range: Range, fetched: nat, failed: bool)

  function FetchedOf(o: Outcome): Option<nat> {
    if o.failed then None else Some(o.fetched)
  }

  /** The memory after the first `n` outcomes. */
  function Settled(empty: map<Place, int>, outcomes: seq<Outcome>, expiry: int, n: nat): map<Place, int>
    requires n <= |outcomes|
  {
    if n == 0 then empty
    else Mark(Settled(empty, outcomes, expiry, n - 1), outcomes[n - 1].sym, outcomes[n - 1].range, FetchedOf(outcomes[n - 1]), expiry)
  }

  /** The bars written back by the first `n` outcomes, the ranges that came back empty, and those that failed. */
  function Repairs(outcomes: seq<Outcome>, n: nat): nat
    requires n <= |outcomes|
  {
    if n == 0 then 0 else Repairs(outcomes, n - 1) + if outcomes[n - 1].failed then 0 else outcomes[n - 1].fetched
  }

  function Empties(outcomes: seq<Outcome>, n: nat): nat
    requires n <= |outcomes|
  {
    if n == 0 then 0 else Empties(outcomes, n - 1) + if FetchedOf(outcomes[n - 1]) == Some(0) then 1 else 0
  }

  function Failures(outcomes: seq<Outcome>, n: nat): nat
    requires n <= |outcomes|
  {
    if n == 0 then 0 else Failures(outcomes, n - 1) + if outcomes[n - 1].failed then 1 else 0
  }

  /** Those of the first `n` outcomes that failed, and those that came back empty. */
  ghost function FailedOnes(outcomes: seq<Outcome>, n: nat): set<nat>
    requires n <= |outcomes|
  {
    set k: nat | k < n && outcomes[k].failed
  }

  ghost function EmptyOnes(outcomes: seq<Outcome>, n: nat): set<nat>
    requires n <= |outcomes|
  {
    set k: nat | k < n && !outcomes[k].failed && outcomes[k].fetched == 0
  }

  /** The bars written back are those of the outcomes that did not fail, added up. */
  lemma {:induction false} RepairsAdd(outcomes: seq<Outcome>, o: Outcome)
    ensures Repairs([], 0) == 0
    ensures Repairs(outcomes + [o], |outcomes| + 1) == Repairs(outcomes, |outcomes|) + if o.failed then 0 else o.fetched
  {
    RepairsPrefix(outcomes, o, |outcomes|);
  }

  lemma {:induction false} RepairsPrefix(outcomes: seq<Outcome>, o: Outcome, n: nat)
    requires n <= |outcomes|
    ensures Repairs(outcomes + [o], n) == Repairs(outcomes, n)
  {
    if n > 0 {
      RepairsPrefix(outcomes, o, n - 1);
    }
  }

  lemma {:induction false} FailuresAre(outcomes: seq<Outcome>, n: nat)
    requires n <= |outcomes|
    ensures Failures(outcomes, n) == |FailedOnes(outcomes, n)|
  {
    if n == 0 {
      assert FailedOnes(outcomes, n) == {};
    } else {
      FailuresAre(outcomes, n - 1);
      if outcomes[n - 1].failed {
        assert FailedOnes(outcomes, n) == FailedOnes(outcomes, n - 1) + {n - 1};
      } else {
        assert FailedOnes(outcomes, n) == FailedOnes(outcomes, n - 1);
      }
    }
  }

  lemma {:induction false} EmptiesAre(outcomes: seq<Outcome>, n: nat)
    requires n <= |outcomes|
    ensures Empties(outcomes, n) == |EmptyOnes(outcomes, n)|
  {
    if n == 0 {
      assert EmptyOnes(outcomes, n) == {};
    } else {
      EmptiesAre(outcomes, n - 1);
      if !outcomes[n - 1].failed && outcomes[n - 1].fetched == 0 {
        assert EmptyOnes(outcomes, n) == EmptyOnes(outcomes, n - 1) + {n - 1};
      } else {
        assert EmptyOnes(outcomes, n) == EmptyOnes(outcomes, n - 1);
      }
    }
  }

  /** The range came back without an error and without a bar. */
  predicate CameBackEmpty(o: Outcome, sym: string, lo: int) {
    !o.failed && o.fetched == 0 && o.sym == sym && o.range.lo == lo
  }

  /** What is remembered after a sweep: the old entries, and the ranges that came back empty. */
  lemma {:induction false} SettledExactly(empty: map<Place, int>, outcomes: seq<Outcome>, expiry: int, n: nat, sym: string, lo: int)
    requires n <= |outcomes|
    ensures var found := exists k :: 0 <= k < n && CameBackEmpty(outcomes[k], sym, lo);
            var after := Settled(empty, outcomes, expiry, n);
            && ((sym, lo) in after <==> found || (sym, lo) in empty)
            && ((sym, lo) in after ==> after[(sym, lo)] == if found then expiry else empty[(sym, lo)])
  {
    if n > 0 {
      SettledExactly(empty, outcomes, expiry, n - 1, sym, lo);
      assert CameBackEmpty(outcomes[n - 1], sym, lo) <==>
        FetchedOf(outcomes[n - 1]) == Some(0) && (outcomes[n - 1].sym, outcomes[n - 1].range.lo) == (sym, lo);
    }
  }

  /** The hole is remembered as empty at the start of the sweep and whenever it is looked up. */
  ghost predicate KnownEmpty(memory: map<Place, int>, start: int, clock: nat -> int, h: Hole) {
    (h.0, h.1.lo) in memory && start < memory[(h.0, h.1.lo)] && forall k: nat :: clock(k) < memory[(h.0, h.1.lo)]
  }

  /** The hole is not remembered as empty, neither at the start of the sweep nor whenever it is looked up. */
  ghost predicate Unknown(memory: map<Place, int>, start: int, clock: nat -> int, h: Hole) {
    || (h.0, h.1.lo) !in memory || memory[(h.0, h.1.lo)] <= start
    || forall k: nat :: memory[(h.0, h.1.lo)] <= clock(k)
  }

  /** A hole known to be empty is not sent; below the cap every hole that is not is sent. */
  lemma {:induction false} ChosenByMemory(memory: map<Place, int>, start: int, clock: nat -> int, cap: nat, all: seq<Hole>, h: Hole)
    ensures var c := Chosen(Pruned(memory, start), clock, cap, all, |all|);
            && (h in c ==> h in all && !KnownEmpty(memory, start, clock, h))
            && (|c| < cap && h in all && Unknown(memory, start, clock, h) ==> h in c)
  {
    ChosenExactly(Pruned(memory, start), clock, cap, all, |all|, h);
    if h in all {
      var k: nat :| k < |all| && all[k] == h;
    }
  }

  class Sweeper {
    const ttl: int
    const maxRanges: nat
    var empty: map<Place, int>

    constructor (ttl: int, maxRanges: nat)
      ensures empty == map[] && this.ttl == ttl && this.maxRanges == maxRanges
    {
      this.ttl, this.maxRanges := ttl, maxRanges;
      empty := map[];
    }

    method PruneEmpty(now: int)
      modifies this
      ensures empty == Pruned(old(empty), now)
      ensures forall q :: q in empty <==> q in old(empty) && now < old(empty)[q]
      ensures forall q :: q in empty ==> empty[q] == old(empty)[q]
    {
      empty := map p | p in empty && !(now >= empty[p]) :: empty[p];
    }

    /** Looks at one hole at time `at`. */
    method Consider(h: Hole, at: int, p: Pick, ghost clock: nat -> int, ghost all: seq<Hole>) returns (p': Pick)
      requires Right(empty, clock, maxRanges, all, p) && at == clock(|all|)
      ensures Right(empty, clock, maxRanges, all + [h], p')
    {
      ChosenMore(empty, clock, maxRanges, all, h);
      p' := p.(found := p.found + 1);
      if Suppressed(empty, h, at) {
        return p'.(skipped := p.skipped + 1);
      }
      if |p.chosen| >= maxRanges {
        return p';
      }
      var before := if h.0 in p.ranges then p.ranges[h.0] else [];
      GroupOne(p.chosen, p.keys, p.ranges, h, before);
      if |before| == 0 {
        p' := p'.(keys := p.keys + [h.0]);
      }
      p' := p'.(ranges := p.ranges[h.0 := before + [h.1]], chosen := p.chosen + [h]);
    }

    /** Which holes to send. `clock(k)` is the time at which the k-th hole is looked up. */
    method Select(syms: seq<string>, gaps: map<string, seq<Range>>, clock: nat -> int) returns (p: Pick)
      requires forall s :: s in syms ==> s in gaps
      ensures Right(empty, clock, maxRanges, Holes(syms, gaps, |syms|), p)
    {
      p := Pick(0, 0, [], [], map[]);
      ghost var all: seq<Hole> := [];
      for i := 0 to |syms|
        invariant all == Holes(syms, gaps, i) && Right(empty, clock, maxRanges, all, p)
      {
        var sym, rs := syms[i], gaps[syms[i]];
        assert all + [] == all;
        for j := 0 to |rs|
          invariant Right(empty, clock, maxRanges, all + HolesOf(sym, rs, j), p)
        {
          p := Consider((sym, rs[j]), clock(p.found), p, clock, all + HolesOf(sym, rs, j));
          assert all + HolesOf(sym, rs, j) + [(sym, rs[j])] == all + HolesOf(sym, rs, j + 1);
        }
        all := all + HolesOf(sym, rs, |rs|);
      }
    }

    /** Counts the outcomes and remembers the ranges that came back empty. */
    method Settle(outcomes: seq<Outcome>, start: int) returns (repaired: nat, barren: nat, failed: nat)
      modifies this
      ensures empty == Settled(old(empty), outcomes, start + ttl, |outcomes|)
      ensures repaired == Repairs(outcomes, |outcomes|)
      ensures barren == Empties(outcomes, |outcomes|) && failed == Failures(outcomes, |outcomes|)
      ensures barren == |EmptyOnes(outcomes, |outcomes|)| && failed == |FailedOnes(outcomes, |outcomes|)|
    {
      EmptiesAre(outcomes, |outcomes|);
      FailuresAre(outcomes, |outcomes|);
      repaired, barren, failed := 0, 0, 0;
      for n := 0 to |outcomes|
        invariant empty == Settled(old(empty), outcomes, start + ttl, n)
        invariant repaired == Repairs(outcomes, n) && barren == Empties(outcomes, n) && failed == Failures(outcomes, n)
      {
        var o := outcomes[n];
        if o.failed {
          failed := failed + 1;
        } else if o.fetched == 0 {
          barren := barren + 1;
          empty := empty[(o.sym, o.range.lo) := start + ttl];
        } else {
          repaired := repaired + o.fetched;
        }
      }
    }

    /**
     One sweep. `gaps` is None when the scan fails; `reply` is what comes back for a
     request, None when the context ends first. The memory is pruned, used for the
     selection, and then extended by exactly the ranges that came back empty.
     */
    method SweepOnce(start: int, syms: seq<string>, gaps: Option<map<string, seq<Range>>>, clock: nat -> int,
                     reply: Pick -> Option<seq<Outcome>>)
      returns (p: Pick, repaired: nat, barren: nat, failed: nat)
      requires gaps.Some? ==> forall s :: s in syms ==> s in gaps.value
      modifies this
      ensures gaps.None? ==> empty == old(empty) && p == Pick(0, 0, [], [], map[])
      ensures if gaps.None? || p.keys == [] || reply(p).None? then repaired == barren == failed == 0
              else && repaired == Repairs(reply(p).value, |reply(p).value|)
                   && barren == |EmptyOnes(reply(p).value, |reply(p).value|)|
                   && failed == |FailedOnes(reply(p).value, |reply(p).value|)|
      ensures gaps.Some? ==>
        var memory := Pruned(old(empty), start);
        && Right(memory, clock, maxRanges, Holes(syms, gaps.value, |syms|), p)
        && empty == if p.keys == [] || reply(p).None? then memory
                    else Settled(memory, reply(p).value, start + ttl, |reply(p).value|)
      ensures gaps.Some? ==> forall h ::
        && (h in p.chosen ==> h in Holes(syms, gaps.value, |syms|) && !KnownEmpty(old(empty), start, clock, h))
        && (|p.chosen| < maxRanges && h in Holes(syms, gaps.value, |syms|) && Unknown(old(empty), start, clock, h) ==> h in p.chosen)
      ensures gaps.Some? && p.keys != [] && reply(p).Some? ==> forall sym, lo ::
        (exists k :: 0 <= k < |reply(p).value| && CameBackEmpty(reply(p).value[k], sym, lo)) ==>
          (sym, lo) in empty && empty[(sym, lo)] == start + ttl
    {
      p, repaired, barren, failed := Pick(0, 0, [], [], map[]), 0, 0, 0;
      if gaps.None? {
        return;
      }
      PruneEmpty(start);
      p := Select(syms, gaps.value, clock);
      ghost var memory, all := Pruned(old(empty), start), Holes(syms, gaps.value, |syms|);
      forall h
        ensures h in p.chosen ==> h in all && !KnownEmpty(old(empty), start, clock, h)
        ensures |p.chosen| < maxRanges && h in all && Unknown(old(empty), start, clock, h) ==> h in p.chosen
      {
        ChosenByMemory(old(empty), start, clock, maxRanges, all, h);
      }
      if |p.keys| == 0 {
        return;
      }
      var outcomes := reply(p);
      if outcomes.Some? {
        repaired, barren, failed := Settle(outcomes.value, start);
        forall sym, lo | exists k :: 0 <= k < |outcomes.value| && CameBackEmpty(outcomes.value[k], sym, lo)
          ensures (sym, lo) in empty && empty[(sym, lo)] == start + ttl
        {
          SettledExactly(memory, outcomes.value, start + ttl, |outcomes.value|, sym, lo);
        }
      }
    }
  }

  /**
   Two sweeps: a range that came back empty in the first one is not sent again by a second one
   that runs before the entry expires, whatever that one finds.
   */
  method SweepAgain(s: Sweeper, start: int, syms: seq<string>, gaps: map<string, seq<Range>>, clock: nat -> int,
                    reply: Pick -> Option<seq<Outcome>>, start': int, syms': seq<string>, gaps': map<string, seq<Range>>,
                    clock': nat -> int, reply': Pick -> Option<seq<Outcome>>) returns (p: Pick, p': Pick)
    requires (forall x :: x in syms ==> x in gaps) && forall x :: x in syms' ==> x in gaps'
    requires start' < start + s.ttl && forall k: nat :: clock'(k) < start + s.ttl
    modifies s
    ensures p.keys != [] && reply(p).Some? ==> forall h: Hole ::
      (exists k :: 0 <= k < |reply(p).value| && CameBackEmpty(reply(p).value[k], h.0, h.1.lo)) ==> h !in p'.chosen
  {
    var repaired, barren, failed;
    p, repaired, barren, failed := s.SweepOnce(start, syms, Some(gaps), clock, reply);
    ghost var memory := s.empty;
    p', repaired, barren, failed := s.SweepOnce(start', syms', Some(gaps'), clock', reply');
    assert forall h: Hole :: KnownEmpty(memory, start', clock', h) ==> h !in p'.chosen;
  }

  lemma {:induction false} ChosenMore(empty: map<Place, int>, clock: nat -> int, cap: nat, all: seq<Hole>, h: Hole)
    ensures var c := Chosen(empty, clock, cap, all, |all|);
            Chosen(empty, clock, cap, all + [h], |all| + 1)
            == if Suppressed(empty, h, clock(|all|)) || |c| >= cap then c else c + [h]
    ensures Skips(empty, clock, all + [h], |all| + 1)
         == Skips(empty, clock, all, |all|) + if Suppressed(empty, h, clock(|all|)) then 1 else 0
  {
    ChosenPrefix(empty, clock, cap, all, h, |all|);
  }

  lemma {:induction false} ChosenPrefix(empty: map<Place, int>, clock: nat -> int, cap: nat, all: seq<Hole>, h: Hole, n: nat)
    requires n <= |all|
    ensures Chosen(empty, clock, cap, all + [h], n) == Chosen(empty, clock, cap, all, n)
    ensures Skips(empty, clock, all + [h], n) == Skips(empty, clock, all, n)
  {
    if n > 0 {
      ChosenPrefix(empty, clock, cap, all, h, n - 1);
    }
  }
}
