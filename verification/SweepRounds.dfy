/**
 What the sweeper's passes do to the archive (internal/backfill/sweep.go): every pass is a
 run of the events of Sweep, a pass in which nothing fails changes archive and memory as
 `Repaired` and `Remembered` say, and two such passes settle a window.
 */
module SweepRounds {
  import opened Options
  import opened Ranges
  import opened Sweep

  /** The scan lists exactly the interior holes of every symbol. */
  ghost predicate FindsHoles(archive: map<string, set<int>>, from: int, to: int, syms: seq<string>, gaps: map<string, seq<Range>>) {
    && (forall s :: s in syms ==> s in gaps)
    && forall sym, r :: IsHole(BarsOf(archive, sym), from, to, r) <==> sym in syms && r in gaps[sym]
  }

  lemma {:induction false} HolesOfHas(sym: string, ranges: seq<Range>, n: nat, h: Hole)
    requires n <= |ranges|
    ensures h in HolesOf(sym, ranges, n) <==> h.0 == sym && h.1 in ranges[..n]
  {
    if n > 0 {
      HolesOfHas(sym, ranges, n - 1, h);
      assert ranges[..n] == ranges[..n - 1] + [ranges[n - 1]];
    }
  }

  lemma {:induction false} HolesHas(syms: seq<string>, gaps: map<string, seq<Range>>, n: nat, h: Hole)
    requires n <= |syms| && forall s :: s in syms ==> s in gaps
    ensures h in Holes(syms, gaps, n) <==> h.0 in syms[..n] && h.1 in gaps[h.0]
  {
    if n > 0 {
      HolesHas(syms, gaps, n - 1, h);
      var ranges := gaps[syms[n - 1]];
      HolesOfHas(syms[n - 1], ranges, |ranges|, h);
      assert ranges[..|ranges|] == ranges;
      assert syms[..n] == syms[..n - 1] + [syms[n - 1]];
    }
  }

  // ---------------------------------------------------------------- a pass is a run

  /** The ranges a pass has sent. */
  function Asked(chosen: seq<Hole>): set<Hole> {
    set h | h in chosen
  }

  /** The events of the first `n` outcomes. */
  function ReportsOf(outcomes: seq<Outcome>, expiry: int, n: nat): seq<Event>
    requires n <= |outcomes|
  {
    if n == 0 then []
    else ReportsOf(outcomes, expiry, n - 1)
         + [Report(outcomes[n - 1].sym, outcomes[n - 1].range, FetchedOf(outcomes[n - 1]), expiry)]
  }

  /** An outcome speaks of a range that was sent, and counts no bar only where the exchange has none. */
  ghost predicate Credible(exchange: map<string, set<int>>, chosen: seq<Hole>, o: Outcome) {
    (o.sym, o.range) in chosen && (FetchedOf(o) == Some(0) ==> Barren(BarsOf(exchange, o.sym), o.range))
  }

  lemma {:induction false} RunsOn(exchange: map<string, set<int>>, s: System, a: seq<Event>, m: System, e: Event, t: System)
    requires Runs(exchange, s, a, m) && Enabled(exchange, m, e) && t == Apply(m, e)
    ensures Runs(exchange, s, a + [e], t)
    decreases |a|
  {
    if a == [] {
      assert (a + [e])[1..] == [];
    } else {
      RunsOn(exchange, Apply(s, a[0]), a[1..], m, e, t);
      assert (a + [e])[1..] == a[1..] + [e];
    }
  }

  lemma {:induction false} ReportsRun(exchange: map<string, set<int>>, s: System, chosen: seq<Hole>, outcomes: seq<Outcome>,
                                      expiry: int, n: nat)
    requires n <= |outcomes| && s.asked == Asked(chosen)
    requires forall o :: o in outcomes ==> Credible(exchange, chosen, o)
    ensures Runs(exchange, s, ReportsOf(outcomes, expiry, n), s.(empty := Settled(s.empty, outcomes, expiry, n)))
  {
    if n > 0 {
      ReportsRun(exchange, s, chosen, outcomes, expiry, n - 1);
      var o := outcomes[n - 1];
      assert o in outcomes;
      RunsOn(exchange, s, ReportsOf(outcomes, expiry, n - 1), s.(empty := Settled(s.empty, outcomes, expiry, n - 1)),
             Report(o.sym, o.range, FetchedOf(o), expiry), s.(empty := Settled(s.empty, outcomes, expiry, n)));
    }
  }

  /** A pass: the memory is pruned, the holes are found and sent, the outcomes are reported. */
  function PassOf(start: int, from: int, to: int, chosen: seq<Hole>, outcomes: seq<Outcome>, expiry: int): seq<Event> {
    [Prune(start)] + ([Find(from, to, Asked(chosen))] + ReportsOf(outcomes, expiry, |outcomes|))
  }

  lemma {:induction false} Before(exchange: map<string, set<int>>, s: System, e: Event, events: seq<Event>, t: System)
    requires Enabled(exchange, s, e) && Runs(exchange, Apply(s, e), events, t)
    ensures Runs(exchange, s, [e] + events, t)
  {
    assert ([e] + events)[1..] == events;
  }

  /**
   Every pass of the sweeper is a run of these events, so what holds over all runs holds
   for it: the chosen holes are those `Right` describes, the memory ends as `Settled` says.
   */
  lemma {:induction false} PassIsRun(exchange: map<string, set<int>>, s: System, start: int, from: int, to: int,
                                     syms: seq<string>, gaps: map<string, seq<Range>>, clock: nat -> int, cap: nat, p: Pick,
                                     outcomes: seq<Outcome>, expiry: int)
    requires FindsHoles(s.archive, from, to, syms, gaps)
    requires Right(Pruned(s.empty, start), clock, cap, Holes(syms, gaps, |syms|), p)
    requires forall o :: o in outcomes ==> Credible(exchange, p.chosen, o)
    ensures Runs(exchange, s, PassOf(start, from, to, p.chosen, outcomes, expiry),
                 System(s.archive, Asked(p.chosen), Settled(Pruned(s.empty, start), outcomes, expiry, |outcomes|)))
  {
    var all := Holes(syms, gaps, |syms|);
    var pruned := Apply(s, Prune(start));
    var found := Apply(pruned, Find(from, to, Asked(p.chosen)));
    forall h | h in p.chosen ensures IsHole(BarsOf(s.archive, h.0), from, to, h.1) {
      ChosenExactly(Pruned(s.empty, start), clock, cap, all, |all|, h);
      HolesHas(syms, gaps, |syms|, h);
    }
    ReportsRun(exchange, found, p.chosen, outcomes, expiry, |outcomes|);
    var t := found.(empty := Settled(found.empty, outcomes, expiry, |outcomes|));
    Before(exchange, pruned, Find(from, to, Asked(p.chosen)), ReportsOf(outcomes, expiry, |outcomes|), t);
    Before(exchange, s, Prune(start), [Find(from, to, Asked(p.chosen))] + ReportsOf(outcomes, expiry, |outcomes|), t);
  }

  // ---------------------------------------------------------------- a pass in which nothing fails

  /** The remembered first bars of one symbol. */
  function MemoryOf(empty: map<Place, int>, sym: string): set<int> {
    set p | p in empty && p.0 == sym :: p.1
  }

  lemma {:induction false} MemoryHas(empty: map<Place, int>, sym: string, lo: int)
    ensures lo in MemoryOf(empty, sym) <==> (sym, lo) in empty
  {
    if lo in MemoryOf(empty, sym) {
      var p :| p in empty && p.0 == sym && p.1 == lo;
      assert p == (sym, lo);
    }
  }

  /** No entry of the memory expires while the holes are looked up. */
  ghost predicate Awake(memory: map<Place, int>, clock: nat -> int) {
    forall p, k: nat :: p in memory ==> clock(k) < memory[p]
  }

  /** Every range sent is reported, with the number of bars the exchange has and without an error. */
  ghost predicate AllReported(exchange: map<string, set<int>>, chosen: seq<Hole>, outcomes: seq<Outcome>) {
    && (forall o :: o in outcomes ==>
         !o.failed && (o.sym, o.range) in chosen && (o.fetched == 0 <==> Barren(BarsOf(exchange, o.sym), o.range)))
    && forall h :: h in chosen ==> Reported(outcomes, h)
  }

  predicate Reported(outcomes: seq<Outcome>, h: Hole) {
    exists o :: o in outcomes && (o.sym, o.range) == h
  }

  lemma {:induction false} SettledHas(empty: map<Place, int>, outcomes: seq<Outcome>, expiry: int, n: nat, p: Place)
    requires n <= |outcomes|
    ensures p in Settled(empty, outcomes, expiry, n) <==>
      p in empty || exists i: nat :: i < n && FetchedOf(outcomes[i]) == Some(0) && p == (outcomes[i].sym, outcomes[i].range.lo)
  {
    if n > 0 {
      SettledHas(empty, outcomes, expiry, n - 1, p);
    }
  }

  /** An entry keeps its expiry, or gets that of this pass. */
  ghost predicate Expiries(memory: map<Place, int>, memory': map<Place, int>, expiry: int) {
    forall p :: p in memory' ==> memory'[p] == expiry || (p in memory && memory'[p] == memory[p])
  }

  lemma {:induction false} SettledExpires(empty: map<Place, int>, outcomes: seq<Outcome>, expiry: int, n: nat)
    requires n <= |outcomes|
    ensures Expiries(empty, Settled(empty, outcomes, expiry, n), expiry)
  {
    if n > 0 {
      SettledExpires(empty, outcomes, expiry, n - 1);
    }
  }

  lemma {:induction false} ChosenFew(empty: map<Place, int>, clock: nat -> int, cap: nat, all: seq<Hole>, n: nat)
    requires n <= |all|
    ensures |Chosen(empty, clock, cap, all, n)| <= n
  {
    if n > 0 {
      ChosenFew(empty, clock, cap, all, n - 1);
    }
  }

  /** What is sent: exactly the holes that are not remembered. */
  ghost predicate SendsAll(archive: map<string, set<int>>, memory: map<Place, int>, from: int, to: int, chosen: seq<Hole>) {
    forall sym, r :: (sym, r) in chosen <==> IsHole(BarsOf(archive, sym), from, to, r) && (sym, r.lo) !in memory
  }

  lemma {:induction false} PickSendsAll(archive: map<string, set<int>>, memory: map<Place, int>, from: int, to: int,
                                        syms: seq<string>, gaps: map<string, seq<Range>>, clock: nat -> int, cap: nat, p: Pick)
    requires FindsHoles(archive, from, to, syms, gaps) && Awake(memory, clock)
    requires |Holes(syms, gaps, |syms|)| < cap && Right(memory, clock, cap, Holes(syms, gaps, |syms|), p)
    ensures SendsAll(archive, memory, from, to, p.chosen)
  {
    var all := Holes(syms, gaps, |syms|);
    ChosenFew(memory, clock, cap, all, |all|);
    forall sym, r ensures (sym, r) in p.chosen <==> IsHole(BarsOf(archive, sym), from, to, r) && (sym, r.lo) !in memory {
      var h: Hole := (sym, r);
      ChosenExactly(memory, clock, cap, all, |all|, h);
      HolesHas(syms, gaps, |syms|, h);
      assert syms[..|syms|] == syms;
      if h in all {
        var k: nat :| k < |all| && all[k] == h;
        assert Suppressed(memory, h, clock(k)) <==> (sym, r.lo) in memory;
      }
    }
  }

  /** The archive of one symbol after a pass: the ranges sent get the exchange's bars. */
  ghost function BarsAfter(archive: map<string, set<int>>, exchange: map<string, set<int>>, chosen: seq<Hole>, sym: string): set<int> {
    BarsOf(archive, sym) + set t | t in BarsOf(exchange, sym) && exists r :: (sym, r) in chosen && r.Has(t)
  }

  lemma {:induction false} AfterIsRepaired(archive: map<string, set<int>>, exchange: map<string, set<int>>, memory: map<Place, int>,
                                           from: int, to: int, chosen: seq<Hole>, sym: string)
    requires SendsAll(archive, memory, from, to, chosen)
    ensures BarsAfter(archive, exchange, chosen, sym)
         == Repaired(BarsOf(archive, sym), BarsOf(exchange, sym), MemoryOf(memory, sym), from, to)
  {
    forall t ensures (exists r :: (sym, r) in chosen && r.Has(t)) <==> Sent(BarsOf(archive, sym), MemoryOf(memory, sym), from, to, t) {
      if r :| (sym, r) in chosen && r.Has(t) {
        MemoryHas(memory, sym, r.lo);
        assert IsHole(BarsOf(archive, sym), from, to, r);
      }
      if Sent(BarsOf(archive, sym), MemoryOf(memory, sym), from, to, t) {
        var r :| IsHole(BarsOf(archive, sym), from, to, r) && r.Has(t) && r.lo !in MemoryOf(memory, sym);
        MemoryHas(memory, sym, r.lo);
        assert (sym, r) in chosen;
      }
    }
  }

  /** A place is remembered after the pass if it was before, or begins a sent range that came back empty. */
  lemma {:induction false} NewlyEmpty(archive: map<string, set<int>>, exchange: map<string, set<int>>, memory: map<Place, int>,
                                      from: int, to: int, chosen: seq<Hole>, outcomes: seq<Outcome>, expiry: int, sym: string, lo: int)
    requires SendsAll(archive, memory, from, to, chosen) && AllReported(exchange, chosen, outcomes)
    ensures (sym, lo) in Settled(memory, outcomes, expiry, |outcomes|) <==>
      (sym, lo) in memory || FoundBarren(BarsOf(archive, sym), BarsOf(exchange, sym), MemoryOf(memory, sym), from, to, lo)
  {
    SettledHas(memory, outcomes, expiry, |outcomes|, (sym, lo));
    MemoryHas(memory, sym, lo);
    if i: nat :| i < |outcomes| && FetchedOf(outcomes[i]) == Some(0) && (sym, lo) == (outcomes[i].sym, outcomes[i].range.lo) {
      var o := outcomes[i];
      assert o in outcomes && (sym, o.range) in chosen && o.range == Range(lo, o.range.hi);
    }
    if FoundBarren(BarsOf(archive, sym), BarsOf(exchange, sym), MemoryOf(memory, sym), from, to, lo) {
      var hi :| IsHole(BarsOf(archive, sym), from, to, Range(lo, hi)) && Barren(BarsOf(exchange, sym), Range(lo, hi));
      var h: Hole := (sym, Range(lo, hi));
      assert h in chosen && Reported(outcomes, h);
      var o :| o in outcomes && (o.sym, o.range) == h;
      var i: nat :| i < |outcomes| && outcomes[i] == o;
      assert FetchedOf(o) == Some(0);
    }
  }

  /** One pass, and what it needs for nothing to go wrong. */
  datatype Round = Round(start: int, from: int, to: int, syms: seq<string>, gaps: map<string, seq<Range>>,
                         clock: nat -> int, reply: Pick -> Option<seq<Outcome>>)

  /** The scan is right, stays below the cap, no entry expires meanwhile, and every request is answered in full. */
  ghost predicate Clean(cap: nat, archive: map<string, set<int>>, exchange: map<string, set<int>>, empty: map<Place, int>, r: Round) {
    && FindsHoles(archive, r.from, r.to, r.syms, r.gaps) && |Holes(r.syms, r.gaps, |r.syms|)| < cap
    && Awake(Pruned(empty, r.start), r.clock)
    && forall p: Pick :: r.reply(p).Some? && AllReported(exchange, p.chosen, r.reply(p).value)
  }

  /** Archive and memory after a clean pass are those of `Repaired` and `Remembered`, for every symbol. */
  ghost predicate Swept(archive: map<string, set<int>>, exchange: map<string, set<int>>, memory: map<Place, int>, r: Round,
                        archive': map<string, set<int>>, memory': map<Place, int>) {
    forall sym ::
      && BarsOf(archive', sym) == Repaired(BarsOf(archive, sym), BarsOf(exchange, sym), MemoryOf(memory, sym), r.from, r.to)
      && Remembered(BarsOf(archive, sym), BarsOf(exchange, sym), MemoryOf(memory, sym), r.from, r.to, MemoryOf(memory', sym))
  }

  /** The archive once the ranges sent have their bars. */
  ghost function ArchiveAfter(archive: map<string, set<int>>, exchange: map<string, set<int>>, chosen: seq<Hole>): map<string, set<int>> {
    map sym | sym in archive.Keys + exchange.Keys :: BarsAfter(archive, exchange, chosen, sym)
  }

  lemma {:induction false} SweptAsSent(archive: map<string, set<int>>, exchange: map<string, set<int>>, memory: map<Place, int>, r: Round,
                                       chosen: seq<Hole>, outcomes: seq<Outcome>, expiry: int)
    requires SendsAll(archive, memory, r.from, r.to, chosen) && AllReported(exchange, chosen, outcomes)
    ensures Swept(archive, exchange, memory, r, ArchiveAfter(archive, exchange, chosen),
                  Settled(memory, outcomes, expiry, |outcomes|))
  {
    var memory' := Settled(memory, outcomes, expiry, |outcomes|);
    forall sym
      ensures BarsOf(ArchiveAfter(archive, exchange, chosen), sym)
           == Repaired(BarsOf(archive, sym), BarsOf(exchange, sym), MemoryOf(memory, sym), r.from, r.to)
      ensures Remembered(BarsOf(archive, sym), BarsOf(exchange, sym), MemoryOf(memory, sym), r.from, r.to, MemoryOf(memory', sym))
    {
      AfterIsRepaired(archive, exchange, memory, r.from, r.to, chosen, sym);
      RememberedFor(archive, exchange, memory, r, chosen, outcomes, expiry, sym);
    }
  }

  lemma {:induction false} RememberedFor(archive: map<string, set<int>>, exchange: map<string, set<int>>, memory: map<Place, int>, r: Round,
                                         chosen: seq<Hole>, outcomes: seq<Outcome>, expiry: int, sym: string)
    requires SendsAll(archive, memory, r.from, r.to, chosen) && AllReported(exchange, chosen, outcomes)
    ensures Remembered(BarsOf(archive, sym), BarsOf(exchange, sym), MemoryOf(memory, sym), r.from, r.to,
                       MemoryOf(Settled(memory, outcomes, expiry, |outcomes|), sym))
  {
    var memory' := Settled(memory, outcomes, expiry, |outcomes|);
    forall lo ensures lo in MemoryOf(memory', sym) <==>
      lo in MemoryOf(memory, sym) || FoundBarren(BarsOf(archive, sym), BarsOf(exchange, sym), MemoryOf(memory, sym), r.from, r.to, lo)
    {
      NewlyEmpty(archive, exchange, memory, r.from, r.to, chosen, outcomes, expiry, sym, lo);
      MemoryHas(memory, sym, lo);
      MemoryHas(memory', sym, lo);
    }
  }

  lemma {:induction false} NoneChosen(chosen: seq<Hole>, keys: seq<string>, ranges: map<string, seq<Range>>)
    requires Grouped(chosen, keys, ranges)
    ensures keys == [] <==> chosen == []
  {
    if chosen != [] {
      assert GroupedFor(chosen, keys, ranges, chosen[|chosen| - 1].0);
    }
    if keys != [] {
      assert GroupedFor(chosen, keys, ranges, keys[0]);
    }
  }

  /** Every remembered place is barren up to a bar the archive holds. */
  ghost predicate AllClosed(exchange: map<string, set<int>>, archive: map<string, set<int>>, empty: map<Place, int>) {
    forall p :: p in empty ==> Closed(exchange, archive, p)
  }

  /** The memory a pass leaves: settled with the outcomes, if anything was sent. */
  ghost predicate Ends(memory: map<Place, int>, r: Round, p: Pick, expiry: int, memory': map<Place, int>) {
    memory' == if p.keys == [] || r.reply(p).None? then memory
               else Settled(memory, r.reply(p).value, expiry, |r.reply(p).value|)
  }

  lemma {:induction false} CleanPass(cap: nat, archive: map<string, set<int>>, exchange: map<string, set<int>>, empty: map<Place, int>,
                                     r: Round, p: Pick, expiry: int, memory': map<Place, int>)
    requires Clean(cap, archive, exchange, empty, r)
    requires Right(Pruned(empty, r.start), r.clock, cap, Holes(r.syms, r.gaps, |r.syms|), p)
    requires Ends(Pruned(empty, r.start), r, p, expiry, memory')
    ensures Swept(archive, exchange, Pruned(empty, r.start), r, ArchiveAfter(archive, exchange, p.chosen), memory')
    ensures Expiries(Pruned(empty, r.start), memory', expiry)
  {
    var memory := Pruned(empty, r.start);
    PickSendsAll(archive, memory, r.from, r.to, r.syms, r.gaps, r.clock, cap, p);
    NoneChosen(p.chosen, p.keys, p.ranges);
    var outcomes := if p.keys == [] then [] else r.reply(p).value;
    SweptAsSent(archive, exchange, memory, r, p.chosen, outcomes, expiry);
    SettledExpires(memory, outcomes, expiry, |outcomes|);
  }

  /** The sweeper's pass, when nothing goes wrong, is the one the convergence results speak of. */
  method SweepClean(s: Sweeper, r: Round, ghost archive: map<string, set<int>>, ghost exchange: map<string, set<int>>)
    returns (p: Pick, ghost archive': map<string, set<int>>)
    requires Clean(s.maxRanges, archive, exchange, s.empty, r)
    modifies s
    ensures Swept(archive, exchange, Pruned(old(s.empty), r.start), r, archive', s.empty)
    ensures archive' == ArchiveAfter(archive, exchange, p.chosen)
    ensures Expiries(Pruned(old(s.empty), r.start), s.empty, r.start + s.ttl)
  {
    var repaired, barren, failed;
    p, repaired, barren, failed := s.SweepOnce(r.start, r.syms, Some(r.gaps), r.clock, r.reply);
    archive' := ArchiveAfter(archive, exchange, p.chosen);
    CleanPass(s.maxRanges, archive, exchange, old(s.empty), r, p, r.start + s.ttl, s.empty);
  }

  // ---------------------------------------------------------------- two passes

  lemma {:induction false} SoundFor(exchange: map<string, set<int>>, archive: map<string, set<int>>, memory: map<Place, int>,
                                    from: int, to: int, sym: string)
    requires AllClosed(exchange, archive, memory)
    ensures SoundMemory(BarsOf(archive, sym), BarsOf(exchange, sym), MemoryOf(memory, sym), from, to)
  {
    forall r | IsHole(BarsOf(archive, sym), from, to, r) && r.lo in MemoryOf(memory, sym) ensures Barren(BarsOf(exchange, sym), r) {
      MemoryHas(memory, sym, r.lo);
      assert Closed(exchange, archive, (sym, r.lo));
      var end: int :| end in BarsOf(archive, sym) && r.lo < end && Barren(BarsOf(exchange, sym), Range(r.lo, end));
      assert r.hi <= end by { assert !r.Has(end); }
      forall x | r.Has(x) ensures x !in BarsOf(exchange, sym) {
        assert Range(r.lo, end).Has(x);
      }
    }
  }

  /** Between two passes only bars newer than the first one's window arrive. */
  ghost predicate OnlyNewer(a: map<string, set<int>>, b: map<string, set<int>>, to: int) {
    forall sym, x :: x < to ==> (x in BarsOf(b, sym) <==> x in BarsOf(a, sym))
  }

  /**
   Convergence of the sweeper: two clean passes, the second one's window not beginning
   before the first one's, leave every hole below a bar `top` of the first window filled,
   or remembered as one the exchange has nothing for.
   */
  lemma {:induction false} TwoRoundsSettle(exchange: map<string, set<int>>, a0: map<string, set<int>>, m0: map<Place, int>, r0: Round,
                                           b0: map<string, set<int>>, a1: map<string, set<int>>, m1: map<Place, int>, r1: Round,
                                           b1: map<string, set<int>>, m2: map<Place, int>, sym: string, top: int, hole: Range,
                                           mx: map<Place, int>)
    requires AllClosed(exchange, a0, m0) && Swept(a0, exchange, m0, r0, b0, mx) && OnlyNewer(b0, a1, r0.to)
    requires Swept(a1, exchange, m1, r1, b1, m2) && r0.from <= r1.from
    requires top in BarsOf(a1, sym) && top < r0.to
    requires IsHole(BarsOf(b1, sym), r1.from, r1.to, hole) && hole.hi <= top
    ensures (sym, hole.lo) in m2
  {
    var x0, ex, x1 := BarsOf(a0, sym), BarsOf(exchange, sym), BarsOf(a1, sym);
    SoundFor(exchange, a0, m0, r0.from, r0.to, sym);
    assert Between(x0, ex, MemoryOf(m0, sym), r0.from, r0.to, x1);
    TwoSweepsSettle(x0, ex, MemoryOf(m0, sym), r0.from, r0.to, x1, top, MemoryOf(m1, sym), r1.from, r1.to, MemoryOf(m2, sym), hole);
    MemoryHas(m2, sym, hole.lo);
  }

  /** The hole is filled, or the sweeper suppresses it. */
  ghost predicate Settles(archive: map<string, set<int>>, empty: map<Place, int>, sym: string, from: int, to: int, top: int) {
    forall hole :: IsHole(BarsOf(archive, sym), from, to, hole) && hole.hi <= top ==> (sym, hole.lo) in empty
  }

  /** Two calls of the sweeper; `a1` is the archive at the second one. */
  method SweepTwice(s: Sweeper, r0: Round, r1: Round, ghost exchange: map<string, set<int>>, ghost a0: map<string, set<int>>,
                    ghost a1: map<string, set<int>>)
    returns (ghost b1: map<string, set<int>>)
    requires AllClosed(exchange, a0, s.empty) && Clean(s.maxRanges, a0, exchange, s.empty, r0) && r0.from <= r1.from
    requires forall b0, empty ::
      Swept(a0, exchange, Pruned(s.empty, r0.start), r0, b0, empty) && Expiries(Pruned(s.empty, r0.start), empty, r0.start + s.ttl) ==>
        OnlyNewer(b0, a1, r0.to) && Clean(s.maxRanges, a1, exchange, empty, r1)
    modifies s
    ensures forall sym, top :: top in BarsOf(a1, sym) && top < r0.to ==> Settles(b1, s.empty, sym, r1.from, r1.to, top)
  {
    ghost var m0 := Pruned(s.empty, r0.start);
    assert AllClosed(exchange, a0, m0);
    ghost var b0, mx;
    var p;
    p, b0 := SweepClean(s, r0, a0, exchange);
    mx := s.empty;
    ghost var m1 := Pruned(s.empty, r1.start);
    p, b1 := SweepClean(s, r1, a1, exchange);
    forall sym, top, hole | top in BarsOf(a1, sym) && top < r0.to && IsHole(BarsOf(b1, sym), r1.from, r1.to, hole) && hole.hi <= top
      ensures (sym, hole.lo) in s.empty
    {
      TwoRoundsSettle(exchange, a0, m0, r0, b0, a1, m1, r1, b1, s.empty, sym, top, hole, mx);
    }
  }
}
