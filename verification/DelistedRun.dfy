/**
 What a symbol rejected half-way through its fetch does to a run of the reconciler
 (fetchSymbol and pass in internal/openinterest/hist.go): a gap of two bars is planned,
 the second of two requests is rejected, and the pass commits over the bar that was
 never read.
 */
module DelistedRun {
  import opened Align
  import opened BackwardPaging
  import opened HistSource
  import opened Ledger
  import opened OpenInterestFetch
  import opened Options
  import opened WatermarkRun
  import PlanJobs

  const SYMBOL := "S"
  const NOW := 900_000

  /** One bar a page, three bars of reach. */
  function Config(): HistConfig {
    HistConfig(1, 1, 1, 600_000, 900_000)
  }

  /** The history of the symbol: the labels of the bars that open at 300 and 600 seconds. */
  function History(value: Reading): seq<Point> {
    [Point(600_000, value), Point(900_000, value)]
  }

  /** The row of the newer one. */
  function Pushed(value: Reading): Row {
    RowOf(SYMBOL, History(value)[1])
  }

  /** The gap is planned for a symbol without a watermark; once the watermark is past it, no incremental pass asks for it. */
  lemma {:induction false} AskedOnce()
    ensures Config().Sane()
    ensures PlanJobs.Plan(Config(), SYMBOL, None, NOW, false) == Some(PlanJobs.Job(SYMBOL, BAR, 2, true))
    ensures forall now :: PlanJobs.Plan(Config(), SYMBOL, Some(600_000), now, false).Some? ==>
      PlanJobs.Plan(Config(), SYMBOL, Some(600_000), now, false).value.since >= 600_000
  {
  }

  lemma {:induction false} HistoryIs(value: Reading)
    ensures Ascending(History(value)) && Below(History(value), 600_000) == 0 && Upto(History(value), 600_000, NOW) == 2
    ensures Below(History(value), NOW) == 1
  {
    var src := History(value);
    assert Stamp(src, 0) == 600_000 && Stamp(src, 1) == 900_000;
  }

  lemma {:induction false} SecondIsRejected(value: Reading, fault: nat -> Fault)
    requires fault(0).Answered? && fault(1).Rejected?
    ensures Ascending(History(value)) && Config().Sane()
    ensures GapVerdict(Config(), History(value), fault, BAR, 2, NOW) == Verdict(UnknownSymbol, 1, 1)
    ensures 1 <= Upto(History(value), BAR + BAR, NOW)
  {
    HistoryIs(value);
    var cfg, src := Config(), History(value);
    assert Paging(cfg, src, fault, 600_000, 0, 1, 1, 1, 5) == Verdict(UnknownSymbol, 1, 1);
  }

  /** The fetch of that gap ends without an error, with one of its two rows. */
  method SilentHole(value: Reading, fault: nat -> Fault, refuse: nat -> bool) returns (end: Fetched, pushed: seq<Row>, newest: Option<int>)
    requires value.Number? && value.x >= 0.0 && (forall k :: !refuse(k))
    requires fault(0).Answered? && fault(1).Rejected?
    ensures end == Delisted && pushed == [Pushed(value)] && newest == Some(600_000)
  {
    SecondIsRejected(value, fault);
    IsWelcome(value, refuse);
    end, pushed, newest := FetchSymbol(Config(), SYMBOL, History(value), fault, refuse, BAR, 2, NOW);
    OnlyTheNewest(value, pushed);
  }

  lemma {:induction false} IsWelcome(value: Reading, refuse: nat -> bool)
    requires value.Number? && value.x >= 0.0 && (forall k :: !refuse(k))
    ensures Welcome(SYMBOL, History(value), refuse)
  {
  }

  lemma {:induction false} OnlyTheNewest(value: Reading, pushed: seq<Row>)
    requires Ascending(History(value)) && 1 <= Upto(History(value), BAR + BAR, NOW)
    requires multiset(pushed) == multiset(ReadRows(SYMBOL, History(value), BAR, NOW, Verdict(UnknownSymbol, 1, 1)))
    ensures pushed == [Pushed(value)] && NewestStart(pushed, |pushed|) == Some(600_000)
  {
    HistoryIs(value);
    var src := History(value);
    assert RowsOf(SYMBOL, src, NOW, 1, 1) == [];
    assert RowsOf(SYMBOL, src, NOW, 1, 2) == [RowOf(SYMBOL, src[1])];
    OneRow(pushed, RowOf(SYMBOL, src[1]));
  }

  lemma {:induction false} OneRow(rows: seq<Row>, r: Row)
    requires multiset(rows) == multiset([r])
    ensures rows == [r] && NewestStart(rows, |rows|) == Some(r.start)
  {
    assert |rows| == |multiset(rows)| == 1;
    assert rows[0] in multiset(rows);
    assert NewestStart(rows, 0) == None;
  }

  lemma {:induction false} Before(h: World<Reading>, s: System<Reading>, e: Event<Reading>, events: seq<Event<Reading>>, t: System<Reading>)
    requires Enabled(h, s, e) && Runs(h, Apply(h, s, e), events, t)
    ensures Runs(h, s, [e] + events, t)
  {
    assert ([e] + events)[1..] == events;
  }

  /** What the fetch has pushed is what the run's event asks for. */
  lemma {:induction false} FetchIsAllowed(value: Reading)
    ensures WatermarkRun.Fetched(map[SYMBOL := History(value)], SYMBOL, Attempt(600_000, [Pushed(value)]), 900_000, 2, NOW)
  {
    HistoryIs(value);
    var src := History(value);
    assert RowsOf(SYMBOL, src, NOW, 1, 1) == [];
    assert RowsOf(SYMBOL, src, NOW, 1, 2) == [RowOf(SYMBOL, src[1])];
    assert Stamp(src, 0) <= NOW && Stamp(src, 1) <= NOW;
  }

  /** The fetching part of a pass, and its flush, which loses nothing. */
  function FetchPart(value: Reading): seq<Event<Reading>> {
    [StartPass(map[SYMBOL := BAR])]
    + ([StartFetch(SYMBOL)] + ([HistPush(SYMBOL, Pushed(value))] + ([FetchOk(SYMBOL, 900_000, 2, NOW)] + [])))
  }

  function FlushPart(): seq<Event<Reading>> {
    [AskBarrier] + ([BarrierTakes] + ([BarrierReplies(true)] + []))
  }

  /** The state after the fetch. */
  function Fetched(value: Reading): System<Reading> {
    System(Writer([Pushed(value)], [], [], false, 0, false, false), map[], map[], Fetching(false), map[SYMBOL := BAR],
           map[], map[SYMBOL := Outcome(900_000, [Pushed(value)])], {})
  }

  /** The state after the commit. */
  function Committed(value: Reading): System<Reading> {
    System(Writer([], [], [Settled([Pushed(value)], true)], false, 1, false, false), map[SYMBOL := 600_000],
           map[SYMBOL := 900_000], Idle, map[], map[], map[], {})
  }

  /** The state after the barrier. */
  function Flushed(value: Reading): System<Reading> {
    Fetched(value).(phase := Replied(true), w := Committed(value).w)
  }

  /** The state once the row has been pushed. */
  function OnePushed(value: Reading): System<Reading> {
    Fetched(value).(open := map[SYMBOL := Attempt(600_000, [Pushed(value)])], done := map[])
  }

  lemma {:induction false} PushRuns(value: Reading, rest: seq<Event<Reading>>, t: System<Reading>)
    requires Runs(map[SYMBOL := History(value)], OnePushed(value), rest, t)
    ensures Runs(map[SYMBOL := History(value)], Start(map[]),
                 [StartPass(map[SYMBOL := BAR])] + ([StartFetch(SYMBOL)] + ([HistPush(SYMBOL, Pushed(value))] + rest)), t)
  {
    var h, row := map[SYMBOL := History(value)], Pushed(value);
    var s1 := Apply(h, Start(map[]), StartPass(map[SYMBOL := BAR]));
    var s2 := Apply(h, s1, StartFetch(SYMBOL));
    assert s2.open == map[SYMBOL := Attempt(600_000, [])] && [] + [row] == [row];
    assert Apply(h, s2, HistPush(SYMBOL, row)).open == OnePushed(value).open;
    assert Apply(h, s2, HistPush(SYMBOL, row)) == OnePushed(value);
    Before(h, s2, HistPush(SYMBOL, row), rest, t);
    Before(h, s1, StartFetch(SYMBOL), [HistPush(SYMBOL, row)] + rest, t);
    Before(h, Start(map[]), StartPass(map[SYMBOL := BAR]), [StartFetch(SYMBOL)] + ([HistPush(SYMBOL, row)] + rest), t);
  }

  lemma {:induction false} FetchRuns(value: Reading)
    ensures Runs(map[SYMBOL := History(value)], Start(map[]), FetchPart(value), Fetched(value))
  {
    var h, ends := map[SYMBOL := History(value)], FetchOk(SYMBOL, 900_000, 2, NOW);
    FetchIsAllowed(value);
    assert OnePushed(value).open - {SYMBOL} == map[];
    assert Apply(h, OnePushed(value), ends) == Fetched(value);
    Before(h, OnePushed(value), ends, [], Fetched(value));
    PushRuns(value, [ends] + [], Fetched(value));
  }

  /** The commit moves the watermark to the newest row of the fetch. */
  lemma {:induction false} CommitMoves(value: Reading, s: System<Reading>)
    requires s == Flushed(value)
    ensures Runs(map[SYMBOL := History(value)], s, [Commit], Committed(value))
  {
    OneRow([Pushed(value)], Pushed(value));
    assert Advances(s, SYMBOL) && NewestOf(s.done[SYMBOL]) == Some(600_000);
    assert LastAfter(s) == map[SYMBOL := 600_000];
    assert CoverAfter(s) == map[SYMBOL := 900_000];
    Before(map[SYMBOL := History(value)], s, Commit, [], Committed(value));
    var commit: seq<Event<Reading>> := [Commit];
    assert commit + [] == commit;
  }

  lemma {:induction false} FlushRuns(value: Reading)
    ensures Runs(map[SYMBOL := History(value)], Fetched(value), FlushPart(), Flushed(value))
  {
    var h := map[SYMBOL := History(value)];
    var s5 := Apply(h, Fetched(value), AskBarrier);
    var s6 := Apply(h, s5, BarrierTakes);
    assert s6.w == Writer([], [Pushed(value)], [], false, 0, true, false);
    assert Apply(h, s6, BarrierReplies(true)).w == Committed(value).w;
    var last: seq<Event<Reading>> := [BarrierReplies(true)] + [];
    Before(h, s6, BarrierReplies(true), [], Flushed(value));
    Before(h, s5, BarrierTakes, last, Flushed(value));
    Before(h, Fetched(value), AskBarrier, [BarrierTakes] + last, Flushed(value));
  }

  lemma {:induction false} RunsOn(h: World<Reading>, s: System<Reading>, a: seq<Event<Reading>>, m: System<Reading>,
                                  b: seq<Event<Reading>>, t: System<Reading>)
    requires Runs(h, s, a, m) && Runs(h, m, b, t)
    ensures Runs(h, s, a + b, t)
    decreases |a|
  {
    if a == [] {
      assert a + b == b;
    } else {
      RunsOn(h, Apply(h, s, a[0]), a[1..], m, b, t);
      assert a + b == [a[0]] + (a[1..] + b);
      Before(h, s, a[0], a[1..] + b, t);
    }
  }

  /** Some run of a process that has loaded no watermark ends in `t`. */
  ghost predicate Reachable(h: World<Reading>, t: System<Reading>) {
    exists events :: Runs(h, Start(map[]), events, t)
  }

  lemma {:induction false} PassRuns(value: Reading)
    ensures Reachable(map[SYMBOL := History(value)], Committed(value))
  {
    var h := map[SYMBOL := History(value)];
    FetchRuns(value);
    FlushRuns(value);
    CommitMoves(value, Flushed(value));
    RunsOn(h, Start(map[]), FetchPart(value), Fetched(value), FlushPart(), Flushed(value));
    RunsOn(h, Start(map[]), FetchPart(value) + FlushPart(), Flushed(value), [Commit], Committed(value));
  }

  /**
   A run of the reconciler that leaves a hole below its watermark: the gap is one that is
   planned, nothing fails, the barrier answers nil, the watermark moves to the second bar
   of the gap, and the first one is not in the store.
   */
  lemma {:induction false} HoleBelowWatermark(value: Reading)
    ensures var h, t := map[SYMBOL := History(value)], Committed(value);
            && Reachable(h, t)
            && t.last[SYMBOL] == 600_000 && !Covered(h, t.w, SYMBOL, BAR + BAR, t.last[SYMBOL])
  {
    NotCovered(value, Committed(value).w);
    PassRuns(value);
  }

  lemma {:induction false} NotCovered(value: Reading, w: Writer<Row>)
    requires w.settled == [Settled([Pushed(value)], true)]
    ensures !Covered(map[SYMBOL := History(value)], w, SYMBOL, 600_000, 600_000)
  {
    var src := History(value);
    assert Stamp(src, 0) == 600_000 && !Stored(w, RowOf(SYMBOL, src[0]));
  }
}
