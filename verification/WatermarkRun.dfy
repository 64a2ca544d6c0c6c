/**
 Whole runs of the open-interest reconciler and its writer (Reconciler.pass in
 internal/openinterest/hist.go with the writer's run loop): concurrent fetches, live
 rows in the same writer, background flushes, the barrier and the watermark.
 Every event is one atomic action of one goroutine; a run is any sequence of them.
 `V` is what a row holds, so that the long/short ratios have the same runs: RatioRun.
 */
module WatermarkRun {
  import opened Align
  import opened HistSource
  import opened Ledger
  import opened OpenInterestFetch
  import opened Options
  import BackwardPaging
  import PlanJobs

  /** A fetch in progress: where its gap starts and what it has pushed so far. */
  datatype Attempt<V> = Attempt(startLabel: int, rows: seq<Record<V>>)

  /** A fetch that ended without an error has paged down to `from`. */
  datatype Outcome<V> = Outcome(from: int, rows: seq<Record<V>>)

  datatype Phase = Idle | Fetching(retry: bool) | Flushing | Replied(nil: bool) | Ended

  /**
   `last` is the watermark: the newest calibrated bar per symbol. `cover` is a history
   variable: for a symbol it names the label from which this run has fetched all.
   */
  datatype System<V> = System(
    w: Writer<Record<V>>,
    last: map<string, int>,
    cover: map<string, int>,
    phase: Phase,
    jobs: map<string, int>,
    open: map<string, Attempt<V>>,
    done: map<string, Outcome<V>>,
    failed: set<string>)

  datatype Event<V> =
    | LivePush(row: Record<V>)
    | WriterReceive(batchSize: nat, ok: bool)
    | WriterTick(ok: bool)
    | WriterStop(ok: bool)
    | StartPass(planned: map<string, int>)
    | StartFetch(sym: string)
    | HistPush(sym: string, row: Record<V>)
    | FetchOk(sym: string, from: int, top: nat, now: int)
    | FetchFailed(sym: string)
    | Retry
    | AskBarrier
    | BarrierTakes
    | BarrierReplies(ok: bool)
    | Commit
    | Cancel

  /** The eventual history of every symbol; what a fetch sees is the part published by then. */
  type World<V> = map<string, seq<Labelled<V>>>

  /** What a fetch that ended without an error has pushed: the contract of FetchSymbol. */
  ghost predicate Fetched<V(!new)>(h: World<V>, sym: string, a: Attempt<V>, from: int, top: nat, now: int) {
    && sym in h && Ascending(h[sym])
    && a.startLabel <= from && Below(h[sym], from) <= top <= |h[sym]|
    && (forall k: nat {:trigger Stamp(h[sym], k)} :: k < top ==> Stamp(h[sym], k) <= now)
    && multiset(a.rows) == multiset(RowsOf(sym, h[sym], now, Below(h[sym], from), top))
  }

  ghost predicate AllFetched<V>(s: System<V>) {
    s.open == map[] && s.jobs.Keys == s.done.Keys + s.failed
  }

  ghost predicate Enabled<V(!new)>(h: World<V>, s: System<V>, e: Event<V>) {
    match e
    case LivePush(_) => true
    case WriterReceive(_, _) => s.w.queue != [] && !s.w.draining && !s.w.stopped
    case WriterTick(_) => !s.w.draining && !s.w.stopped
    case WriterStop(_) => !s.w.draining && !s.w.stopped
    case StartPass(_) => s.phase.Idle?
    case StartFetch(sym) => s.phase.Fetching? && sym in s.jobs && sym !in s.open && sym !in s.done && sym !in s.failed
    case HistPush(sym, _) => s.phase.Fetching? && sym in s.open
    case FetchOk(sym, from, top, now) => s.phase.Fetching? && sym in s.open && Fetched(h, sym, s.open[sym], from, top, now)
    case FetchFailed(sym) => s.phase.Fetching? && sym in s.open
    case Retry => s.phase == Fetching(false) && AllFetched(s) && s.failed != {}
    case AskBarrier => s.phase.Fetching? && AllFetched(s) && !s.w.draining
    case BarrierTakes => s.w.draining && s.w.queue != []
    case BarrierReplies(_) => s.w.draining && s.w.queue == []
    case Commit => s.phase.Replied?
    case Cancel => !s.phase.Ended?
  }

  function NewestOf<V>(o: Outcome<V>): Option<int> {
    NewestStart(o.rows, |o.rows|)
  }

  /** The symbols whose watermark moves when the barrier answered nil. */
  predicate Advances<V>(s: System<V>, sym: string) {
    && s.phase == Replied(true) && sym in s.done && sym !in s.failed
    && NewestOf(s.done[sym]).Some?
    && (sym !in s.last || NewestOf(s.done[sym]).value > s.last[sym])
  }

  function LastAfter<V>(s: System<V>): map<string, int> {
    map sym | sym in s.last.Keys + s.done.Keys && (sym in s.last || Advances(s, sym)) ::
      if Advances(s, sym) then NewestOf(s.done[sym]).value else s.last[sym]
  }

  /** Coverage joins up when the fetch starts no later than the old watermark. */
  function CoverAfter<V>(s: System<V>): map<string, int> {
    map sym | sym in s.cover.Keys + s.done.Keys && (sym in s.cover || Advances(s, sym)) ::
      if !Advances(s, sym) then s.cover[sym]
      else if sym in s.cover && sym in s.last && s.done[sym].from <= s.last[sym] + BAR && s.cover[sym] <= s.done[sym].from
        then s.cover[sym]
        else s.done[sym].from
  }

  ghost function Apply<V(!new)>(h: World<V>, s: System<V>, e: Event<V>): System<V>
    requires Enabled(h, s, e)
  {
    match e
    case LivePush(r) => s.(w := Push(s.w, r))
    case WriterReceive(size, ok) => s.(w := Receive(s.w, size, ok))
    case WriterTick(ok) => s.(w := Flush(s.w, ok))
    case WriterStop(ok) => s.(w := Stop(s.w, ok))
    case StartPass(planned) => s.(phase := Fetching(false), jobs := planned, open := map[], done := map[], failed := {})
    case StartFetch(sym) => s.(open := s.open[sym := Attempt(s.jobs[sym] + BAR, [])])
    case HistPush(sym, r) =>
      s.(w := Push(s.w, r), open := s.open[sym := s.open[sym].(rows := s.open[sym].rows + [r])])
    case FetchOk(sym, from, _, _) =>
      s.(open := s.open - {sym}, done := s.done[sym := Outcome(from, s.open[sym].rows)])
    case FetchFailed(sym) => s.(open := s.open - {sym}, failed := s.failed + {sym})
    case Retry => s.(phase := Fetching(true), failed := {})
    case AskBarrier =>
      if s.w.stopped then s.(phase := Replied(false)) else s.(phase := Flushing, w := BeginBarrier(s.w))
    case BarrierTakes => s.(w := TakeOne(s.w))
    case BarrierReplies(ok) =>
      s.(phase := if s.phase.Flushing? then Replied(BarrierReply(s.w, ok)) else s.phase, w := EndBarrier(s.w, ok))
    case Commit => s.(phase := Idle, last := LastAfter(s), cover := CoverAfter(s),
                      jobs := map[], open := map[], done := map[], failed := {})
    case Cancel => s.(phase := Ended)
  }

  ghost predicate Runs<V(!new)>(h: World<V>, s: System<V>, events: seq<Event<V>>, t: System<V>)
    decreases |events|
  {
    if events == [] then s == t
    else Enabled(h, s, events[0]) && Runs(h, Apply(h, s, events[0]), events[1..], t)
  }

  /** A process that has loaded its watermarks and done nothing yet. */
  function Start<V>(loaded: map<string, int>): System<V> {
    System(Fresh(), loaded, map[], Idle, map[], map[], map[], {})
  }

  // ---------------------------------------------------------------- the invariant

  /** The row is in the store. */
  ghost predicate Stored<V>(w: Writer<Record<V>>, r: Record<V>) {
    exists k :: 0 <= k < |w.settled| && w.settled[k].landed && r in w.settled[k].rows
  }

  /** The row was accepted since the last barrier. */
  ghost predicate Recent<V>(w: Writer<Record<V>>, r: Record<V>) {
    || r in w.queue || r in w.batch
    || exists k :: w.mark <= k < |w.settled| && r in w.settled[k].rows
  }

  ghost predicate AllRecent<V>(w: Writer<Record<V>>, rows: seq<Record<V>>) {
    forall r :: r in rows ==> Recent(w, r)
  }

  ghost predicate AllStored<V>(w: Writer<Record<V>>, rows: seq<Record<V>>) {
    forall r :: r in rows ==> Stored(w, r)
  }

  /** Until the barrier every pushed row is recent; after a nil answer it is in the store. */
  ghost predicate Tracked<V>(s: System<V>) {
    && (s.phase.Fetching? || s.phase.Flushing? ==>
         && (forall sym :: sym in s.open ==> AllRecent(s.w, s.open[sym].rows))
         && (forall sym :: sym in s.done ==> AllRecent(s.w, s.done[sym].rows)))
    && (s.phase == Replied(true) ==> forall sym :: sym in s.done ==> AllStored(s.w, s.done[sym].rows))
  }

  /** Every on-grid point from `from` up to the bar `newest` has its row in the store. */
  ghost predicate Covered<V(!new)>(h: World<V>, w: Writer<Record<V>>, sym: string, from: int, newest: int) {
    && sym in h
    && forall k: nat {:trigger Stamp(h[sym], k)} :: k < |h[sym]| ==>
         OnGrid(Stamp(h[sym], k)) && from <= Stamp(h[sym], k) <= newest + BAR ==> Stored(w, RowOf(sym, h[sym][k]))
  }

  /** A finished fetch lists the row of every on-grid point from its `from` to its newest row. */
  ghost predicate Gapless<V(!new)>(h: World<V>, sym: string, o: Outcome<V>) {
    && sym in h
    && (NewestOf(o).Some? ==>
         forall k: nat {:trigger Stamp(h[sym], k)} :: k < |h[sym]| ==>
           OnGrid(Stamp(h[sym], k)) && o.from <= Stamp(h[sym], k) <= NewestOf(o).value + BAR ==>
           RowOf(sym, h[sym][k]) in o.rows)
  }

  ghost predicate Inv<V(!new)>(h: World<V>, s: System<V>) {
    forall u {:trigger Unfold(u)} :: Unfold(u) ==>
      && Consistent(s.w)
      && Tracked(s)
      && (s.w.draining ==> s.phase.Flushing? || s.phase.Ended?)
      && (s.phase.Flushing? ==> s.open == map[])
      && (forall sym :: sym in s.done ==> Gapless(h, sym, s.done[sym]))
      && (forall sym :: sym in s.cover ==> sym in s.last && Covered(h, s.w, sym, s.cover[sym], s.last[sym]))
  }

  // ---------------------------------------------------------------- one step

  lemma {:induction false} StaysStored<V>(w: Writer<Record<V>>, w': Writer<Record<V>>, r: Record<V>)
    requires w.settled <= w'.settled && Stored(w, r)
    ensures Stored(w', r)
  {
  }

  lemma {:induction false} StaysRecent<V>(w: Writer<Record<V>>, w': Writer<Record<V>>, r: Record<V>)
    requires w.settled == w'.settled && w.mark == w'.mark && Recent(w, r)
    requires r in w.queue || r in w.batch ==> r in w'.queue || r in w'.batch
    ensures Recent(w', r)
  {
  }

  lemma {:induction false} TakeKeepsRecent<V>(w: Writer<Record<V>>, r: Record<V>)
    requires w.queue != [] && Recent(w, r)
    ensures Recent(TakeOne(w), r)
  {
  }

  lemma {:induction false} DrainKeepsRecent<V>(w: Writer<Record<V>>, r: Record<V>)
    requires Recent(w, r)
    ensures Recent(Drain(w), r)
  {
  }

  lemma {:induction false} FlushKeepsRecent<V>(w: Writer<Record<V>>, ok: bool, r: Record<V>)
    requires Consistent(w) && Recent(w, r)
    ensures Recent(Flush(w, ok), r)
  {
    var f := Flush(w, ok);
    if k :| w.mark <= k < |w.settled| && r in w.settled[k].rows {
      assert f.settled[k] == w.settled[k];
    } else if r in w.batch {
      assert f.settled[|w.settled|].rows == w.batch;
    }
  }

  /** A nil answer means that every recent row is in the store. */
  lemma {:induction false} RecentIsStored<V>(w: Writer<Record<V>>, ok: bool, r: Record<V>)
    requires Consistent(w) && w.queue == [] && BarrierReply(w, ok) && Recent(w, r)
    ensures Stored(EndBarrier(w, ok), r)
  {
    BarrierIsHonest(w, ok);
    FlushKeepsRecent(w, ok, r);
    var e := EndBarrier(w, ok);
    var k :| w.mark <= k < |e.settled| && r in e.settled[k].rows;
    assert e.settled[k].landed;
  }

  /** Changing only the writer, without losing a stored or a recent row, keeps the invariant. */
  lemma {:induction false} WriterSteps<V(!new)>(h: World<V>, s: System<V>, w': Writer<Record<V>>)
    requires Inv(h, s) && Carries(s.w, w')
    ensures Inv(h, s.(w := w'))
  {
    assert Unfold(0);
    var t := s.(w := w');
    forall r | Stored(s.w, r) ensures Stored(w', r) { StaysStored(s.w, w', r); }
  }

  /** What a step of the writer loses: no settled batch, no recent row. */
  ghost predicate Carries<V(!new)>(w: Writer<Record<V>>, w': Writer<Record<V>>) {
    && Consistent(w') && w.settled <= w'.settled && w'.draining == w.draining
    && forall r :: Recent(w, r) ==> Recent(w', r)
  }

  lemma {:induction false} FlushCarries<V(!new)>(w: Writer<Record<V>>, ok: bool)
    requires Consistent(w)
    ensures Carries(w, Flush(w, ok))
  {
    FlushKeeps(w, ok);
    forall r | Recent(w, r) ensures Recent(Flush(w, ok), r) { FlushKeepsRecent(w, ok, r); }
  }

  lemma {:induction false} TakeCarries<V(!new)>(w: Writer<Record<V>>)
    requires Consistent(w) && w.queue != []
    ensures Carries(w, TakeOne(w))
  {
    TakeOneKeeps(w);
    forall r | Recent(w, r) ensures Recent(TakeOne(w), r) { TakeKeepsRecent(w, r); }
  }

  lemma {:induction false} StopCarries<V(!new)>(w: Writer<Record<V>>, ok: bool)
    requires Consistent(w)
    ensures Carries(w, Stop(w, ok))
  {
    DrainKeeps(w);
    FlushCarries(Drain(w), ok);
    forall r | Recent(w, r) ensures Recent(Stop(w, ok), r) {
      DrainKeepsRecent(w, r);
      StaysRecent(Flush(Drain(w), ok), Stop(w, ok), r);
    }
  }

  lemma {:induction false} PushCarries<V(!new)>(w: Writer<Record<V>>, row: Record<V>)
    requires Consistent(w)
    ensures Carries(w, Push(w, row)) && Recent(Push(w, row), row)
  {
    PushAppends(w, row);
    forall r | Recent(w, r) ensures Recent(Push(w, row), r) { StaysRecent(w, Push(w, row), r); }
    assert row in Push(w, row).queue;
  }

  lemma {:induction false} WriterEventKeeps<V(!new)>(h: World<V>, s: System<V>, e: Event<V>)
    requires Inv(h, s) && Enabled(h, s, e)
    requires e.LivePush? || e.WriterReceive? || e.WriterTick? || e.WriterStop? || e.BarrierTakes?
    ensures Inv(h, Apply(h, s, e))
  {
    assert Consistent(s.w) by { assert Unfold(0); }
    match e {
      case LivePush(row) =>
        PushCarries(s.w, row);
        WriterSteps(h, s, Push(s.w, row));
      case WriterReceive(size, ok) =>
        TakeCarries(s.w);
        FlushCarries(TakeOne(s.w), ok);
        WriterSteps(h, s, Receive(s.w, size, ok));
      case WriterTick(ok) =>
        FlushCarries(s.w, ok);
        WriterSteps(h, s, Flush(s.w, ok));
      case WriterStop(ok) =>
        StopCarries(s.w, ok);
        WriterSteps(h, s, Stop(s.w, ok));
      case BarrierTakes =>
        TakeCarries(s.w);
        WriterSteps(h, s, TakeOne(s.w));
    }
  }

  lemma {:induction false} BarrierRepliesKeeps<V(!new)>(h: World<V>, s: System<V>, ok: bool)
    requires Inv(h, s) && Enabled(h, s, BarrierReplies(ok))
    ensures Inv(h, Apply(h, s, BarrierReplies(ok)))
  {
    assert Unfold(0);
    BarrierStores(s.w, ok);
    StillCovered(h, s, EndBarrier(s.w, ok));
    assert Tracked(Apply(h, s, BarrierReplies(ok)));
  }

  /** Serving the barrier settles everything, and a nil answer stores every recent row. */
  lemma {:induction false} BarrierStores<V(!new)>(w: Writer<Record<V>>, ok: bool)
    requires Consistent(w) && w.queue == []
    ensures Consistent(EndBarrier(w, ok)) && w.settled <= EndBarrier(w, ok).settled && !EndBarrier(w, ok).draining
    ensures BarrierReply(w, ok) ==> forall r :: Recent(w, r) ==> Stored(EndBarrier(w, ok), r)
  {
    BarrierIsHonest(w, ok);
    if BarrierReply(w, ok) {
      forall r | Recent(w, r) ensures Stored(EndBarrier(w, ok), r) { RecentIsStored(w, ok, r); }
    }
  }

  /** A writer that has lost nothing settled covers what was covered. */
  lemma {:induction false} StillCovered<V(!new)>(h: World<V>, s: System<V>, w': Writer<Record<V>>)
    requires s.w.settled <= w'.settled
    requires forall sym :: sym in s.cover ==> sym in s.last && Covered(h, s.w, sym, s.cover[sym], s.last[sym])
    ensures forall sym :: sym in s.cover ==> Covered(h, w', sym, s.cover[sym], s.last[sym])
  {
    forall r | Stored(s.w, r) ensures Stored(w', r) { StaysStored(s.w, w', r); }
  }

  lemma {:induction false} HistPushKeeps<V(!new)>(h: World<V>, s: System<V>, sym: string, row: Record<V>)
    requires Inv(h, s) && Enabled(h, s, HistPush(sym, row))
    ensures Inv(h, Apply(h, s, HistPush(sym, row)))
  {
    assert Unfold(0);
    PushCarries(s.w, row);
    WriterSteps(h, s, Push(s.w, row));
  }

  /** The newest row of a finished fetch belongs to a point it has read. */
  lemma {:induction false} NewestIsRead<V(!new)>(h: World<V>, sym: string, a: Attempt<V>, from: int, top: nat, now: int) returns (m: nat)
    requires Fetched(h, sym, a, from, top, now) && NewestStart(a.rows, |a.rows|).Some?
    ensures m < top <= |h[sym]| && NewestStart(a.rows, |a.rows|).value + BAR == Stamp(h[sym], m)
  {
    var src, low := h[sym], Below(h[sym], from);
    NewestStartIsMax(a.rows, |a.rows|);
    var i :| 0 <= i < |a.rows| && a.rows[i].start == NewestStart(a.rows, |a.rows|).value;
    assert a.rows[i] in multiset(a.rows);
    RowsOfExact(sym, src, now, low, top, a.rows[i]);
    m :| low <= m < top && Kept(src[m], now) && a.rows[i] == RowOf(sym, src[m]);
  }

  /** Every on-grid point a finished fetch has read is among its rows. */
  lemma {:induction false} ReadIsPushed<V(!new)>(h: World<V>, sym: string, a: Attempt<V>, from: int, top: nat, now: int, k: nat)
    requires Fetched(h, sym, a, from, top, now) && k < top && OnGrid(Stamp(h[sym], k)) && from <= Stamp(h[sym], k)
    ensures RowOf(sym, h[sym][k]) in a.rows
  {
    var src, low := h[sym], Below(h[sym], from);
    var r := RowOf(sym, src[k]);
    RowsOfExact(sym, src, now, low, top, r);
    assert r in multiset(RowsOf(sym, src, now, low, top));
    assert r in multiset(a.rows);
  }

  lemma {:induction false} FetchedIsGapless<V(!new)>(h: World<V>, sym: string, a: Attempt<V>, from: int, top: nat, now: int)
    requires Fetched(h, sym, a, from, top, now)
    ensures Gapless(h, sym, Outcome(from, a.rows))
  {
    var src := h[sym];
    if NewestOf(Outcome(from, a.rows)).Some? {
      var m := NewestIsRead(h, sym, a, from, top, now);
      forall k: nat {:trigger Stamp(src, k)} | k < |src| && OnGrid(Stamp(src, k)) && from <= Stamp(src, k) <= Stamp(src, m)
        ensures RowOf(sym, src[k]) in a.rows
      {
        assert k <= m;
        ReadIsPushed(h, sym, a, from, top, now, k);
      }
    }
  }

  /** The watermark of a symbol moves only over rows that are in the store. */
  lemma {:induction false} CommitKeeps<V(!new)>(h: World<V>, s: System<V>)
    requires Inv(h, s) && s.phase.Replied?
    ensures Inv(h, Apply(h, s, Commit))
  {
    assert Unfold(0);
    var t := Apply(h, s, Commit);
    forall sym | sym in t.cover ensures sym in t.last && Covered(h, t.w, sym, t.cover[sym], t.last[sym]) {
      if Advances(s, sym) {
        var o, src := s.done[sym], h[sym];
        forall k: nat {:trigger Stamp(src, k)} | k < |src| && OnGrid(Stamp(src, k)) && t.cover[sym] <= Stamp(src, k) <= t.last[sym] + BAR
          ensures Stored(s.w, RowOf(sym, src[k]))
        {
          if o.from <= Stamp(src, k) {
            assert RowOf(sym, src[k]) in o.rows;
          }
        }
      }
    }
  }

  lemma {:induction false} FetchEventKeeps<V(!new)>(h: World<V>, s: System<V>, e: Event<V>)
    requires Inv(h, s) && Enabled(h, s, e)
    requires e.StartFetch? || e.FetchOk? || e.FetchFailed?
    ensures Inv(h, Apply(h, s, e))
  {
    assert Unfold(0);
    if e.FetchOk? {
      FetchedIsGapless(h, e.sym, s.open[e.sym], e.from, e.top, e.now);
    }
  }

  lemma {:induction false} AskBarrierKeeps<V(!new)>(h: World<V>, s: System<V>)
    requires Inv(h, s) && Enabled(h, s, AskBarrier)
    ensures Inv(h, Apply(h, s, AskBarrier))
  {
    assert Unfold(0);
    BeginBarrierKeeps(s.w);
    StillCovered(h, s, BeginBarrier(s.w));
    assert Tracked(Apply(h, s, AskBarrier));
  }

  lemma {:induction false} BeginBarrierKeeps<V(!new)>(w: Writer<Record<V>>)
    requires Consistent(w)
    ensures Consistent(BeginBarrier(w)) && w.settled <= BeginBarrier(w).settled
    ensures forall r :: Recent(w, r) ==> Recent(BeginBarrier(w), r)
  {
    forall r | Recent(w, r) ensures Recent(BeginBarrier(w), r) { StaysRecent(w, BeginBarrier(w), r); }
  }

  lemma {:induction false} PassEventKeeps<V(!new)>(h: World<V>, s: System<V>, e: Event<V>)
    requires Inv(h, s) && Enabled(h, s, e)
    requires e.StartPass? || e.Retry? || e.Cancel?
    ensures Inv(h, Apply(h, s, e))
  {
    assert Unfold(0);
    assert Tracked(Apply(h, s, e));
  }

  lemma {:induction false} StepKeeps<V(!new)>(h: World<V>, s: System<V>, e: Event<V>)
    requires Inv(h, s) && Enabled(h, s, e)
    ensures Inv(h, Apply(h, s, e))
  {
    if e.LivePush? || e.WriterReceive? || e.WriterTick? || e.WriterStop? || e.BarrierTakes? {
      WriterEventKeeps(h, s, e);
    } else if e.StartFetch? || e.FetchOk? || e.FetchFailed? {
      FetchEventKeeps(h, s, e);
    } else if e.StartPass? || e.Retry? || e.Cancel? {
      PassEventKeeps(h, s, e);
    } else {
      match e {
        case BarrierReplies(ok) => BarrierRepliesKeeps(h, s, ok);
        case HistPush(sym, row) => HistPushKeeps(h, s, sym, row);
        case AskBarrier => AskBarrierKeeps(h, s);
        case Commit => CommitKeeps(h, s);
      }
    }
  }

  // ---------------------------------------------------------------- whole runs

  lemma {:induction false} RunKeeps<V(!new)>(h: World<V>, s: System<V>, events: seq<Event<V>>, t: System<V>)
    requires Inv(h, s) && Runs(h, s, events, t)
    ensures Inv(h, t)
    decreases |events|
  {
    if events != [] {
      StepKeeps(h, s, events[0]);
      RunKeeps(h, Apply(h, s, events[0]), events[1..], t);
    }
  }

  /**
   The archive has no hole up to the watermark: in every run of a process, whatever
   the watermarks it loaded, every published on-grid point from the covered label up
   to the watermark has its row in the store.
   */
  lemma {:induction false} GapFree<V(!new)>(h: World<V>, loaded: map<string, int>, events: seq<Event<V>>, t: System<V>, sym: string)
    requires Runs(h, Start(loaded), events, t) && sym in t.cover
    ensures sym in t.last && Covered(h, t.w, sym, t.cover[sym], t.last[sym])
  {
    assert Unfold(0);
    assert Inv(h, Start(loaded));
    RunKeeps(h, Start(loaded), events, t);
  }

  // ---------------------------------------------------------------- the ledger over a whole run

  /** The rows an event offers to the writer. */
  function Offered<V>(e: Event<V>): seq<Record<V>> {
    match e
    case LivePush(row) => [row]
    case HistPush(_, row) => [row]
    case _ => []
  }

  function OfferedIn<V>(events: seq<Event<V>>): seq<Record<V>> {
    if events == [] then [] else Offered(events[0]) + OfferedIn(events[1..])
  }

  /** The ledger lists exactly these rows. */
  ghost predicate Lists<V>(w: Writer<Record<V>>, rows: seq<Record<V>>) {
    forall u {:trigger Unfold(u)} :: Unfold(u) ==> Consistent(w) && Accepted(w) == rows
  }

  lemma {:induction false} LedgerStep<V(!new)>(h: World<V>, s: System<V>, e: Event<V>, rows: seq<Record<V>>)
    requires Lists(s.w, rows) && Enabled(h, s, e)
    ensures Lists(Apply(h, s, e).w, rows + Offered(e))
  {
    assert Unfold(0) && rows + [] == rows;
    match e {
      case LivePush(row) => PushAppends(s.w, row);
      case HistPush(_, row) => PushAppends(s.w, row);
      case WriterReceive(_, ok) =>
        TakeOneKeeps(s.w);
        FlushKeeps(TakeOne(s.w), ok);
      case WriterTick(ok) => FlushKeeps(s.w, ok);
      case WriterStop(ok) =>
        DrainKeeps(s.w);
        FlushKeeps(Drain(s.w), ok);
      case BarrierTakes => TakeOneKeeps(s.w);
      case BarrierReplies(ok) => BarrierIsHonest(s.w, ok);
      case _ =>
    }
  }

  lemma {:induction false} LedgerRun<V(!new)>(h: World<V>, s: System<V>, events: seq<Event<V>>, t: System<V>, rows: seq<Record<V>>)
    requires Lists(s.w, rows) && Runs(h, s, events, t)
    ensures Lists(t.w, rows + OfferedIn(events))
    decreases |events|
  {
    if events == [] {
      assert rows + [] == rows;
    } else {
      var first, rest := Offered(events[0]), OfferedIn(events[1..]);
      LedgerStep(h, s, events[0], rows);
      LedgerRun(h, Apply(h, s, events[0]), events[1..], t, rows + first);
      assert rows + first + rest == rows + (first + rest);
    }
  }

  /**
   Over a whole run the ledger is exactly what was pushed, live and history rows alike,
   in the order of the pushes: settled first, then the batch, then the queue.
   */
  lemma {:induction false} LedgerIsWhole<V(!new)>(h: World<V>, loaded: map<string, int>, events: seq<Event<V>>, t: System<V>)
    requires Runs(h, Start(loaded), events, t)
    ensures Accepted(t.w) == OfferedIn(events)
  {
    assert Unfold(0);
    LedgerRun(h, Start(loaded), events, t, []);
    assert [] + OfferedIn(events) == OfferedIn(events);
  }

  // ---------------------------------------------------------------- watermarks

  lemma {:induction false} OnlyCommitMoves<V(!new)>(h: World<V>, s: System<V>, e: Event<V>)
    requires Enabled(h, s, e)
    ensures !e.Commit? ==> Apply(h, s, e).last == s.last && Apply(h, s, e).cover == s.cover
    ensures e.Commit? ==> Apply(h, s, e).last == LastAfter(s) && Apply(h, s, e).cover == CoverAfter(s) && Apply(h, s, e).w == s.w
  {
  }

  /**
   Watermark safety. A step of a run changes a watermark only by committing a pass
   whose barrier answered nil, only for a symbol whose fetch succeeded, only upwards,
   and only when every row pushed by that fetch is in the store. A failed symbol and a
   failed barrier leave it alone.
   */
  lemma {:induction false} WatermarkSafety<V(!new)>(h: World<V>, loaded: map<string, int>, events: seq<Event<V>>, s: System<V>, e: Event<V>,
                                                      sym: string)
    requires Runs(h, Start(loaded), events, s) && Enabled(h, s, e)
    ensures var t := Apply(h, s, e);
            && (sym in s.last ==> sym in t.last && t.last[sym] >= s.last[sym])
            && (sym in t.last && (sym !in s.last || t.last[sym] != s.last[sym]) ==>
                 && e.Commit? && s.phase == Replied(true)
                 && sym in s.done && sym !in s.failed
                 && AllStored(t.w, s.done[sym].rows)
                 && exists r :: r in s.done[sym].rows && r.start == t.last[sym])
  {
    assert Unfold(0);
    assert Inv(h, Start(loaded));
    RunKeeps(h, Start(loaded), events, s);
    OnlyCommitMoves(h, s, e);
    if e.Commit? && Advances(s, sym) {
      NewestStartIsMax(s.done[sym].rows, |s.done[sym].rows|);
    }
  }

  /** Over a whole run no watermark goes back. */
  lemma {:induction false} WatermarkMonotone<V(!new)>(h: World<V>, s: System<V>, events: seq<Event<V>>, t: System<V>, sym: string)
    requires Runs(h, s, events, t) && sym in s.last
    ensures sym in t.last && t.last[sym] >= s.last[sym]
    decreases |events|
  {
    if events != [] {
      OnlyCommitMoves(h, s, events[0]);
      WatermarkMonotone(h, Apply(h, s, events[0]), events[1..], t, sym);
    }
  }

  /**
   Every pass fetches from the watermark or earlier, and no fetch is cut short by a
   rejected symbol. Planning guarantees the first exactly while the watermarks are within
   reach: PlanJoins.
   */
  ghost predicate Unbroken<V(!new)>(h: World<V>, s: System<V>, events: seq<Event<V>>)
    decreases |events|
  {
    events != [] && Enabled(h, s, events[0]) ==>
      && (events[0].StartPass? ==>
           forall sym :: sym in events[0].planned && sym in s.last ==> events[0].planned[sym] <= s.last[sym])
      && (events[0].FetchOk? ==> events[0].from == s.open[events[0].sym].startLabel)
      && Unbroken(h, Apply(h, s, events[0]), events[1..])
  }

  /** The gaps of the pass in progress start at or before the watermark. */
  ghost predicate Joined<V>(s: System<V>) {
    && (forall sym :: sym in s.jobs && sym in s.last ==> s.jobs[sym] <= s.last[sym])
    && (forall sym :: sym in s.open && sym in s.last ==> s.open[sym].startLabel <= s.last[sym] + BAR)
    && (forall sym :: sym in s.done && sym in s.last ==> s.done[sym].from <= s.last[sym] + BAR)
  }

  /** In an unbroken run the covered stretch of every symbol only grows, so no hole is ever left behind. */
  lemma {:induction false} CoverageOnlyGrows<V(!new)>(h: World<V>, s: System<V>, events: seq<Event<V>>, t: System<V>, sym: string)
    requires Inv(h, s) && Joined(s) && Runs(h, s, events, t) && Unbroken(h, s, events)
    requires sym in s.cover
    ensures sym in t.cover && t.cover[sym] <= s.cover[sym]
    decreases |events|
  {
    assert Unfold(0);
    if events != [] {
      var n := Apply(h, s, events[0]);
      StepKeeps(h, s, events[0]);
      JoinedStep(h, s, events[0], events);
      CoverageOnlyGrows(h, n, events[1..], t, sym);
    }
  }

  lemma {:induction false} JoinedStep<V(!new)>(h: World<V>, s: System<V>, e: Event<V>, events: seq<Event<V>>)
    requires Inv(h, s) && Joined(s) && Enabled(h, s, e)
    requires events != [] && events[0] == e && Unbroken(h, s, events)
    ensures Joined(Apply(h, s, e))
    ensures forall sym :: sym in s.cover ==> sym in Apply(h, s, e).cover && Apply(h, s, e).cover[sym] <= s.cover[sym]
  {
    assert Unfold(0);
    OnlyCommitMoves(h, s, e);
    if e.Commit? {
      JoinedCommit(h, s);
    } else if e.StartPass? {
      assert Apply(h, s, e).jobs == e.planned;
    } else if e.FetchOk? {
      JoinedFetch(h, s, e);
    } else if e.StartFetch? || e.HistPush? {
      JoinedOpens(h, s, e);
    } else {
      JoinedOther(h, s, e);
    }
  }

  lemma {:induction false} JoinedCommit<V(!new)>(h: World<V>, s: System<V>)
    requires Joined(s) && Enabled(h, s, Commit) && forall sym :: sym in s.cover ==> sym in s.last
    ensures Joined(Apply(h, s, Commit))
    ensures forall sym :: sym in s.cover ==> sym in CoverAfter(s) && CoverAfter(s)[sym] <= s.cover[sym]
  {
  }

  lemma {:induction false} JoinedFetch<V(!new)>(h: World<V>, s: System<V>, e: Event<V>)
    requires Joined(s) && Enabled(h, s, e) && e.FetchOk? && e.from == s.open[e.sym].startLabel
    ensures Joined(Apply(h, s, e))
  {
  }

  lemma {:induction false} JoinedOpens<V(!new)>(h: World<V>, s: System<V>, e: Event<V>)
    requires Joined(s) && Enabled(h, s, e) && (e.StartFetch? || e.HistPush?)
    ensures Joined(Apply(h, s, e))
  {
  }

  lemma {:induction false} JoinedOther<V(!new)>(h: World<V>, s: System<V>, e: Event<V>)
    requires Joined(s) && Enabled(h, s, e)
    requires !e.Commit? && !e.StartPass? && !e.StartFetch? && !e.HistPush? && !e.FetchOk?
    ensures Joined(Apply(h, s, e))
  {
    OnlyCloses(h, s, e);
  }

  lemma {:induction false} OnlyCloses<V(!new)>(h: World<V>, s: System<V>, e: Event<V>)
    requires Enabled(h, s, e) && !e.Commit? && !e.StartPass? && !e.StartFetch? && !e.HistPush? && !e.FetchOk?
    ensures var t := Apply(h, s, e);
            && t.jobs == s.jobs && t.done == s.done && t.last == s.last
            && forall sym :: sym in t.open ==> sym in s.open && t.open[sym] == s.open[sym]
  {
  }

  // ---------------------------------------------------------------- the code behind the events

  lemma {:induction false} RowsOfPrefix<V>(sym: string, src: seq<Labelled<V>>, n: nat, now: int, i: nat, j: nat)
    requires i <= j <= n <= |src|
    ensures RowsOf(sym, src[..n], now, i, j) == RowsOf(sym, src, now, i, j)
    decreases j
  {
    if i < j {
      RowsOfPrefix(sym, src, n, now, i, j - 1);
    }
  }

  lemma {:induction false} BelowPrefix<V>(src: seq<Labelled<V>>, n: nat, x: int)
    requires Ascending(src) && n <= |src| && Ascending(src[..n])
    ensures Below(src[..n], x) < n ==> Below(src, x) == Below(src[..n], x)
  {
    var a, b := Below(src[..n], x), Below(src, x);
    assert a < n ==> Stamp(src[..n], a) == Stamp(src, a);
    assert a > 0 ==> Stamp(src[..n], a - 1) == Stamp(src, a - 1);
  }

  /**
   A fetch that ended without an error is an event of the run: what FetchSymbol has
   pushed, paging the `n` points published by then down to position `low`, is what
   FetchOk asks for. A fetch that was not cut short counts from the start of its gap.
   */
  lemma {:induction false} FetchIsEvent<V(!new)>(h: World<V>, sym: string, n: nat, a: Attempt<V>, low: nat, now: int) returns (from: int, top: nat)
    requires sym in h && Ascending(h[sym]) && n <= |h[sym]| && Ascending(h[sym][..n]) && a.startLabel <= now
    requires Below(h[sym][..n], a.startLabel) <= low <= Upto(h[sym][..n], a.startLabel, now)
    requires multiset(a.rows) == multiset(RowsOf(sym, h[sym][..n], now, low, Upto(h[sym][..n], a.startLabel, now)))
    ensures Fetched(h, sym, a, from, top, now)
    ensures low == Below(h[sym][..n], a.startLabel) ==> from == a.startLabel
  {
    var src, seen := h[sym], h[sym][..n];
    var upto := Upto(seen, a.startLabel, now);
    BelowPrefix(src, n, a.startLabel);
    if low == upto {
      from, top := a.startLabel, Below(src, a.startLabel);
    } else {
      RowsOfPrefix(sym, src, n, now, low, upto);
      assert Stamp(seen, low) == Stamp(src, low) && Stamp(seen, upto - 1) == Stamp(src, upto - 1);
      BelowAt(src, low);
      from := if low == Below(seen, a.startLabel) then a.startLabel else src[low].stamp;
      top := upto;
      forall k: nat {:trigger Stamp(src, k)} | k < top ensures Stamp(src, k) <= now {
        assert Stamp(src, k) <= Stamp(src, top - 1) <= now;
      }
    }
  }

  // ---------------------------------------------------------------- a pass can always be finished

  lemma {:induction false} First<V(!new)>(h: World<V>, s: System<V>, e: Event<V>, events: seq<Event<V>>, t: System<V>)
    requires Enabled(h, s, e) && Runs(h, Apply(h, s, e), events, t)
    ensures Runs(h, s, [e] + events, t)
  {
    assert ([e] + events)[1..] == events;
  }

  /** The barrier takes what is queued, one row at a time. */
  lemma {:induction false} Drains<V(!new)>(h: World<V>, s: System<V>, rest: seq<Event<V>>, t: System<V>) returns (events: seq<Event<V>>)
    requires s.w.draining && Runs(h, s.(w := Drain(s.w)), rest, t)
    ensures Runs(h, s, events, t)
    decreases |s.w.queue|
  {
    if s.w.queue == [] {
      assert s.w.batch + [] == s.w.batch;
      events := rest;
    } else {
      var next := Apply(h, s, BarrierTakes);
      assert s.w.batch + [s.w.queue[0]] + s.w.queue[1..] == s.w.batch + s.w.queue;
      events := Drains(h, next, rest, t);
      First(h, s, BarrierTakes, events, t);
      events := [BarrierTakes] + events;
    }
  }

  /** The fetches of the pass have ended, and its barrier can be asked. */
  ghost predicate AllEnded<V(!new)>(s: System<V>) {
    s.phase.Fetching? && AllFetched(s) && !s.w.draining && !s.w.stopped
  }

  /** The state once the barrier has drained the queue, written what is left, and answered. */
  ghost function Answered<V(!new)>(h: World<V>, s: System<V>, ok: bool): System<V>
    requires AllEnded(s)
  {
    var asked := Apply(h, s, AskBarrier);
    Apply(h, asked.(w := Drain(asked.w)), BarrierReplies(ok))
  }

  lemma {:induction false} AnswerRuns<V(!new)>(h: World<V>, s: System<V>, ok: bool, rest: seq<Event<V>>, t: System<V>) returns (events: seq<Event<V>>)
    requires AllEnded(s) && Runs(h, Answered(h, s, ok), rest, t)
    ensures Runs(h, s, events, t)
  {
    var asked := Apply(h, s, AskBarrier);
    First(h, asked.(w := Drain(asked.w)), BarrierReplies(ok), rest, t);
    events := Drains(h, asked, [BarrierReplies(ok)] + rest, t);
    First(h, s, AskBarrier, events, t);
    events := [AskBarrier] + events;
  }

  /** What has been pushed is in the store when the barrier answers nil, and nothing has left the ledger. */
  lemma {:induction false} AnswerIsTracked<V(!new)>(h: World<V>, s: System<V>, ok: bool)
    requires Inv(h, s) && AllEnded(s)
    ensures var t := Answered(h, s, ok);
            && Accepted(t.w) == Accepted(s.w) && t.w.queue == t.w.batch == [] && !t.w.draining
            && t.done == s.done && t.failed == s.failed && t.last == s.last
            && (ok && AllLanded(s.w.settled, s.w.mark) ==> t.phase == Replied(true))
            && (!AllLanded(s.w.settled, s.w.mark) ==> t.phase == Replied(false)) && t.phase.Replied?
            && (t.phase == Replied(true) ==> forall sym :: sym in s.done ==> AllStored(t.w, s.done[sym].rows))
  {
    assert Unfold(0);
    var asked := Apply(h, s, AskBarrier);
    var drained := asked.(w := Drain(asked.w));
    AskBarrierKeeps(h, s);
    DrainKeeps(asked.w);
    forall r | Recent(asked.w, r) ensures Recent(drained.w, r) { DrainKeepsRecent(asked.w, r); }
    WriterSteps(h, asked, drained.w);
    BarrierIsHonest(drained.w, ok);
    BarrierRepliesKeeps(h, drained, ok);
  }

  /**
   A pass whose fetches have ended can be flushed and committed. If the last write of the
   flush lands and no batch was lost since the barrier before, every row its fetches have
   pushed is in the store and every watermark moves as far as the rows go; if one was lost,
   none moves.
   */
  lemma {:induction false} PassCompletes<V(!new)>(h: World<V>, s: System<V>, ok: bool) returns (events: seq<Event<V>>, t: System<V>)
    requires Inv(h, s) && AllEnded(s)
    ensures Runs(h, s, events, t) && t.phase.Idle? && t.w.queue == t.w.batch == [] && !t.w.draining && Accepted(t.w) == Accepted(s.w)
    ensures ok && AllLanded(s.w.settled, s.w.mark) ==>
      && Forward(s.(phase := Replied(true)), t.last)
      && forall sym :: sym in s.done ==> AllStored(t.w, s.done[sym].rows)
    ensures !AllLanded(s.w.settled, s.w.mark) ==> t.last == s.last
  {
    var answered := Answered(h, s, ok);
    AnswerIsTracked(h, s, ok);
    t := Apply(h, answered, Commit);
    First(h, answered, Commit, [], t);
    events := AnswerRuns(h, s, ok, [Commit] + [], t);
    CommitAdvances(h, answered);
    if ok && AllLanded(s.w.settled, s.w.mark) {
      SameForward(answered, s.(phase := Replied(true)), t.last);
    }
  }

  lemma {:induction false} SameForward<V(!new)>(s: System<V>, s': System<V>, last: map<string, int>)
    requires Forward(s, last) && s'.phase == s.phase && s'.done == s.done && s'.failed == s.failed && s'.last == s.last
    ensures Forward(s', last)
  {
    forall sym ensures Succeeded(s', sym) <==> Succeeded(s, sym) {}
  }

  /** A pass tries the symbols that failed once more, exactly those, and no symbol a third time. */
  lemma {:induction false} RetriesFailed<V(!new)>(h: World<V>, s: System<V>, sym: string)
    requires s.phase.Fetching? && AllFetched(s) && s.failed != {}
    ensures Enabled(h, s, Retry) <==> !s.phase.retry
    ensures Enabled(h, s, Retry) ==>
      var t := Apply(h, s, Retry);
      && t.phase == Fetching(true) && t.done == s.done
      && (Enabled(h, t, StartFetch(sym)) <==> sym in s.failed && sym !in s.done)
  {
    assert sym in s.failed ==> sym in s.jobs.Keys;
  }

  /** The fetches of a pass are of its jobs, and one under way has not ended. */
  ghost predicate OfJobs<V>(s: System<V>) {
    s.phase.Fetching? ==>
      && s.done.Keys <= s.jobs.Keys && s.failed <= s.jobs.Keys
      && forall sym :: sym in s.open ==> sym in s.jobs && sym !in s.done && sym !in s.failed
  }

  lemma {:induction false} OfJobsStep<V(!new)>(h: World<V>, s: System<V>, e: Event<V>)
    requires OfJobs(s) && Enabled(h, s, e)
    ensures OfJobs(Apply(h, s, e))
  {
  }

  lemma {:induction false} OfJobsRun<V(!new)>(h: World<V>, s: System<V>, events: seq<Event<V>>, t: System<V>)
    requires OfJobs(s) && Runs(h, s, events, t)
    ensures OfJobs(t)
    decreases |events|
  {
    if events != [] {
      OfJobsStep(h, s, events[0]);
      OfJobsRun(h, Apply(h, s, events[0]), events[1..], t);
    }
  }

  /** The symbols whose fetch is still to end, and those whose fetch is still to start. */
  function ToEnd<V>(s: System<V>): set<string> {
    s.jobs.Keys - s.done.Keys - s.failed
  }

  function ToStart<V>(s: System<V>): set<string> {
    ToEnd(s) - s.open.Keys
  }

  /** A fetch that fails is over, and its symbol is listed as failed. */
  lemma {:induction false} FailedEnds<V(!new)>(h: World<V>, s: System<V>, sym: string)
    requires OfJobs(s) && s.phase.Fetching? && sym in s.open
    ensures Enabled(h, s, FetchFailed(sym)) && sym in ToEnd(s)
    ensures var t := Apply(h, s, FetchFailed(sym));
            && ToEnd(t) == ToEnd(s) - {sym} && ToStart(t) == ToStart(s)
            && t.failed == s.failed + {sym} && t.done == s.done && t.w == s.w && t.phase == s.phase
  {
  }

  lemma {:induction false} StartedIsOpen<V(!new)>(h: World<V>, s: System<V>, sym: string)
    requires s.phase.Fetching? && sym in ToStart(s)
    ensures Enabled(h, s, StartFetch(sym))
    ensures var t := Apply(h, s, StartFetch(sym));
            && ToEnd(t) == ToEnd(s) && ToStart(t) == ToStart(s) - {sym}
            && t.failed == s.failed && t.done == s.done && t.w == s.w && t.phase == s.phase
  {
  }

  /** How many steps are left until every fetch has ended. */
  function StepsLeft<V>(s: System<V>): nat {
    |ToEnd(s)| + |ToStart(s)|
  }

  lemma {:induction false} MovesOver(a: set<string>, b: set<string>, x: string)
    requires x in b
    ensures a + {x} + (b - {x}) == a + b && |b - {x}| < |b|
  {
  }

  /** A fetch under way, or one still to start, can take a step. */
  lemma {:induction false} OneEnds<V(!new)>(h: World<V>, s: System<V>) returns (e: Event<V>)
    requires OfJobs(s) && s.phase.Fetching? && ToEnd(s) != {}
    ensures Enabled(h, s, e)
    ensures var t := Apply(h, s, e);
            && OfJobs(t) && t.phase == s.phase && t.w == s.w && t.done == s.done
            && t.failed + ToEnd(t) == s.failed + ToEnd(s) && StepsLeft(t) < StepsLeft(s)
  {
    var sym := Pick(ToEnd(s));
    if sym in s.open {
      e := FetchFailed(sym);
      FailedEnds(h, s, sym);
      MovesOver(s.failed, ToEnd(s), sym);
    } else {
      e := StartFetch(sym);
      StartedIsOpen(h, s, sym);
      MovesOver({}, ToStart(s), sym);
    }
    OfJobsStep(h, s, e);
  }

  lemma {:induction false} NoneToEnd<V>(s: System<V>)
    requires OfJobs(s) && s.phase.Fetching? && ToEnd(s) == {}
    ensures AllFetched(s)
  {
    forall sym | sym in s.jobs ensures sym in s.done.Keys + s.failed {
      assert sym !in ToEnd(s);
    }
    assert s.open.Keys == {};
  }

  /** Fetches under way, and those still to start, can end one after the other, at worst by failing. */
  lemma {:induction false} FetchesEnd<V(!new)>(h: World<V>, s: System<V>) returns (events: seq<Event<V>>, t: System<V>)
    requires OfJobs(s) && s.phase.Fetching?
    ensures Runs(h, s, events, t) && AllFetched(t) && t.phase == s.phase && t.w == s.w && t.done == s.done
    ensures t.failed == s.failed + ToEnd(s)
    decreases StepsLeft(s)
  {
    if ToEnd(s) == {} {
      NoneToEnd(s);
      events, t := [], s;
    } else {
      var e := OneEnds(h, s);
      var rest;
      rest, t := FetchesEnd(h, Apply(h, s, e));
      First(h, s, e, rest, t);
      events := [e] + rest;
    }
  }

  /** A live row may be pushed at any time; it joins the ledger, and nothing else changes. */
  lemma {:induction false} LiveAnytime<V(!new)>(h: World<V>, s: System<V>, row: Record<V>)
    requires Consistent(s.w)
    ensures Enabled(h, s, LivePush(row))
    ensures var t := Apply(h, s, LivePush(row)); t == s.(w := t.w) && Accepted(t.w) == Accepted(s.w) + [row]
  {
    PushAppends(s.w, row);
  }

  /** Stopping the writer settles all it holds; asked for a barrier afterwards it answers with an error. */
  lemma {:induction false} StopSettles<V(!new)>(h: World<V>, s: System<V>, ok: bool)
    requires Consistent(s.w) && Enabled(h, s, WriterStop(ok))
    ensures var t := Apply(h, s, WriterStop(ok));
            && t.w.stopped && t.w.queue == t.w.batch == [] && Accepted(t.w) == Accepted(s.w)
            && (Enabled(h, t, AskBarrier) ==> Apply(h, t, AskBarrier).phase == Replied(false))
  {
    DrainKeeps(s.w);
    FlushKeeps(Drain(s.w), ok);
  }

  /** The gaps of a pass are those of its jobs. */
  ghost predicate IsPlan(planned: map<string, int>, jobs: seq<PlanJobs.Job>) {
    forall sym :: sym in planned ==> exists j :: j in jobs && j.symbol == sym && j.since == planned[sym]
  }

  /**
   What planning does for an unbroken run: the gap planned for a symbol with a watermark
   starts at or below it exactly if the watermark is within reach.
   */
  lemma {:induction false} PlanJoins(cfg: BackwardPaging.HistConfig, syms: seq<string>, last: map<string, int>, now: int, full: bool,
                                     planned: map<string, int>, sym: string)
    requires IsPlan(planned, PlanJobs.ByNeed(PlanJobs.AllPlans(cfg, syms, last, now, full, |syms|)))
    requires sym in planned && sym in last
    ensures planned[sym] <= last[sym] <==> FloorBar(now - cfg.maxBackfill) <= last[sym]
  {
    var plans := PlanJobs.AllPlans(cfg, syms, last, now, full, |syms|);
    var j :| j in PlanJobs.ByNeed(plans) && j.symbol == sym && j.since == planned[sym];
    PlanJobs.SortHas(plans, j);
    PlanJobs.PlansExact(cfg, syms, last, now, full, |syms|, j);
  }

  /** The watermarks when the jobs of the first `n` symbols have been looked at. */
  ghost predicate Committed<V>(s: System<V>, order: seq<string>, n: nat, last: map<string, int>)
    requires n <= |order|
  {
    forall sym ::
      && (sym in last <==> sym in s.last || (sym in order[..n] && Advances(s, sym)))
      && (sym in last ==> last[sym] == if sym in order[..n] && Advances(s, sym) then NewestOf(s.done[sym]).value else s.last[sym])
  }

  lemma {:induction false} CommitOne<V>(s: System<V>, order: seq<string>, n: nat, last: map<string, int>)
    requires n < |order| && order[n] !in order[..n] && Committed(s, order, n, last)
    ensures var sym := order[n];
            && (sym in last <==> sym in s.last) && (sym in last ==> last[sym] == s.last[sym])
            && Committed(s, order, n + 1, if Advances(s, sym) then last[sym := NewestOf(s.done[sym]).value] else last)
  {
    assert order[..n + 1] == order[..n] + [order[n]];
  }

  lemma {:induction false} AllCommitted<V>(s: System<V>, order: seq<string>, last: map<string, int>)
    requires Committed(s, order, |order|, last) && forall sym :: sym in s.done ==> sym in order
    ensures last == LastAfter(s)
  {
    assert order[..|order|] == order;
  }

  /** The symbol's fetch of this pass ended without an error, and the barrier answered nil. */
  predicate Succeeded<V>(s: System<V>, sym: string) {
    s.phase == Replied(true) && sym in s.done && sym !in s.failed
  }

  /** The watermark of the symbol is not behind any of these rows. */
  ghost predicate Reaches<V(!new)>(rows: seq<Record<V>>, sym: string, last: map<string, int>) {
    forall r :: r in rows ==> sym in last && r.start <= last[sym]
  }

  /** Some row is newer than the watermark of the symbol, or it has none. */
  ghost predicate HasNewer<V(!new)>(rows: seq<Record<V>>, sym: string, last: map<string, int>) {
    exists r :: r in rows && (sym in last ==> last[sym] < r.start)
  }

  /**
   `last` is what a commit makes of the watermarks: that of a symbol whose fetch succeeded
   is the newest of the old one and the rows the fetch has pushed, and no other one moves.
   */
  ghost predicate Forward<V(!new)>(s: System<V>, last: map<string, int>) {
    && (forall sym :: sym in s.last ==> sym in last && s.last[sym] <= last[sym])
    && (forall sym :: Succeeded(s, sym) ==> Reaches(s.done[sym].rows, sym, last))
    && (forall sym :: sym in last ==>
         || (sym in s.last && last[sym] == s.last[sym])
         || (Succeeded(s, sym) && exists r :: r in s.done[sym].rows && r.start == last[sym]))
  }

  lemma {:induction false} RowIsNoNewer<V>(o: Outcome<V>, r: Record<V>)
    requires r in o.rows
    ensures NewestOf(o).Some? && r.start <= NewestOf(o).value
  {
    NewestStartIsMax(o.rows, |o.rows|);
    var k :| 0 <= k < |o.rows| && o.rows[k] == r;
  }

  lemma {:induction false} LastIsForward<V(!new)>(s: System<V>)
    ensures Forward(s, LastAfter(s))
  {
    forall sym | Succeeded(s, sym) ensures Reaches(s.done[sym].rows, sym, LastAfter(s)) {
      forall r | r in s.done[sym].rows ensures sym in LastAfter(s) && r.start <= LastAfter(s)[sym] {
        RowIsNoNewer(s.done[sym], r);
      }
    }
    forall sym | sym in s.done && NewestOf(s.done[sym]).Some? ensures exists r :: r in s.done[sym].rows && r.start == NewestOf(s.done[sym]).value {
      NewestStartIsMax(s.done[sym].rows, |s.done[sym].rows|);
    }
  }

  /**
   A commit after a nil barrier moves the watermark of every symbol that did not fail up to
   its newest row, and the stretch of a watermark that moves is covered from the start of
   the fetch or from further down; after any other answer nothing moves.
   */
  lemma {:induction false} CommitAdvances<V(!new)>(h: World<V>, s: System<V>)
    requires Enabled(h, s, Commit)
    ensures Forward(s, Apply(h, s, Commit).last)
    ensures forall sym :: Succeeded(s, sym) && HasNewer(s.done[sym].rows, sym, s.last) ==>
      sym in Apply(h, s, Commit).cover && Apply(h, s, Commit).cover[sym] <= s.done[sym].from
    ensures s.phase == Replied(false) ==> Apply(h, s, Commit).last == s.last && Apply(h, s, Commit).cover == s.cover
  {
    LastIsForward(s);
    forall sym | Succeeded(s, sym) && HasNewer(s.done[sym].rows, sym, s.last) ensures Advances(s, sym) {
      var r :| r in s.done[sym].rows && (sym in s.last ==> s.last[sym] < r.start);
      RowIsNoNewer(s.done[sym], r);
    }
  }

  /** The commit loop of a pass: one look at every job, in the order of the jobs. */
  method CommitPass<V(!new)>(s: System<V>, order: seq<string>, committed: bool) returns (last: map<string, int>)
    requires s.phase == Replied(committed)
    requires (forall sym :: sym in s.done ==> sym in order) && forall i, j :: 0 <= i < j < |order| ==> order[i] != order[j]
    ensures last == LastAfter(s) && Forward(s, last)
  {
    LastIsForward(s);
    last := s.last;
    for i := 0 to |order|
      invariant Committed(s, order, i, last)
    {
      var sym := order[i];
      CommitOne(s, order, i, last);
      if sym in s.failed || sym !in s.done {
        continue;
      }
      var newest := NewestOf(s.done[sym]);
      if committed && newest.Some? && (sym !in last || newest.value > last[sym]) {
        last := last[sym := newest.value];
      }
    }
    AllCommitted(s, order, last);
  }
}
