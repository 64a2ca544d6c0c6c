/** What each pass has to fetch (planJobs in internal/openinterest/hist.go). */
module PlanJobs {
  import opened Align
  import opened BackwardPaging
  import opened Options

  datatype Job = Job(symbol: string, since: int, needed: int, isNew: bool)

  function Target(cfg: HistConfig, now: int): int { NewestPublishedStart(now, cfg.publishLag) }

  function CapStart(cfg: HistConfig, now: int): int { FloorBar(now - cfg.maxBackfill) }

  function PageStart(cfg: HistConfig, now: int): int {
    FloorBar(now) - 300_000 * Max(cfg.maxLimit - cfg.limitMargin, 1)
  }

  /** Where the gap of a symbol begins, before widening and capping. */
  function GapStart(cfg: HistConfig, last: Option<int>, now: int): int {
    if last.Some? then last.value else FloorBar(now) - cfg.coldStartWindow
  }

  function Since(cfg: HistConfig, last: Option<int>, now: int, full: bool): int {
    var gap := GapStart(cfg, last, now);
    Max(if full then Min(gap, PageStart(cfg, now)) else gap, CapStart(cfg, now))
  }

  predicate UpToDate(cfg: HistConfig, last: Option<int>, now: int, full: bool) {
    !full && last.Some? && last.value >= Target(cfg, now)
  }

  /** The job asks for `needed` whole bars, from its start to the current bar. */
  predicate Spans(j: Job, now: int) {
    j.needed >= 1 && j.since + j.needed * 300_000 <= FloorBar(now) < j.since + (j.needed + 1) * 300_000
  }

  /**
   What a job asks for. Without a full pass it is the gap from the newest calibrated bar, or
   the cold-start window of a new symbol, as far as the reach of the tool goes. A full pass
   goes back at least a whole page, or as far as the reach goes, and no further than both
   the gap and the page.
   */
  function Plan(cfg: HistConfig, symbol: string, last: Option<int>, now: int, full: bool): (job: Option<Job>)
    ensures job.Some? ==> job.value.symbol == symbol && (job.value.isNew <==> last.None?) && Spans(job.value, now)
    ensures job.Some? ==>
      var j, cap := job.value, FloorBar(now - cfg.maxBackfill);
      var gap := if last.Some? then last.value else FloorBar(now) - cfg.coldStartWindow;
      var page := if cfg.maxLimit > cfg.limitMargin then cfg.maxLimit - cfg.limitMargin else 1;
      && j.since >= cap && (j.since <= gap || j.since == cap)
      && (!full ==> j.since == gap || (j.since == cap && gap < cap))
      && (full ==> j.needed >= page || j.since == cap)
      && (full && j.needed > page ==> j.since == gap || (j.since == cap && gap < cap))
  {
    var since := Since(cfg, last, now, full);
    if UpToDate(cfg, last, now, full) || Bars(FloorBar(now) - since) < 1 then None
    else Some(Job(symbol, since, Bars(FloorBar(now) - since), last.None?))
  }

  /**
   A symbol is skipped exactly if it already has every bar that can be published, if the
   reach of the tool ends in the current bar, or if its gap begins in it.
   */
  lemma {:induction false} SkippedExactly(cfg: HistConfig, symbol: string, last: Option<int>, now: int, full: bool)
    requires cfg.Sane()
    ensures Plan(cfg, symbol, last, now, full).None? <==>
      || (!full && last.Some? && last.value >= NewestPublishedStart(now, cfg.publishLag))
      || FloorBar(now - cfg.maxBackfill) == FloorBar(now)
      || (!full && (if last.Some? then last.value else FloorBar(now) - cfg.coldStartWindow) > FloorBar(now) - BAR)
  {
    CapInReach(now, cfg.maxBackfill);
    assert PageStart(cfg, now) <= FloorBar(now) - BAR;
  }

  lemma {:induction false} CapInReach(now: int, d: int)
    requires d > 0
    ensures FloorBar(now - d) == FloorBar(now) || FloorBar(now - d) <= FloorBar(now) - BAR
  {
  }

  /**
   A symbol with a watermark that is skipped has every bar that can be expected to be
   published, except exactly when the reach of the tool ends in the current bar.
   */
  lemma {:induction false} SkipLosesNothing(cfg: HistConfig, symbol: string, last: int, now: int, full: bool)
    requires cfg.Sane() && OnGrid(last) && Plan(cfg, symbol, Some(last), now, full).None?
    ensures (forall b :: OnGrid(b) && b + BAR + cfg.publishLag <= now ==> b <= last)
       <==> last >= NewestPublishedStart(now, cfg.publishLag) || FloorBar(now - cfg.maxBackfill) != FloorBar(now)
  {
    SkippedExactly(cfg, symbol, Some(last), now, full);
    var target := NewestPublishedStart(now, cfg.publishLag);
    assert OnGrid(target) && target + BAR + cfg.publishLag <= now;
    assert target <= FloorBar(now) - BAR;
  }

  function LastOf(last: map<string, int>, symbol: string): Option<int> {
    if symbol in last then Some(last[symbol]) else None
  }

  /** What the planning loop does for one symbol; `floorNow` and the rest are computed once per pass. */
  method PlanOne(cfg: HistConfig, s: string, last: map<string, int>, full: bool, ghost now: int,
                 floorNow: int, target: int, capStart: int, pageStart: int)
    returns (job: Option<Job>, beyond: bool)
    requires floorNow == FloorBar(now) && target == Target(cfg, now)
    requires capStart == CapStart(cfg, now) && pageStart == PageStart(cfg, now)
    ensures job == Plan(cfg, s, LastOf(last, s), now, full)
    ensures beyond <==> BeyondCap(cfg, LastOf(last, s), now, full)
  {
    var isNew := s !in last;
    var since;
    beyond := false;
    if isNew {
      since := floorNow - cfg.coldStartWindow;
    } else {
      if !full && last[s] >= target {
        return None, false;
      }
      since := last[s];
    }
    beyond := since < capStart;
    if full && pageStart < since {
      since := pageStart;
    }
    if since < capStart {
      since := capStart;
    }
    var needed := Bars(floorNow - since);
    if needed < 1 {
      return None, beyond;
    }
    job := Some(Job(s, since, needed, isNew));
  }

  /** The jobs of the first `n` symbols. */
  function AllPlans(cfg: HistConfig, syms: seq<string>, last: map<string, int>, now: int, full: bool, n: nat): seq<Job>
    requires n <= |syms|
  {
    if n == 0 then []
    else
      var job := Plan(cfg, syms[n - 1], LastOf(last, syms[n - 1]), now, full);
      AllPlans(cfg, syms, last, now, full, n - 1) + if job.Some? then [job.value] else []
  }

  /** A job is listed exactly for a symbol that needs one, and it is that symbol's plan. */
  lemma {:induction false} PlansExact(cfg: HistConfig, syms: seq<string>, last: map<string, int>, now: int, full: bool, n: nat, j: Job)
    requires n <= |syms|
    ensures j in AllPlans(cfg, syms, last, now, full, n) <==>
      exists i :: 0 <= i < n && syms[i] == j.symbol && Plan(cfg, j.symbol, LastOf(last, j.symbol), now, full) == Some(j)
  {
    if n > 0 {
      PlansExact(cfg, syms, last, now, full, n - 1, j);
    }
  }

  // ---------------------------------------------------------------- biggest gaps first

  function Insert(j: Job, js: seq<Job>): seq<Job> {
    if js == [] || j.needed >= js[0].needed then [j] + js else [js[0]] + Insert(j, js[1..])
  }

  /** The language's own stable sort, by falling need. */
  function ByNeed(js: seq<Job>): seq<Job> {
    if js == [] then [] else Insert(js[0], ByNeed(js[1..]))
  }

  ghost predicate Falling(js: seq<Job>) {
    |js| < 2 || (js[0].needed >= js[1].needed && Falling(js[1..]))
  }

  /** The jobs of one size, in order. */
  function OfSize(js: seq<Job>, n: int): seq<Job> {
    if js == [] then [] else (if js[0].needed == n then [js[0]] else []) + OfSize(js[1..], n)
  }

  lemma {:induction false} InsertKeeps(j: Job, js: seq<Job>, n: int)
    requires Falling(js)
    ensures Falling(Insert(j, js)) && |Insert(j, js)| == |js| + 1
    ensures OfSize(Insert(j, js), n) == (if j.needed == n then [j] else []) + OfSize(js, n)
  {
    if js != [] && j.needed < js[0].needed {
      InsertKeeps(j, js[1..], n);
      assert ([js[0]] + Insert(j, js[1..]))[1..] == Insert(j, js[1..]);
    } else {
      assert ([j] + js)[1..] == js;
    }
  }

  /** The sort puts bigger gaps first, and the jobs of one size stay as they were: none is lost, added or moved. */
  lemma {:induction false} SortedByNeed(js: seq<Job>, n: int)
    ensures Falling(ByNeed(js)) && |ByNeed(js)| == |js| && OfSize(ByNeed(js), n) == OfSize(js, n)
  {
    if js != [] {
      SortedByNeed(js[1..], n);
      InsertKeeps(js[0], ByNeed(js[1..]), n);
    }
  }

  lemma {:induction false} InsertHas(j: Job, js: seq<Job>, x: Job)
    ensures x in Insert(j, js) <==> x == j || x in js
  {
    if js != [] && j.needed < js[0].needed {
      InsertHas(j, js[1..], x);
    }
  }

  lemma {:induction false} SortHas(js: seq<Job>, x: Job)
    ensures x in ByNeed(js) <==> x in js
  {
    if js != [] {
      SortHas(js[1..], x);
      InsertHas(js[0], ByNeed(js[1..]), x);
    }
  }

  /** The gap of the symbol reaches back past the cap, so part of it needs the archive. */
  predicate BeyondCap(cfg: HistConfig, last: Option<int>, now: int, full: bool) {
    !UpToDate(cfg, last, now, full) && GapStart(cfg, last, now) < CapStart(cfg, now)
  }

  /** The positions of the symbols that have no watermark. */
  ghost function ColdStarts(syms: seq<string>, last: map<string, int>, n: nat): set<nat>
    requires n <= |syms|
  {
    set i: nat | i < n && syms[i] !in last
  }

  /** The symbol is not up to date, and its gap begins before the oldest bar the tool reaches. */
  predicate NeedsArchive(cfg: HistConfig, sym: string, last: map<string, int>, now: int, full: bool) {
    && (full || sym !in last || last[sym] < NewestPublishedStart(now, cfg.publishLag))
    && (if sym in last then last[sym] else FloorBar(now) - cfg.coldStartWindow) < FloorBar(now - cfg.maxBackfill)
  }

  ghost function BeyondCaps(cfg: HistConfig, syms: seq<string>, last: map<string, int>, now: int, full: bool, n: nat): set<nat>
    requires n <= |syms|
  {
    set i: nat | i < n && NeedsArchive(cfg, syms[i], last, now, full)
  }

  lemma {:induction false} BeyondNeedsArchive(cfg: HistConfig, sym: string, last: map<string, int>, now: int, full: bool)
    ensures BeyondCap(cfg, LastOf(last, sym), now, full) <==> NeedsArchive(cfg, sym, last, now, full)
  {
  }

  lemma {:induction false} OneMoreCold(syms: seq<string>, last: map<string, int>, n: nat)
    requires n < |syms|
    ensures |ColdStarts(syms, last, n + 1)| == |ColdStarts(syms, last, n)| + if syms[n] in last then 0 else 1
  {
    var before, after := ColdStarts(syms, last, n), ColdStarts(syms, last, n + 1);
    if syms[n] in last {
      assert after == before;
    } else {
      assert after == before + {n};
    }
  }

  lemma {:induction false} OneMoreBeyond(cfg: HistConfig, syms: seq<string>, last: map<string, int>, now: int, full: bool, n: nat)
    requires n < |syms|
    ensures |BeyondCaps(cfg, syms, last, now, full, n + 1)|
         == |BeyondCaps(cfg, syms, last, now, full, n)| + if BeyondCap(cfg, LastOf(last, syms[n]), now, full) then 1 else 0
  {
    BeyondNeedsArchive(cfg, syms[n], last, now, full);
    var before, after := BeyondCaps(cfg, syms, last, now, full, n), BeyondCaps(cfg, syms, last, now, full, n + 1);
    if NeedsArchive(cfg, syms[n], last, now, full) {
      assert after == before + {n};
    } else {
      assert after == before;
    }
  }

  /** The job is the plan of one of the symbols. */
  ghost predicate PlanOf(cfg: HistConfig, syms: seq<string>, last: map<string, int>, now: int, full: bool, j: Job) {
    j.symbol in syms && Plan(cfg, j.symbol, LastOf(last, j.symbol), now, full) == Some(j)
  }

  /** One job per symbol that needs one, biggest gaps first; the rest are skipped. */
  method MakePlan(cfg: HistConfig, syms: seq<string>, last: map<string, int>, now: int, full: bool)
    returns (jobs: seq<Job>, skipped: nat, coldStart: nat, beyondCap: nat)
    ensures skipped + |jobs| == |syms|
    ensures jobs == ByNeed(AllPlans(cfg, syms, last, now, full, |syms|))
    ensures forall j :: j in jobs <==> PlanOf(cfg, syms, last, now, full, j)
    ensures coldStart == |ColdStarts(syms, last, |syms|)| && beyondCap == |BeyondCaps(cfg, syms, last, now, full, |syms|)|
  {
    var floorNow, target, capStart, pageStart := FloorBar(now), Target(cfg, now), CapStart(cfg, now), PageStart(cfg, now);
    jobs, skipped, coldStart, beyondCap := [], 0, 0, 0;
    assert ColdStarts(syms, last, 0) == {} && BeyondCaps(cfg, syms, last, now, full, 0) == {};
    for i := 0 to |syms|
      invariant skipped + |jobs| == i && jobs == AllPlans(cfg, syms, last, now, full, i)
      invariant coldStart == |ColdStarts(syms, last, i)| && beyondCap == |BeyondCaps(cfg, syms, last, now, full, i)|
    {
      OneMoreCold(syms, last, i);
      OneMoreBeyond(cfg, syms, last, now, full, i);
      var job, beyond := PlanOne(cfg, syms[i], last, full, now, floorNow, target, capStart, pageStart);
      if syms[i] !in last {
        coldStart := coldStart + 1;
      }
      if beyond {
        beyondCap := beyondCap + 1;
      }
      if job.None? {
        skipped := skipped + 1;
        continue;
      }
      jobs := jobs + [job.value];
    }
    SortedByNeed(jobs, 0);
    forall j
      ensures j in ByNeed(jobs) <==> PlanOf(cfg, syms, last, now, full, j)
    {
      SortHas(jobs, j);
      PlansExact(cfg, syms, last, now, full, |syms|, j);
    }
    jobs := ByNeed(jobs);
  }
}
