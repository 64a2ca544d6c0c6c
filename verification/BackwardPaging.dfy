/**
 Backwards paging through a symbol's gap, as both reconcilers do it
 (internal/openinterest/hist.go, lsratio_hist.go).
 */
module BackwardPaging {
  import opened Align
  import opened HistSource
  import opened Options

  datatype HistConfig = HistConfig(
    publishLag: int, limitMargin: int, maxLimit: int, coldStartWindow: int, maxBackfill: int)
  {
    /** What the defaults guarantee: every tuning value is positive. */
    ghost predicate Sane() {
      publishLag > 0 && limitMargin > 0 && maxLimit > 0 && coldStartWindow > 0 && maxBackfill > 0
    }
  }

  function FirstLimit(cfg: HistConfig, needed: int): int {
    Min(needed + cfg.limitMargin, cfg.maxLimit)
  }

  function NextLimit(cfg: HistConfig, startLabel: int, oldest: int): int {
    Min(Bars(oldest - startLabel) + 1 + cfg.limitMargin, cfg.maxLimit)
  }

  function MaxPages(cfg: HistConfig, needed: int): int {
    needed / Max(cfg.maxLimit - cfg.limitMargin, 1) + 3
  }

  /** How one request fares: it is answered, the symbol is rejected, or it fails. */
  datatype Fault = Answered | Rejected | Broken

  /** How the paging of one symbol ends. */
  datatype Ending = Complete | UnknownSymbol | RequestError | NotTerminating

  /** The ending, the number of requests answered, and the position paging got down to. */
  datatype Verdict = Verdict(ending: Ending, answered: nat, low: nat)

  /** Nothing is left for another page: this one is short, or it reaches down to `lo`. */
  predicate Exhausted(src: seq<Point>, lo: int, from: nat, upto: nat, limit: nat)
    requires from <= upto <= |src| && limit > 0
  {
    upto - from < limit || src[upto - limit].stamp - 1 < lo
  }

  /** The fate of a run that has src[from..upto] still to read. */
  ghost function Paging(cfg: HistConfig, src: seq<Point>, fault: nat -> Fault, lo: int,
                        from: nat, upto: nat, limit: nat, sent: nat, maxPages: nat): (v: Verdict)
    requires cfg.Sane() && from <= upto <= |src| && limit > 0 && sent <= maxPages
    ensures from <= v.low <= upto
    decreases upto
  {
    if sent == maxPages then Verdict(NotTerminating, sent, upto)
    else match fault(sent)
      case Rejected => Verdict(UnknownSymbol, sent, upto)
      case Broken => Verdict(RequestError, sent, upto)
      case Answered =>
        if Exhausted(src, lo, from, upto, limit) then Verdict(Complete, sent + 1, from)
        else Paging(cfg, src, fault, lo, from, upto - limit, NextLimit(cfg, lo, src[upto - limit].stamp), sent + 1, maxPages)
  }

  /** The number of pages src[from..upto] takes when every request is answered. */
  ghost function PagesFrom(cfg: HistConfig, src: seq<Point>, lo: int, from: nat, upto: nat, limit: nat): (n: nat)
    requires cfg.Sane() && from <= upto <= |src| && limit > 0
    ensures n > 0
    decreases upto
  {
    if Exhausted(src, lo, from, upto, limit) then 1
    else 1 + PagesFrom(cfg, src, lo, from, upto - limit, NextLimit(cfg, lo, src[upto - limit].stamp))
  }

  /** Request `k` is the first one from `sent` on that is not answered, and it is rejected. */
  ghost predicate RejectedFirst(fault: nat -> Fault, sent: nat, k: nat) {
    fault(k).Rejected? && forall j: nat :: sent <= j < k ==> fault(j).Answered?
  }

  /** What is left of src[from..upto] after `n` answered requests. */
  ghost function LowAfter(cfg: HistConfig, src: seq<Point>, lo: int, from: nat, upto: nat, limit: nat, n: nat): (low: nat)
    requires cfg.Sane() && from <= upto <= |src| && limit > 0
    ensures from <= low <= upto
    decreases upto
  {
    if n == 0 then upto
    else if Exhausted(src, lo, from, upto, limit) then from
    else LowAfter(cfg, src, lo, from, upto - limit, NextLimit(cfg, lo, src[upto - limit].stamp), n - 1)
  }

  /** A rejection ends the run exactly if it comes before the last page and inside the allowance. */
  lemma {:induction false} RejectedWhen(cfg: HistConfig, src: seq<Point>, fault: nat -> Fault, lo: int,
                                        from: nat, upto: nat, limit: nat, sent: nat, maxPages: nat, k: nat)
    requires cfg.Sane() && from <= upto <= |src| && limit > 0 && sent <= maxPages
    requires sent <= k && RejectedFirst(fault, sent, k)
    ensures var v := Paging(cfg, src, fault, lo, from, upto, limit, sent, maxPages);
            && (v.ending.UnknownSymbol? <==> k < sent + PagesFrom(cfg, src, lo, from, upto, limit) && k < maxPages)
            && (v.ending.UnknownSymbol? ==> v.low == LowAfter(cfg, src, lo, from, upto, limit, k - sent))
    decreases upto
  {
    if sent < maxPages && sent < k && !Exhausted(src, lo, from, upto, limit) {
      RejectedWhen(cfg, src, fault, lo, from, upto - limit, NextLimit(cfg, lo, src[upto - limit].stamp), sent + 1, maxPages, k);
    }
  }

  /** A run completes exactly if the allowance covers its pages and all of them are answered. */
  lemma {:induction false} CompletesWhen(cfg: HistConfig, src: seq<Point>, fault: nat -> Fault, lo: int,
                                         from: nat, upto: nat, limit: nat, sent: nat, maxPages: nat)
    requires cfg.Sane() && from <= upto <= |src| && limit > 0 && sent <= maxPages
    ensures var v, pages := Paging(cfg, src, fault, lo, from, upto, limit, sent, maxPages),
                            PagesFrom(cfg, src, lo, from, upto, limit);
            && (v.ending.Complete? ==> v.low == from && v.answered == sent + pages)
            && (v.ending.Complete? <==>
                 sent + pages <= maxPages && forall k: nat :: sent <= k < sent + pages ==> fault(k).Answered?)
            && (v.ending.NotTerminating? <==>
                 maxPages < sent + pages && forall k: nat :: sent <= k < maxPages ==> fault(k).Answered?)
            && (v.ending.UnknownSymbol? ==> sent <= v.answered && RejectedFirst(fault, sent, v.answered))
    decreases upto
  {
    if sent < maxPages && fault(sent).Answered? && !Exhausted(src, lo, from, upto, limit) {
      CompletesWhen(cfg, src, fault, lo, from, upto - limit, NextLimit(cfg, lo, src[upto - limit].stamp), sent + 1, maxPages);
    }
  }

  /** `page` is what a request for the newest `limit` points of [lo, to] returns. */
  ghost predicate IsPage(src: seq<Point>, lo: int, to: int, limit: nat, page: seq<Point>)
    requires Ascending(src)
  {
    && |page| == (if limit < Upto(src, lo, to) - Below(src, lo) then limit else Upto(src, lo, to) - Below(src, lo))
    && IsRun(src, Upto(src, lo, to) - |page|, page)
  }

  /** The run that has sent `sent` requests and asks for [lo, to] next will end as `v` says. */
  ghost predicate Pending(cfg: HistConfig, src: seq<Point>, fault: nat -> Fault, lo: int, to: int, limit: nat,
                          sent: nat, maxPages: nat, v: Verdict)
    requires cfg.Sane() && Ascending(src)
  {
    && limit > 0 && sent <= maxPages
    && forall u {:trigger Unfold(u)} :: Unfold(u) ==>
         v == Paging(cfg, src, fault, lo, Below(src, lo), Upto(src, lo, to), limit, sent, maxPages)
  }

  lemma {:induction false} Stopped(cfg: HistConfig, src: seq<Point>, fault: nat -> Fault, lo: int, to: int, limit: nat,
                                   sent: nat, maxPages: nat, v: Verdict)
    requires cfg.Sane() && Ascending(src) && Pending(cfg, src, fault, lo, to, limit, sent, maxPages, v)
    requires sent == maxPages || !fault(sent).Answered?
    ensures v.low == Upto(src, lo, to)
    ensures v.ending == if sent == maxPages then NotTerminating
                        else if fault(sent).Rejected? then UnknownSymbol else RequestError
  {
    assert Unfold(0);
  }

  /** This page ends the run with nothing left below it, or the run goes on with exactly the points below it. */
  ghost predicate Splits(cfg: HistConfig, src: seq<Point>, fault: nat -> Fault, lo: int, to: int, limit: nat,
                         sent: nat, maxPages: nat, v: Verdict, page: seq<Point>)
    requires cfg.Sane() && Ascending(src)
  {
    if |page| < limit || |page| == 0 || page[0].stamp - 1 < lo then
      v.ending == Complete && v.low == Below(src, lo) == Upto(src, lo, to) - |page|
    else
      && lo < page[0].stamp
      && Upto(src, lo, page[0].stamp - 1) == Upto(src, lo, to) - |page|
      && Pending(cfg, src, fault, lo, page[0].stamp - 1, NextLimit(cfg, lo, page[0].stamp), sent + 1, maxPages, v)
  }

  /**
   One step of backwards paging: either this page is the last one, or the next
   request asks for exactly the points below it.
   */
  lemma {:induction false} PageSplits(cfg: HistConfig, src: seq<Point>, fault: nat -> Fault, lo: int, to: int, limit: nat,
                                      sent: nat, maxPages: nat, v: Verdict, page: seq<Point>)
    requires cfg.Sane() && Ascending(src) && Pending(cfg, src, fault, lo, to, limit, sent, maxPages, v)
    requires sent < maxPages && fault(sent).Answered? && IsPage(src, lo, to, limit, page)
    ensures Splits(cfg, src, fault, lo, to, limit, sent, maxPages, v, page)
  {
    assert Unfold(0);
    var from, upto := Below(src, lo), Upto(src, lo, to);
    if upto - from >= limit {
      BelowAt(src, upto - limit);
      assert Nth(page, 0) == src[upto - limit];
      assert Stamp(src, upto - limit) >= lo && Stamp(src, from) >= lo;
      if page[0].stamp == lo {
        BelowAt(src, from);
        assert upto - limit == from by { assert Stamp(src, from) <= Stamp(src, upto - limit); }
      }
    }
  }

  // ---------------------------------------------------------------- the page bound

  /** After the first page, a page is full only at `maxLimit`: each one removes that many points. */
  lemma {:induction false} LaterPages(cfg: HistConfig, src: seq<Point>, lo: int, from: nat, upto: nat, q: nat)
    requires cfg.Sane() && Ascending(src) && AllOnGrid(src) && from <= upto < |src|
    requires lo <= src[from].stamp && lo <= src[upto].stamp
    requires upto - from < (q + 1) * cfg.maxLimit
    ensures PagesFrom(cfg, src, lo, from, upto, NextLimit(cfg, lo, src[upto].stamp)) <= q + 1
    decreases q
  {
    var limit := NextLimit(cfg, lo, src[upto].stamp);
    GridSpacing(src, from, upto);
    if upto - from >= limit {
      assert limit == cfg.maxLimit;
      assert (q + 1) * limit == q * limit + limit;
      assert q > 0;
      GridSpacing(src, from, upto - limit);
      LaterPages(cfg, src, lo, from, upto - limit, q - 1);
    }
  }

  /**
   The page bound cannot trip on a well-formed history: labels on the grid, and no
   more than two full pages of bars elapsed between planning and fetching.
   */
  lemma {:induction false} PageBoundHolds(cfg: HistConfig, src: seq<Point>, since: int, needed: int, planned: int, now: int)
    requires cfg.Sane() && Ascending(src) && AllOnGrid(src)
    requires needed == Bars(FloorBar(planned) - since) && needed >= 1
    requires FloorBar(now) <= FloorBar(planned) + 600_000 * cfg.maxLimit
    ensures PagesFrom(cfg, src, since + BAR, Below(src, since + BAR), Upto(src, since + BAR, now), FirstLimit(cfg, needed))
         <= MaxPages(cfg, needed)
  {
    var lo, limit := since + BAR, FirstLimit(cfg, needed);
    var from, upto := Below(src, lo), Upto(src, lo, now);
    var q := AllowedPages(cfg, needed);
    if upto - from >= limit {
      PointsAtMost(src, since, planned, now, 2 * cfg.maxLimit);
      GridSpacing(src, from, upto - limit);
      LaterPages(cfg, src, lo, from, upto - limit, q + 1);
    }
  }

  /** `extra` bars after planning, at most `extra` points more than were planned for are in range. */
  lemma {:induction false} PointsAtMost(src: seq<Point>, since: int, planned: int, now: int, extra: nat)
    requires Ascending(src) && AllOnGrid(src)
    requires FloorBar(now) <= FloorBar(planned) + 300_000 * extra
    requires Below(src, since + BAR) < Upto(src, since + BAR, now)
    ensures Upto(src, since + BAR, now) - Below(src, since + BAR) <= Bars(FloorBar(planned) - since) + extra
    ensures src[Below(src, since + BAR)].stamp >= since + BAR
  {
    var from, last := Below(src, since + BAR), Upto(src, since + BAR, now) - 1;
    GridSpacing(src, from, last);
    assert Stamp(src, from) >= since + BAR && Stamp(src, last) <= now && OnGrid(Stamp(src, last));
    assert src[last].stamp <= FloorBar(now);
  }

  /** The page allowance in multiplicative form: what a full first page leaves fits in it. */
  lemma {:induction false} AllowedPages(cfg: HistConfig, needed: int) returns (q: nat)
    requires cfg.Sane() && needed >= 1
    ensures MaxPages(cfg, needed) == q + 3
    ensures needed + 2 * cfg.maxLimit - FirstLimit(cfg, needed) < (q + 2) * cfg.maxLimit
  {
    var m, d := cfg.maxLimit, Max(cfg.maxLimit - cfg.limitMargin, 1);
    q := needed / d;
    QuotientBounds(needed, d, m);
    Doubled(q, m);
  }

  lemma {:induction false} QuotientBounds(n: int, d: int, m: int)
    requires 0 < d <= m && n >= 0
    ensures 0 <= n / d && n < (n / d + 1) * m
  {
    var q := n / d;
    assert n < (q + 1) * d;
    assert (q + 1) * d <= (q + 1) * m;
  }

  lemma {:induction false} Doubled(q: nat, m: int)
    requires m > 0
    ensures (q + 2) * m == (q + 1) * m + m && (q + 1) * m >= m
  {
    assert (q + 1) * m == q * m + m;
  }

  // ---------------------------------------------------------------- the ratio endpoints

  /** The first `n` pages, read newest first, are the runs of `src` from `top` down to `low`. */
  ghost predicate Read(src: seq<Point>, pages: seq<seq<Point>>, n: nat, low: nat, top: nat)
    requires n <= |pages|
  {
    if n == 0 then low == top
    else IsRun(src, low, pages[n - 1]) && Read(src, pages, n - 1, low + |pages[n - 1]|, top)
  }

  lemma {:induction false} ReadMore(src: seq<Point>, pages: seq<seq<Point>>, page: seq<Point>, n: nat, low: nat, top: nat)
    requires n <= |pages| && Read(src, pages, n, low, top)
    ensures Read(src, pages + [page], n, low, top)
  {
    if n > 0 {
      ReadMore(src, pages, page, n - 1, low + |pages[n - 1]|, top);
    }
  }

  lemma {:induction false} AddPage(src: seq<Point>, pages: seq<seq<Point>>, page: seq<Point>, low: nat, top: nat)
    requires |page| <= low && IsRun(src, low - |page|, page)
    requires Read(src, pages, |pages|, low, top)
    ensures Read(src, pages + [page], |pages| + 1, low - |page|, top)
  {
    ReadMore(src, pages, page, |pages|, low, top);
  }

  lemma {:induction false} JoinRuns(src: seq<Point>, low: nat, a: seq<Point>, b: seq<Point>)
    requires IsRun(src, low, a) && IsRun(src, low + |a|, b)
    ensures IsRun(src, low, a + b)
  {
    forall k: nat {:trigger Nth(a + b, k)} | k < |a + b| ensures Nth(a + b, k) == src[low + k] {
      if k < |a| {
        assert Nth(a, k) == src[low + k];
      } else {
        assert Nth(b, k - |a|) == src[low + k];
      }
    }
  }

  /** One answered request of a run. */
  method ReadPage(cfg: HistConfig, src: seq<Point>, ghost fault: nat -> Fault, lo: int, to: int, ghost now: int, limit: nat,
                  ghost sent: nat, ghost maxPages: nat, ghost v: Verdict, ghost pages: seq<seq<Point>>)
    returns (page: seq<Point>)
    requires cfg.Sane() && Ascending(src) && Pending(cfg, src, fault, lo, to, limit, sent, maxPages, v)
    requires sent < maxPages && fault(sent).Answered?
    requires Read(src, pages, |pages|, Upto(src, lo, to), Upto(src, lo, now))
    ensures IsPage(src, lo, to, limit, page) && Splits(cfg, src, fault, lo, to, limit, sent, maxPages, v, page)
    ensures Read(src, pages + [page], |pages| + 1, Upto(src, lo, to) - |page|, Upto(src, lo, now))
  {
    page := Request(src, lo, to, limit);
    PageSplits(cfg, src, fault, lo, to, limit, sent, maxPages, v, page);
    AddPage(src, pages, page, Upto(src, lo, to), Upto(src, lo, now));
  }

  /** Puts the pages in order, oldest first. */
  method Collect(ghost src: seq<Point>, pages: seq<seq<Point>>, ghost low: nat, ghost top: nat) returns (out: seq<Point>)
    requires low <= |src| && Read(src, pages, |pages|, low, top)
    ensures low <= top <= |src| && out == src[low..top]
  {
    out := [];
    for i := |pages| downto 0
      invariant IsRun(src, low, out) && Read(src, pages, i, low + |out|, top)
    {
      JoinRuns(src, low, out, pages[i]);
      out := out + pages[i];
    }
    RunIsSlice(src, low, out);
  }

  /** What paging asks for next: the points up to `to`, no more than `limit` of them. */
  datatype Cursor = Cursor(to: int, limit: nat)

  /** One request of the loop: it ends the paging, or leaves the next request to send. */
  method NextPage(cfg: HistConfig, src: seq<Point>, fault: nat -> Fault, lo: int, at: Cursor, ghost now: int, sent: nat,
                  ghost maxPages: nat, ghost v: Verdict, pages: seq<seq<Point>>)
    returns (ended: Option<Ending>, pages': seq<seq<Point>>, at': Cursor)
    requires cfg.Sane() && Ascending(src) && Pending(cfg, src, fault, lo, at.to, at.limit, sent, maxPages, v) && sent < maxPages
    requires Read(src, pages, |pages|, Upto(src, lo, at.to), Upto(src, lo, now))
    ensures ended.Some? ==> ended.value == v.ending
    ensures ended == Some(Complete) ==> Read(src, pages', |pages'|, Below(src, lo), Upto(src, lo, now))
    ensures ended.None? ==>
      && Pending(cfg, src, fault, lo, at'.to, at'.limit, sent + 1, maxPages, v)
      && Read(src, pages', |pages'|, Upto(src, lo, at'.to), Upto(src, lo, now))
  {
    pages', at' := pages, at;
    if !fault(sent).Answered? {
      Stopped(cfg, src, fault, lo, at.to, at.limit, sent, maxPages, v);
      ended := Some(if fault(sent).Rejected? then UnknownSymbol else RequestError);
      return;
    }
    var pts := ReadPage(cfg, src, fault, lo, at.to, now, at.limit, sent, maxPages, v, pages);
    if |pts| == 0 {
      return Some(Complete), pages, at;
    }
    pages' := pages + [pts];
    if |pts| < at.limit || pts[0].stamp - 1 < lo {
      return Some(Complete), pages', at;
    }
    ended, at' := None, Cursor(pts[0].stamp - 1, NextLimit(cfg, lo, pts[0].stamp));
  }

  /** The paging loop, its bound and its first limit already computed. */
  method ReadPages(cfg: HistConfig, src: seq<Point>, fault: nat -> Fault, startLabel: int, now: int,
                   firstLimit: nat, maxPages: nat, ghost v: Verdict)
    returns (ending: Ending, pages: seq<seq<Point>>)
    requires cfg.Sane() && Ascending(src) && maxPages > 0
    requires Pending(cfg, src, fault, startLabel, now, firstLimit, 0, maxPages, v)
    ensures ending == v.ending
    ensures ending.Complete? ==> Read(src, pages, |pages|, Below(src, startLabel), Upto(src, startLabel, now))
  {
    var at := Cursor(now, firstLimit);
    pages := [];
    for page := 0 to maxPages
      invariant Pending(cfg, src, fault, startLabel, at.to, at.limit, page, maxPages, v)
      invariant Read(src, pages, |pages|, Upto(src, startLabel, at.to), Upto(src, startLabel, now))
    {
      var ended;
      ended, pages, at := NextPage(cfg, src, fault, startLabel, at, now, page, maxPages, v, pages);
      if ended.Some? {
        return ended.value, pages;
      }
    }
    Stopped(cfg, src, fault, startLabel, at.to, at.limit, maxPages, maxPages, v);
    ending := NotTerminating;
  }

  /** The fate of paging through the gap [since + BAR, now]. */
  ghost function GapVerdict(cfg: HistConfig, src: seq<Point>, fault: nat -> Fault, since: int, needed: int, now: int): Verdict
    requires cfg.Sane() && Ascending(src) && needed >= 1
  {
    Paging(cfg, src, fault, since + BAR, Below(src, since + BAR), Upto(src, since + BAR, now),
           FirstLimit(cfg, needed), 0, Max(MaxPages(cfg, needed), 0))
  }

  /** How it ends. */
  ghost function GapEnding(cfg: HistConfig, src: seq<Point>, fault: nat -> Fault, since: int, needed: int, now: int): Ending
    requires cfg.Sane() && Ascending(src) && needed >= 1
  {
    GapVerdict(cfg, src, fault, since, needed, now).ending
  }

  /** The number of requests that read the whole gap. */
  ghost function GapPages(cfg: HistConfig, src: seq<Point>, since: int, needed: int, now: int): nat
    requires cfg.Sane() && Ascending(src) && needed >= 1
  {
    PagesFrom(cfg, src, since + BAR, Below(src, since + BAR), Upto(src, since + BAR, now), FirstLimit(cfg, needed))
  }

  /**
   Paging completes exactly if the allowance covers the pages of the gap and every one
   of them is answered; it is cut off exactly if the allowance runs out unanswered.
   */
  lemma {:induction false} GapEndsWhen(cfg: HistConfig, src: seq<Point>, fault: nat -> Fault, since: int, needed: int, now: int)
    requires cfg.Sane() && Ascending(src) && needed >= 1
    ensures var pages, allowed := GapPages(cfg, src, since, needed, now), MaxPages(cfg, needed);
            var ending := GapEnding(cfg, src, fault, since, needed, now);
            && (ending.Complete? <==> pages <= allowed && forall k: nat :: k < pages ==> fault(k).Answered?)
            && (ending.NotTerminating? <==> pages > allowed && forall k: nat :: k < allowed ==> fault(k).Answered?)
            && (ending.UnknownSymbol? <==> exists k: nat :: k < pages && k < allowed && RejectedFirst(fault, 0, k))
  {
    var q := AllowedPages(cfg, needed);
    var from, top := Below(src, since + BAR), Upto(src, since + BAR, now);
    CompletesWhen(cfg, src, fault, since + BAR, from, top, FirstLimit(cfg, needed), 0, MaxPages(cfg, needed));
    forall k: nat | RejectedFirst(fault, 0, k)
      ensures GapEnding(cfg, src, fault, since, needed, now).UnknownSymbol?
         <==> k < GapPages(cfg, src, since, needed, now) && k < MaxPages(cfg, needed)
    {
      RejectedWhen(cfg, src, fault, since + BAR, from, top, FirstLimit(cfg, needed), 0, MaxPages(cfg, needed), k);
    }
  }

  /** On a well-formed history paging never runs out of pages: answered requests complete it. */
  lemma {:induction false} WellFormedGapCompletes(cfg: HistConfig, src: seq<Point>, fault: nat -> Fault, since: int, needed: int,
                                                  planned: int, now: int)
    requires cfg.Sane() && Ascending(src) && AllOnGrid(src)
    requires needed == Bars(FloorBar(planned) - since) && needed >= 1
    requires FloorBar(now) <= FloorBar(planned) + 600_000 * cfg.maxLimit
    requires forall k: nat :: fault(k).Answered?
    ensures GapEnding(cfg, src, fault, since, needed, now) == Complete
  {
    PageBoundHolds(cfg, src, since, needed, planned, now);
    GapEndsWhen(cfg, src, fault, since, needed, now);
  }

  /**
   Reads one endpoint's whole gap. A completed run returns exactly the endpoint's
   history of [since + BAR, now], each point once, oldest first; any other returns nothing.
   */
  method PageBack(cfg: HistConfig, src: seq<Point>, fault: nat -> Fault, since: int, needed: int, now: int)
    returns (ending: Ending, out: seq<Point>)
    requires cfg.Sane() && Ascending(src) && needed >= 1
    ensures ending == GapEnding(cfg, src, fault, since, needed, now)
    ensures out == if ending.Complete? then Between(src, since + BAR, now) else []
  {
    var q := AllowedPages(cfg, needed);
    var startLabel, limit := since + BAR, FirstLimit(cfg, needed);
    ghost var from, upto := Below(src, startLabel), Upto(src, startLabel, now);
    ghost var v := Paging(cfg, src, fault, startLabel, from, upto, limit, 0, MaxPages(cfg, needed));
    var pages;
    ending, pages := ReadPages(cfg, src, fault, startLabel, now, limit, MaxPages(cfg, needed), v);
    if ending.Complete? {
      out := Collect(src, pages, from, upto);
    } else {
      out := [];
    }
  }
}
