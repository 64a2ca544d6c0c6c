/**
 One symbol's open-interest fetch (Reconciler.fetchSymbol and emit in
 internal/openinterest/hist.go): pages are written as they arrive, newest page first.
 */
module OpenInterestFetch {
  import opened Align
  import opened BackwardPaging
  import opened HistSource
  import opened Options

  const RANK_LIVE := 1
  const RANK_HIST := 2
  const RANK_ARCHIVE := 3

  /** A row of an archive: what it holds for one bar of a symbol. */
  datatype Record<V> = Row(symbol: string, start: int, value: V, snap: int, rank: int)

  type Row = Record<Reading>

  /** What the writer accepts (Row.validate). */
  predicate Acceptable(r: Row) {
    r.symbol != "" && OnGrid(r.start) && r.value.Number? && r.value.x >= 0.0 && RANK_LIVE <= r.rank <= RANK_ARCHIVE
  }

  /** Every row names a symbol and a bar of the grid, and holds a number that is not negative. */
  ghost predicate AllSound(rows: seq<Row>) {
    forall u {:trigger Unfold(u)} :: Unfold(u) ==>
      forall i :: 0 <= i < |rows| ==> rows[i].symbol != "" && OnGrid(rows[i].start) && rows[i].value.Number? && rows[i].value.x >= 0.0
  }

  function RowOf<V>(symbol: string, p: Labelled<V>): Record<V> {
    Row(symbol, p.stamp - BAR, p.value, p.stamp, RANK_HIST)
  }

  predicate Kept<V>(p: Labelled<V>, now: int) {
    p.stamp <= now && OnGrid(p.stamp)
  }

  /** The rows of src[i..j]: one per point on the grid, in order. */
  function RowsOf<V>(symbol: string, src: seq<Labelled<V>>, now: int, i: nat, j: nat): seq<Record<V>>
    requires i <= j <= |src|
    decreases j
  {
    if i == j then []
    else RowsOf(symbol, src, now, i, j - 1) + (if Kept(src[j - 1], now) then [RowOf(symbol, src[j - 1])] else [])
  }

  /** The rows of a stretch of history are exactly those of its points that lie on the grid. */
  lemma {:induction false} RowsOfExact<V>(symbol: string, src: seq<Labelled<V>>, now: int, i: nat, j: nat, r: Record<V>)
    requires i <= j <= |src|
    ensures r in RowsOf(symbol, src, now, i, j)
       <==> exists k :: i <= k < j && Kept(src[k], now) && r == RowOf(symbol, src[k])
    decreases j
  {
    if i < j {
      RowsOfExact(symbol, src, now, i, j - 1, r);
      var before := RowsOf(symbol, src, now, i, j - 1);
      if k :| i <= k < j && Kept(src[k], now) && r == RowOf(symbol, src[k]) {
        assert k < j - 1 ==> r in before;
      }
      if r in RowsOf(symbol, src, now, i, j) && r !in before {
        assert Kept(src[j - 1], now) && r == RowOf(symbol, src[j - 1]);
      }
    }
  }

  lemma {:induction false} RowsJoin(symbol: string, src: seq<Point>, now: int, i: nat, m: nat, j: nat)
    requires i <= m <= j <= |src|
    ensures RowsOf(symbol, src, now, i, j) == RowsOf(symbol, src, now, i, m) + RowsOf(symbol, src, now, m, j)
    decreases j
  {
    if m < j {
      RowsJoin(symbol, src, now, i, m, j - 1);
    }
  }

  lemma {:induction false} RowsOfRun(symbol: string, src: seq<Point>, now: int, low: nat, run: seq<Point>, n: nat)
    requires IsRun(src, low, run) && n <= |run|
    ensures RowsOf(symbol, run, now, 0, n) == RowsOf(symbol, src, now, low, low + n)
  {
    if n > 0 {
      RowsOfRun(symbol, src, now, low, run, n - 1);
      assert Nth(run, n - 1) == src[low + n - 1];
    }
  }

  function Later(newest: Option<int>, start: int): Option<int> {
    if newest.None? || newest.value < start then Some(start) else newest
  }

  /** The largest start among the first `n` rows, if there are any. */
  function NewestStart<V>(rows: seq<Record<V>>, n: nat): Option<int>
    requires n <= |rows|
  {
    if n == 0 then None else Later(NewestStart(rows, n - 1), rows[n - 1].start)
  }

  lemma {:induction false} NewestStartIsMax<V>(rows: seq<Record<V>>, n: nat)
    requires n <= |rows|
    ensures NewestStart(rows, n).None? <==> n == 0
    ensures forall k :: 0 <= k < n ==> rows[k].start <= NewestStart(rows, n).value
    ensures n > 0 ==> exists k :: 0 <= k < n && rows[k].start == NewestStart(rows, n).value
  {
    if n > 0 {
      NewestStartIsMax(rows, n - 1);
      assert rows[n - 1].start == NewestStart(rows, n).value || NewestStart(rows, n) == NewestStart(rows, n - 1);
    }
  }

  lemma {:induction false} NewestPrefix<V>(rows: seq<Record<V>>, r: Record<V>, n: nat)
    requires n <= |rows|
    ensures NewestStart(rows + [r], n) == NewestStart(rows, n)
  {
    if n > 0 {
      NewestPrefix(rows, r, n - 1);
    }
  }

  lemma {:induction false} MoreSound(rows: seq<Row>, r: Row)
    requires AllSound(rows) && Acceptable(r)
    ensures AllSound(rows + [r])
  {
    assert Unfold(0);
  }

  /**
   Pushes the rows of one page, up to the first one that is not taken. `refuse(k)` is
   whether the writer turns the k-th row of the fetch away (it is closing, or the context
   ended).
   */
  method Emit(symbol: string, pts: seq<Point>, now: int, refuse: nat -> bool, pushed: seq<Row>, newest: Option<int>)
    returns (ok: bool, pushed': seq<Row>, newest': Option<int>)
    requires newest == NewestStart(pushed, |pushed|) && AllSound(pushed)
    ensures newest' == NewestStart(pushed', |pushed'|) && AllSound(pushed')
    ensures var all := pushed + RowsOf(symbol, pts, now, 0, |pts|);
            && pushed <= pushed' <= all && (ok ==> pushed' == all)
            && (!ok ==> |pushed'| < |all| && (refuse(|pushed'|) || !Acceptable(all[|pushed'|])))
  {
    pushed', newest' := pushed, newest;
    for i := 0 to |pts|
      invariant newest' == NewestStart(pushed', |pushed'|) && AllSound(pushed')
      invariant pushed' == pushed + RowsOf(symbol, pts, now, 0, i)
    {
      if !Kept(pts[i], now) {
        continue;
      }
      var row := RowOf(symbol, pts[i]);
      if !Acceptable(row) || refuse(|pushed'|) {
        RowsJoin(symbol, pts, now, 0, i + 1, |pts|);
        return false, pushed', newest';
      }
      NewestPrefix(pushed', row, |pushed'|);
      MoreSound(pushed', row);
      pushed' := pushed' + [row];
      newest' := Later(newest', row.start);
    }
    ok := true;
  }

  /** How a fetch ends; the first two are no error to the caller. */
  datatype Fetched = Whole | Delisted | Failed | PushFailed

  function Reported(ending: Ending): Fetched {
    match ending
    case Complete => Whole
    case UnknownSymbol => Delisted
    case RequestError => Failed
    case NotTerminating => Failed
  }

  /** The rows of the first `n` pages in the order they are pushed. */
  ghost function PagesRows(symbol: string, now: int, pages: seq<seq<Point>>, n: nat): seq<Row>
    requires n <= |pages|
  {
    if n == 0 then []
    else PagesRows(symbol, now, pages, n - 1) + RowsOf(symbol, pages[n - 1], now, 0, |pages[n - 1]|)
  }

  lemma {:induction false} SamePages(symbol: string, now: int, pages: seq<seq<Point>>, page: seq<Point>, n: nat)
    requires n <= |pages|
    ensures PagesRows(symbol, now, pages + [page], n) == PagesRows(symbol, now, pages, n)
  {
    if n > 0 {
      SamePages(symbol, now, pages, page, n - 1);
    }
  }

  lemma {:induction false} SameRows(a: seq<Row>, b: seq<Row>, c: seq<Row>, d: seq<Row>)
    requires multiset(a) == multiset(b) && d == c + b
    ensures multiset(a + c) == multiset(d)
  {
  }

  /** Pages that cover a stretch of history carry that stretch's rows, each once. */
  lemma {:induction false} PagesRowsExact(symbol: string, now: int, src: seq<Point>, pages: seq<seq<Point>>, n: nat,
                                          low: nat, top: nat)
    requires n <= |pages| && low <= |src| && Read(src, pages, n, low, top)
    ensures low <= top <= |src|
    ensures multiset(PagesRows(symbol, now, pages, n)) == multiset(RowsOf(symbol, src, now, low, top))
  {
    if n > 0 {
      var page := pages[n - 1];
      var mid := low + |page|;
      PagesRowsExact(symbol, now, src, pages, n - 1, mid, top);
      RowsOfRun(symbol, src, now, low, page, |page|);
      RowsJoin(symbol, src, now, low, mid, top);
      SameRows(PagesRows(symbol, now, pages, n - 1), RowsOf(symbol, src, now, mid, top),
               RowsOf(symbol, page, now, 0, |page|), RowsOf(symbol, src, now, low, top));
    }
  }

  /** The writer refuses nothing by itself, and every number of this history is sound. */
  ghost predicate Welcome(symbol: string, src: seq<Point>, refuse: nat -> bool) {
    symbol != "" && (forall k :: !refuse(k)) && forall p :: p in src && OnGrid(p.stamp) ==> p.value.Number? && p.value.x >= 0.0
  }

  /** Every row of a page of a welcome history is taken. */
  lemma {:induction false} PageIsWelcome(symbol: string, src: seq<Point>, refuse: nat -> bool, now: int, at: nat, page: seq<Point>, r: Row)
    requires Welcome(symbol, src, refuse) && IsRun(src, at, page) && r in RowsOf(symbol, page, now, 0, |page|)
    ensures Acceptable(r)
  {
    RowsOfExact(symbol, page, now, 0, |page|, r);
    var k: nat :| k < |page| && Kept(page[k], now) && r == RowOf(symbol, page[k]);
    assert Nth(page, k) == src[at + k] && src[at + k] in src;
  }

  /** The pages read so far go from `top` down to `low`, and their rows have been pushed. */
  ghost predicate Sofar(symbol: string, src: seq<Point>, now: int, pages: seq<seq<Point>>, pushed: seq<Row>, low: nat, top: nat) {
    forall u {:trigger Unfold(u)} :: Unfold(u) ==>
      Read(src, pages, |pages|, low, top) && pushed == PagesRows(symbol, now, pages, |pages|)
  }

  /** One answered request: read a page and push its rows. */
  method FetchPage(cfg: HistConfig, symbol: string, src: seq<Point>, ghost fault: nat -> Fault, refuse: nat -> bool,
                   lo: int, to: int, now: int, limit: nat, ghost sent: nat, ghost maxPages: nat, ghost v: Verdict,
                   pushed: seq<Row>, newest: Option<int>, ghost pages: seq<seq<Point>>)
    returns (ok: bool, pts: seq<Point>, pushed': seq<Row>, newest': Option<int>)
    requires cfg.Sane() && Ascending(src) && Pending(cfg, src, fault, lo, to, limit, sent, maxPages, v)
    requires sent < maxPages && fault(sent).Answered?
    requires newest == NewestStart(pushed, |pushed|) && AllSound(pushed)
    requires Sofar(symbol, src, now, pages, pushed, Upto(src, lo, to), Upto(src, lo, now))
    ensures Splits(cfg, src, fault, lo, to, limit, sent, maxPages, v, pts) && |pts| <= Upto(src, lo, to)
    ensures newest' == NewestStart(pushed', |pushed'|) && AllSound(pushed')
    ensures ok ==> Sofar(symbol, src, now, pages + [pts], pushed', Upto(src, lo, to) - |pts|, Upto(src, lo, now))
    ensures Welcome(symbol, src, refuse) ==> ok
  {
    assert Unfold(0);
    pts := ReadPage(cfg, src, fault, lo, to, now, limit, sent, maxPages, v, pages);
    SamePages(symbol, now, pages, pts, |pages|);
    ok, pushed', newest' := Emit(symbol, pts, now, refuse, pushed, newest);
    if !ok && Welcome(symbol, src, refuse) {
      PageIsWelcome(symbol, src, refuse, now, Upto(src, lo, to) - |pts|, pts,
                    RowsOf(symbol, pts, now, 0, |pts|)[|pushed'| - |pushed|]);
    }
  }

  /** One request of a fetch: it ends the fetch, or leaves the next request to send. */
  method FetchNext(cfg: HistConfig, symbol: string, src: seq<Point>, fault: nat -> Fault, refuse: nat -> bool,
                   lo: int, at: Cursor, now: int, sent: nat, ghost maxPages: nat, ghost v: Verdict,
                   pushed: seq<Row>, newest: Option<int>, ghost pages: seq<seq<Point>>)
    returns (end: Option<Fetched>, at': Cursor, pushed': seq<Row>, newest': Option<int>, ghost pages': seq<seq<Point>>)
    requires cfg.Sane() && Ascending(src) && Pending(cfg, src, fault, lo, at.to, at.limit, sent, maxPages, v) && sent < maxPages
    requires newest == NewestStart(pushed, |pushed|) && AllSound(pushed)
    requires Sofar(symbol, src, now, pages, pushed, Upto(src, lo, at.to), Upto(src, lo, now))
    ensures newest' == NewestStart(pushed', |pushed'|) && AllSound(pushed')
    ensures end.None? ==>
      && Pending(cfg, src, fault, lo, at'.to, at'.limit, sent + 1, maxPages, v)
      && Sofar(symbol, src, now, pages', pushed', Upto(src, lo, at'.to), Upto(src, lo, now))
    ensures end.Some? && !end.value.PushFailed? ==> end.value == Reported(v.ending)
    ensures end.Some? && (end.value.Whole? || end.value.Delisted?) ==>
      Sofar(symbol, src, now, pages', pushed', v.low, Upto(src, lo, now))
    ensures Welcome(symbol, src, refuse) && end.Some? ==> !end.value.PushFailed?
  {
    at', pushed', newest', pages' := at, pushed, newest, pages;
    if !fault(sent).Answered? {
      Stopped(cfg, src, fault, lo, at.to, at.limit, sent, maxPages, v);
      end := Some(if fault(sent).Rejected? then Delisted else Failed);
      return;
    }
    var ok, pts;
    ok, pts, pushed', newest' := FetchPage(cfg, symbol, src, fault, refuse, lo, at.to, now, at.limit, sent, maxPages, v,
                                           pushed, newest, pages);
    pages' := pages + [pts];
    if !ok {
      end := Some(PushFailed);
      return;
    }
    if |pts| < at.limit || pts[0].stamp - 1 < lo {
      end := Some(Whole);
      return;
    }
    end, at' := None, Cursor(pts[0].stamp - 1, NextLimit(cfg, lo, pts[0].stamp));
  }

  /** The fetch loop, its bound and its first limit already computed. */
  method FetchPages(cfg: HistConfig, symbol: string, src: seq<Point>, fault: nat -> Fault, refuse: nat -> bool,
                    startLabel: int, now: int, firstLimit: nat, maxPages: nat, ghost v: Verdict)
    returns (end: Fetched, pushed: seq<Row>, newest: Option<int>, ghost pages: seq<seq<Point>>)
    requires cfg.Sane() && Ascending(src) && maxPages > 0
    requires Pending(cfg, src, fault, startLabel, now, firstLimit, 0, maxPages, v)
    ensures newest == NewestStart(pushed, |pushed|) && AllSound(pushed)
    ensures !end.PushFailed? ==> end == Reported(v.ending)
    ensures end.Whole? || end.Delisted? ==> Sofar(symbol, src, now, pages, pushed, v.low, Upto(src, startLabel, now))
    ensures Welcome(symbol, src, refuse) ==> !end.PushFailed?
  {
    var at := Cursor(now, firstLimit);
    pushed, newest, pages := [], None, [];
    assert AllSound(pushed);
    for page := 0 to maxPages
      invariant Pending(cfg, src, fault, startLabel, at.to, at.limit, page, maxPages, v)
      invariant newest == NewestStart(pushed, |pushed|) && AllSound(pushed)
      invariant Sofar(symbol, src, now, pages, pushed, Upto(src, startLabel, at.to), Upto(src, startLabel, now))
    {
      var ended;
      ended, at, pushed, newest, pages := FetchNext(cfg, symbol, src, fault, refuse, startLabel, at, now, page, maxPages, v,
                                                    pushed, newest, pages);
      if ended.Some? {
        end := ended.value;
        return;
      }
    }
    Stopped(cfg, src, fault, startLabel, at.to, at.limit, maxPages, maxPages, v);
    end := Failed;
  }

  // ---------------------------------------------------------------- a rejection half-way

  /** Some point of src[i..j] yields a row. */
  predicate AnyKept(src: seq<Point>, now: int, i: nat, j: nat)
    requires i <= j <= |src|
  {
    exists k :: i <= k < j && Kept(src[k], now)
  }

  /** The number of requests until the last point of src[from..upto] that yields a row has been read. */
  ghost function KeptPages(cfg: HistConfig, src: seq<Point>, now: int, lo: int, from: nat, upto: nat, limit: nat): nat
    requires cfg.Sane() && from <= upto <= |src| && limit > 0
    decreases upto
  {
    if !AnyKept(src, now, from, upto) then 0
    else if Exhausted(src, lo, from, upto, limit) then 1
    else 1 + KeptPages(cfg, src, now, lo, from, upto - limit, NextLimit(cfg, lo, src[upto - limit].stamp))
  }

  /** After `n` answered requests a row is still to come exactly if `n` is below that number. */
  lemma {:induction false} KeptIsLeft(cfg: HistConfig, src: seq<Point>, now: int, lo: int, from: nat, upto: nat, limit: nat, n: nat)
    requires cfg.Sane() && from <= upto <= |src| && limit > 0
    ensures AnyKept(src, now, from, LowAfter(cfg, src, lo, from, upto, limit, n))
       <==> n < KeptPages(cfg, src, now, lo, from, upto, limit)
    decreases upto
  {
    if n > 0 && !Exhausted(src, lo, from, upto, limit) {
      KeptIsLeft(cfg, src, now, lo, from, upto - limit, NextLimit(cfg, lo, src[upto - limit].stamp), n - 1);
    }
  }

  lemma {:induction false} NoRowExactly(symbol: string, src: seq<Point>, now: int, i: nat, j: nat)
    requires i <= j <= |src|
    ensures RowsOf(symbol, src, now, i, j) == [] <==> !AnyKept(src, now, i, j)
    decreases j
  {
    if i < j {
      NoRowExactly(symbol, src, now, i, j - 1);
      if AnyKept(src, now, i, j) && !Kept(src[j - 1], now) {
        var k :| i <= k < j && Kept(src[k], now);
        assert k < j - 1;
      }
    }
  }

  /** The number of requests of a gap that have to be answered for all of its rows. */
  ghost function RowRequests(cfg: HistConfig, src: seq<Point>, since: int, needed: int, now: int): nat
    requires cfg.Sane() && Ascending(src) && needed >= 1
  {
    KeptPages(cfg, src, now, since + BAR, Below(src, since + BAR), Upto(src, since + BAR, now), FirstLimit(cfg, needed))
  }

  /** The rows of the whole gap. */
  ghost function GapRows(symbol: string, src: seq<Point>, since: int, now: int): seq<Row>
    requires Ascending(src)
  {
    RowsOf(symbol, src, now, Below(src, since + BAR), Upto(src, since + BAR, now))
  }

  /** The rows of what a fetch has read when it ends as `v` says. */
  ghost function ReadRows(symbol: string, src: seq<Point>, since: int, now: int, v: Verdict): seq<Row>
    requires Ascending(src) && v.low <= Upto(src, since + BAR, now)
  {
    RowsOf(symbol, src, now, v.low, Upto(src, since + BAR, now))
  }

  /** The `k`-th request is the first one that is not answered; it is rejected, before the gap is read and inside the allowance. */
  ghost predicate CutShort(cfg: HistConfig, src: seq<Point>, fault: nat -> Fault, since: int, needed: int, now: int, k: nat)
    requires cfg.Sane() && Ascending(src) && needed >= 1
  {
    RejectedFirst(fault, 0, k) && k < GapPages(cfg, src, since, needed, now) && k < MaxPages(cfg, needed)
  }

  /**
   A fetch cut short at its `k`-th request reports a success. It has pushed the whole gap
   exactly if none of the requests from `k` on would have brought a row.
   */
  lemma {:induction false} DelistedIsWholeExactly(cfg: HistConfig, symbol: string, src: seq<Point>, fault: nat -> Fault,
                                                  since: int, needed: int, now: int, k: nat)
    requires cfg.Sane() && Ascending(src) && needed >= 1 && CutShort(cfg, src, fault, since, needed, now, k)
    ensures var v := GapVerdict(cfg, src, fault, since, needed, now);
            && Reported(v.ending) == Delisted && v.low <= Upto(src, since + BAR, now)
            && (multiset(ReadRows(symbol, src, since, now, v)) == multiset(GapRows(symbol, src, since, now))
                <==> RowRequests(cfg, src, since, needed, now) <= k)
  {
    var v := CutShortEnds(cfg, src, fault, since, needed, now, k);
    WholeExactly(symbol, src, now, Below(src, since + BAR), v.low, Upto(src, since + BAR, now));
  }

  /** How a fetch cut short ends, and when a row is still to come. */
  lemma {:induction false} CutShortEnds(cfg: HistConfig, src: seq<Point>, fault: nat -> Fault, since: int, needed: int, now: int, k: nat)
    returns (v: Verdict)
    requires cfg.Sane() && Ascending(src) && needed >= 1 && CutShort(cfg, src, fault, since, needed, now, k)
    ensures v == GapVerdict(cfg, src, fault, since, needed, now) && v.ending == UnknownSymbol
    ensures Below(src, since + BAR) <= v.low <= Upto(src, since + BAR, now)
    ensures AnyKept(src, now, Below(src, since + BAR), v.low) <==> k < RowRequests(cfg, src, since, needed, now)
  {
    var lo, from, top, limit := since + BAR, Below(src, since + BAR), Upto(src, since + BAR, now), FirstLimit(cfg, needed);
    v := GapVerdict(cfg, src, fault, since, needed, now);
    RejectedWhen(cfg, src, fault, lo, from, top, limit, 0, MaxPages(cfg, needed), k);
    KeptIsLeft(cfg, src, now, lo, from, top, limit, k);
  }

  /** What lies above `low` has all rows exactly if nothing below it yields one. */
  lemma {:induction false} WholeExactly(symbol: string, src: seq<Point>, now: int, from: nat, low: nat, top: nat)
    requires from <= low <= top <= |src|
    ensures multiset(RowsOf(symbol, src, now, low, top)) == multiset(RowsOf(symbol, src, now, from, top)) <==> !AnyKept(src, now, from, low)
  {
    NoRowExactly(symbol, src, now, from, low);
    RowsJoin(symbol, src, now, from, low, top);
    MoreRows(RowsOf(symbol, src, now, from, low), RowsOf(symbol, src, now, low, top));
  }

  lemma {:induction false} MoreRows(below: seq<Row>, above: seq<Row>)
    ensures multiset(above) == multiset(below + above) <==> below == []
  {
    assert |multiset(below + above)| == |below| + |above| && |multiset(above)| == |above|;
    assert [] + above == above;
  }

  /**
   Fetches one planned gap. A fetch that ends without an error has pushed all rows of the
   gap, each once, unless a request was rejected while one of them was still to come.
   */
  method FetchSymbol(cfg: HistConfig, symbol: string, src: seq<Point>, fault: nat -> Fault, refuse: nat -> bool,
                     since: int, needed: int, now: int)
    returns (end: Fetched, pushed: seq<Row>, newest: Option<int>)
    requires cfg.Sane() && Ascending(src) && needed >= 1
    ensures newest == NewestStart(pushed, |pushed|) && AllSound(pushed)
    ensures
      var v := GapVerdict(cfg, src, fault, since, needed, now);
      && v.low <= Upto(src, since + BAR, now)
      && (!end.PushFailed? ==> end == Reported(v.ending))
      && (end.Whole? ==> multiset(pushed) == multiset(GapRows(symbol, src, since, now)))
      && (end.Delisted? ==> multiset(pushed) == multiset(ReadRows(symbol, src, since, now, v)))
    ensures end.Delisted? ==>
      exists k: nat :: CutShort(cfg, src, fault, since, needed, now, k) &&
        (multiset(pushed) == multiset(GapRows(symbol, src, since, now)) <==> RowRequests(cfg, src, since, needed, now) <= k)
    ensures Welcome(symbol, src, refuse) ==> !end.PushFailed?
  {
    var q := AllowedPages(cfg, needed);
    var startLabel, limit, maxPages := since + BAR, FirstLimit(cfg, needed), MaxPages(cfg, needed);
    ghost var from, top := Below(src, startLabel), Upto(src, startLabel, now);
    ghost var v := GapVerdict(cfg, src, fault, since, needed, now);
    CompletesWhen(cfg, src, fault, startLabel, from, top, limit, 0, maxPages);
    ghost var pages;
    end, pushed, newest, pages := FetchPages(cfg, symbol, src, fault, refuse, startLabel, now, limit, maxPages, v);
    if end.Whole? || end.Delisted? {
      assert Unfold(0);
      PagesRowsExact(symbol, now, src, pages, |pages|, v.low, top);
    }
    if end.Delisted? {
      GapEndsWhen(cfg, src, fault, since, needed, now);
      ghost var k: nat :| k < GapPages(cfg, src, since, needed, now) && k < MaxPages(cfg, needed) && RejectedFirst(fault, 0, k);
      assert CutShort(cfg, src, fault, since, needed, now, k);
      DelistedIsWholeExactly(cfg, symbol, src, fault, since, needed, now, k);
    }
  }
}
