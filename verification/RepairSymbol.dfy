/**
 The repair of one symbol's open-interest bars (run in
 cmd/test-tools/backfill_missing_oi.py): cut, clip, subtract, merge, plan, fetch, keep.
 A fetch returns whatever it likes; the filters decide what is written.
 */
module RepairSymbol {
  import opened HistSource
  import opened Options
  import opened Ranges
  import opened SpanPlan

  const PAGE := 500

  /** One fetched point; `start` is None when its label is off the five-minute grid. */
  datatype Sample = Sample(start: Option<int>, value: Reading)

  datatype Row = Row(start: int, value: Reading)

  /** A sound open-interest value: a finite number that is not negative. */
  predicate Sound(v: Reading) {
    v.Number? && v.x >= 0.0
  }

  /** What is to be repaired: missing bars, and live rows that were never replaced. */
  predicate Target(todo: seq<Range>, live: set<int>, t: int) {
    t in live || Wanted(todo, t)
  }

  predicate Keeps(todo: seq<Range>, live: set<int>, last: int, s: Sample) {
    s.start.Some? && s.start.value <= last && Target(todo, live, s.start.value) && Sound(s.value)
  }

  function StartOf(rows: seq<Row>, i: nat): int
    requires i < |rows|
  {
    rows[i].start
  }

  /** No bar is written twice, and `seen` lists the bars written. */
  ghost predicate Once(rows: seq<Row>, seen: set<int>) {
    && (forall i: nat {:trigger StartOf(rows, i)} :: i < |rows| ==> StartOf(rows, i) in seen)
    && (forall t :: t in seen ==> exists i: nat :: i < |rows| && StartOf(rows, i) == t)
    && (forall i: nat, j: nat {:trigger StartOf(rows, i), StartOf(rows, j)} :: i < j < |rows| ==> StartOf(rows, i) != StartOf(rows, j))
  }

  lemma {:induction false} OneMore(rows: seq<Row>, seen: set<int>, r: Row)
    requires Once(rows, seen) && r.start !in seen
    ensures Once(rows + [r], seen + {r.start})
  {
    var out := rows + [r];
    assert forall i: nat {:trigger StartOf(out, i)} :: i < |rows| ==> StartOf(out, i) == StartOf(rows, i);
    assert StartOf(out, |rows|) == r.start;
    forall t | t in seen + {r.start} ensures exists i: nat :: i < |out| && StartOf(out, i) == t {
      if t in seen {
        var i: nat :| i < |rows| && StartOf(rows, i) == t;
        assert StartOf(out, i) == t;
      }
    }
  }

  /** The bars some sample among the first `n` may be written for. */
  ghost predicate Kept(todo: seq<Range>, live: set<int>, last: int, samples: seq<Sample>, n: nat, t: int)
    requires n <= |samples|
  {
    exists k :: 0 <= k < n && Keeps(todo, live, last, samples[k]) && samples[k].start == Some(t)
  }

  /** The values written are the exchange's. */
  ghost predicate True(rows: seq<Row>, exchange: map<int, Reading>) {
    forall r :: r in rows ==> r.start in exchange && r.value == exchange[r.start]
  }

  ghost predicate Truthful(samples: seq<Sample>, exchange: map<int, Reading>) {
    forall s :: s in samples && s.start.Some? ==> s.start.value in exchange && s.value == exchange[s.start.value]
  }

  /** The counters of a symbol: missing bars found, live rows replaced. */
  ghost predicate Counts(seen: set<int>, live: set<int>, got: int, replaced: int) {
    got == |seen - live| && replaced == |seen * live|
  }

  /** What has been written, and its counters. */
  datatype Written = Written(rows: seq<Row>, seen: set<int>, got: int, replaced: int)

  /** Every value written is a finite number that is not negative. */
  ghost predicate AllSound(rows: seq<Row>) {
    forall i :: 0 <= i < |rows| ==> rows[i].value.Number? && rows[i].value.x >= 0.0
  }

  /** No bar twice, no unsound value, and the counters right. */
  ghost predicate Good(w: Written, live: set<int>) {
    forall u {:trigger Unfold(u)} :: Unfold(u) ==>
      Once(w.rows, w.seen) && AllSound(w.rows) && Counts(w.seen, live, w.got, w.replaced)
  }

  lemma {:induction false} GoodMore(w: Written, live: set<int>, start: int, v: Reading)
    requires Good(w, live) && start !in w.seen && Sound(v)
    ensures Good(Written(w.rows + [Row(start, v)], w.seen + {start},
                         if start in live then w.got else w.got + 1, if start in live then w.replaced + 1 else w.replaced), live)
  {
    assert Unfold(0);
    OneMore(w.rows, w.seen, Row(start, v));
    OneMoreSize(w.seen, start, live);
    MoreSound(w.rows, Row(start, v));
  }

  lemma {:induction false} MoreSound(rows: seq<Row>, r: Row)
    requires AllSound(rows) && Sound(r.value)
    ensures AllSound(rows + [r])
  {
  }

  /** Writes one sample, if it is to be kept. */
  method TakeOne(todo: seq<Range>, live: set<int>, last: int, s: Sample, w: Written) returns (w': Written)
    requires Good(w, live)
    ensures Good(w', live)
    ensures w'.seen == w.seen + if Keeps(todo, live, last, s) then {s.start.value} else {}
    ensures w' == w || (s.start.Some? && w'.rows == w.rows + [Row(s.start.value, s.value)])
  {
    w' := w;
    if s.start.None? || s.start.value > last || s.start.value in w.seen {
      return;
    }
    var start := s.start.value;
    if start !in live && !Wanted(todo, start) {
      return;
    }
    if !Sound(s.value) {
      return;
    }
    GoodMore(w, live, start, s.value);
    w' := Written(w.rows + [Row(start, s.value)], w.seen + {start},
                  if start in live then w.got else w.got + 1, if start in live then w.replaced + 1 else w.replaced);
  }

  lemma {:induction false} KeptMore(todo: seq<Range>, live: set<int>, last: int, samples: seq<Sample>, k: nat, t: int)
    requires k < |samples|
    ensures Kept(todo, live, last, samples, k + 1, t)
       <==> Kept(todo, live, last, samples, k, t) || (Keeps(todo, live, last, samples[k]) && samples[k].start == Some(t))
  {
  }

  /** `seen` lists what was seen before and the bars the first `n` samples are kept for. */
  ghost predicate Took(todo: seq<Range>, live: set<int>, last: int, samples: seq<Sample>, n: nat, was: set<int>, seen: set<int>)
    requires n <= |samples|
  {
    forall t :: t in seen <==> t in was || Kept(todo, live, last, samples, n, t)
  }

  lemma {:induction false} TookMore(todo: seq<Range>, live: set<int>, last: int, samples: seq<Sample>, k: nat, was: set<int>, seen: set<int>)
    requires k < |samples| && Took(todo, live, last, samples, k, was, seen)
    ensures Took(todo, live, last, samples, k + 1, was,
                 seen + if Keeps(todo, live, last, samples[k]) then {samples[k].start.value} else {})
  {
    forall t ensures Kept(todo, live, last, samples, k + 1, t)
                <==> Kept(todo, live, last, samples, k, t) || (Keeps(todo, live, last, samples[k]) && samples[k].start == Some(t))
    {
      KeptMore(todo, live, last, samples, k, t);
    }
  }

  lemma {:induction false} TrueMore(rows: seq<Row>, rows': seq<Row>, s: Sample, samples: seq<Sample>, exchange: map<int, Reading>)
    requires s in samples && (rows' == rows || (s.start.Some? && rows' == rows + [Row(s.start.value, s.value)]))
    ensures True(rows, exchange) && Truthful(samples, exchange) ==> True(rows', exchange)
  {
  }

  /** Writes what one request returned. */
  method Take(todo: seq<Range>, live: set<int>, last: int, samples: seq<Sample>, w: Written, ghost exchange: map<int, Reading>)
    returns (w': Written)
    requires Good(w, live)
    ensures Good(w', live) && Took(todo, live, last, samples, |samples|, w.seen, w'.seen)
    ensures True(w.rows, exchange) && Truthful(samples, exchange) ==> True(w'.rows, exchange)
  {
    w' := w;
    for k := 0 to |samples|
      invariant Good(w', live) && Took(todo, live, last, samples, k, w.seen, w'.seen)
      invariant True(w.rows, exchange) && Truthful(samples, exchange) ==> True(w'.rows, exchange)
    {
      TookMore(todo, live, last, samples, k, w.seen, w'.seen);
      ghost var before := w'.rows;
      w' := TakeOne(todo, live, last, samples[k], w');
      TrueMore(before, w'.rows, samples[k], samples, exchange);
    }
  }

  /** A fetcher that honours its span: the exchange's bars of the span, no other, with their values. */
  ghost predicate Honest(fetch: Range -> Option<seq<Sample>>, exchange: map<int, Reading>) {
    forall span :: fetch(span).Some? ==> Answers(fetch(span).value, span, exchange)
  }

  ghost predicate Answers(samples: seq<Sample>, span: Range, exchange: map<int, Reading>) {
    && Truthful(samples, exchange)
    && forall t :: (exists s :: s in samples && s.start == Some(t)) <==> span.Has(t) && t in exchange
  }

  /** What an honest exchange lets the repair write. */
  predicate Available(todo: seq<Range>, live: set<int>, last: int, exchange: map<int, Reading>, t: int) {
    t in exchange && Sound(exchange[t]) && t <= last && Target(todo, live, t)
  }

  lemma {:induction false} HonestKeeps(todo: seq<Range>, live: set<int>, last: int, samples: seq<Sample>, span: Range,
                                       exchange: map<int, Reading>, t: int)
    requires Answers(samples, span, exchange)
    ensures Kept(todo, live, last, samples, |samples|, t) <==> span.Has(t) && Available(todo, live, last, exchange, t)
  {
  }

  /** Some request fails for good. */
  ghost predicate Fails(fetch: Range -> Option<seq<Sample>>) {
    exists span :: fetch(span).None?
  }

  /** Fetches the planned spans, until a request fails for good. */
  method FetchSpans(todo: seq<Range>, live: set<int>, last: int, spans: seq<Range>, fetch: Range -> Option<seq<Sample>>,
                    ghost exchange: map<int, Reading>)
    returns (ok: bool, rows: seq<Row>, ghost seen: set<int>, got: int, replaced: int)
    ensures Once(rows, seen) && AllSound(rows) && Counts(seen, live, got, replaced)
    ensures !ok ==> Fails(fetch)
    ensures (exists k :: 0 <= k < |spans| && fetch(spans[k]).None?) ==> !ok
    ensures forall t :: t in seen ==> t <= last && Target(todo, live, t)
    ensures Honest(fetch, exchange) ==> True(rows, exchange)
    ensures Honest(fetch, exchange) && ok ==>
      forall t :: t in seen <==> Wanted(spans, t) && Available(todo, live, last, exchange, t)
  {
    var w := Written([], {}, 0, 0);
    assert Unfold(0) && {} - live == {} && {} * live == {};
    for k := 0 to |spans|
      invariant Good(w, live) && forall j :: 0 <= j < k ==> fetch(spans[j]).Some?
      invariant forall t :: t in w.seen ==> t <= last && Target(todo, live, t)
      invariant Honest(fetch, exchange) ==> True(w.rows, exchange)
      invariant Honest(fetch, exchange) ==>
        forall t :: t in w.seen <==> Wanted(spans[..k], t) && Available(todo, live, last, exchange, t)
    {
      var samples := fetch(spans[k]);
      if samples.None? {
        return false, w.rows, w.seen, w.got, w.replaced;
      }
      assert spans[..k + 1] == spans[..k] + [spans[k]];
      assert Honest(fetch, exchange) ==> Answers(samples.value, spans[k], exchange);
      forall t | Honest(fetch, exchange)
        ensures Kept(todo, live, last, samples.value, |samples.value|, t) <==> spans[k].Has(t) && Available(todo, live, last, exchange, t)
        ensures Wanted(spans[..k + 1], t) <==> Wanted(spans[..k], t) || spans[k].Has(t)
      {
        HonestKeeps(todo, live, last, samples.value, spans[k], exchange, t);
        WantedMore(spans[..k], spans[k], t);
      }
      w := Take(todo, live, last, samples.value, w, exchange);
    }
    assert spans[..|spans|] == spans;
    ok, rows, seen, got, replaced := true, w.rows, w.seen, w.got, w.replaced;
  }

  // ---------------------------------------------------------------- what to fetch

  /** The gaps up to the newest published bar. */
  function Published(gaps: seq<Range>, last: int, n: nat): seq<Range>
    requires n <= |gaps|
  {
    if n == 0 then []
    else
      var g := gaps[n - 1];
      Published(gaps, last, n - 1) + if g.lo <= last then [Range(g.lo, if g.hi < last + 1 then g.hi else last + 1)] else []
  }

  lemma {:induction false} PublishedIsExact(gaps: seq<Range>, last: int, n: nat)
    requires Separated(gaps) && n <= |gaps|
    ensures var out := Published(gaps, last, n);
            && Separated(out) && (out != [] ==> n > 0 && out[|out| - 1].hi <= Hi(gaps, n - 1))
            && forall t :: Wanted(out, t) <==> Wanted(gaps[..n], t) && t <= last
  {
    if n > 0 {
      PublishedIsExact(gaps, last, n - 1);
      var before, g := Published(gaps, last, n - 1), gaps[n - 1];
      var r := Range(g.lo, if g.hi < last + 1 then g.hi else last + 1);
      assert Lo(gaps, n - 1) < Hi(gaps, n - 1) && (n > 1 ==> Hi(gaps, n - 2) < Lo(gaps, n - 1));
      assert gaps[..n] == gaps[..n - 1] + [g] && before + [] == before;
      if g.lo <= last {
        AppendSeparated(before, r);
      }
      forall t ensures Wanted(Published(gaps, last, n), t) <==> Wanted(gaps[..n], t) && t <= last {
        WantedMore(gaps[..n - 1], g, t);
        WantedMore(before, r, t);
      }
    }
  }

  /** The bars the table holds in [lo, hi). */
  function Existing(table: set<int>, lo: int, hi: int): set<int> {
    set t | t in table && lo <= t < hi
  }

  /** A list of one-bar ranges, in any order. */
  method Singles(bars: set<int>) returns (rs: seq<Range>)
    ensures NonEmpty(rs) && forall t :: Wanted(rs, t) <==> t in bars
  {
    rs := [];
    var left := bars;
    while left != {}
      invariant left <= bars && NonEmpty(rs)
      invariant forall t :: Wanted(rs, t) <==> t in bars && t !in left
      decreases |left|
    {
      ghost var some := Pick(left);
      var t :| t in left;
      forall x ensures Wanted(rs + [Range(t, t + 1)], x) <==> Wanted(rs, x) || x == t {
        WantedMore(rs, Range(t, t + 1), x);
      }
      ghost var before := rs;
      rs := rs + [Range(t, t + 1)];
      forall i: nat {:trigger Lo(rs, i)} | i < |rs| ensures Lo(rs, i) < Hi(rs, i) {
        assert i < |before| ==> Lo(before, i) < Hi(before, i);
      }
      left := left - {t};
    }
  }

  /** The missing bars of the published, retained gaps that the table lacks. */
  predicate Missing(gaps: seq<Range>, table: set<int>, oldest: int, last: int, t: int) {
    Wanted(gaps, t) && oldest <= t <= last && t !in table
  }

  /** The rows that may be replaced. */
  function Replaceable(live: set<int>, oldest: int, last: int): set<int> {
    set t | t in live && oldest <= t <= last
  }

  /** In a clipped list every wanted bar lies between its first and its last. */
  lemma {:induction false} WithinEnds(rs: seq<Range>, t: int)
    requires Separated(rs) && Wanted(rs, t)
    ensures rs != [] && rs[0].lo <= t < rs[|rs| - 1].hi
  {
    var r :| r in rs && r.Has(t);
    var i: nat :| i < |rs| && rs[i] == r;
    assert i > 0 ==> Hi(rs, 0) < Lo(rs, i) && Lo(rs, 0) < Hi(rs, 0);
    assert i < |rs| - 1 ==> Hi(rs, i) < Lo(rs, |rs| - 1) < Hi(rs, |rs| - 1);
  }

  /** The bars of the gaps, as a set, so that they can be counted. */
  ghost predicate AreBars(bars: set<int>, gaps: seq<Range>) {
    forall t :: t in bars <==> Wanted(gaps, t)
  }

  /** `kept` is counted, and so is what was taken out of `all` to get it. */
  lemma {:induction false} CountDifference(all: seq<Range>, kept: seq<Range>, bars: set<int>, keptBars: set<int>)
    requires Separated(all) && Separated(kept) && AreBars(bars, all) && AreBars(keptBars, kept)
    requires forall t :: Wanted(kept, t) ==> Wanted(all, t)
    ensures Bars(all, |all|) - Bars(kept, |kept|) == |bars - keptBars|
  {
    CountIs(all, bars);
    CountIs(kept, keptBars);
    forall t ensures t in keptBars + (bars - keptBars) <==> t in bars {
    }
    UnionSize(keptBars, bars - keptBars);
    SameSet(keptBars + (bars - keptBars), bars);
  }

  lemma {:induction false} CountParts(gaps: seq<Range>, table: set<int>, oldest: int, last: int, bars: set<int>,
                                      ranges: seq<Range>, kept: seq<Range>, todo: seq<Range>)
    requires AreBars(bars, gaps) && Separated(ranges) && Separated(kept) && Separated(todo)
    requires forall t :: Wanted(ranges, t) <==> Wanted(gaps, t) && t <= last
    requires Clipped(kept, ranges, oldest)
    requires forall t :: Wanted(todo, t) <==> Missing(gaps, table, oldest, last, t)
    ensures Bars(ranges, |ranges|) - Bars(kept, |kept|) == |set t | t in bars && t <= last && t < oldest|
    ensures Bars(kept, |kept|) - Bars(todo, |todo|) == |set t | t in bars && oldest <= t <= last && t in table|
    ensures Bars(todo, |todo|) == |set t | t in bars && Missing(gaps, table, oldest, last, t)|
  {
    var published, retained := set t | t in bars && t <= last, set t | t in bars && oldest <= t <= last;
    var absent := set t | t in bars && Missing(gaps, table, oldest, last, t);
    CountDifference(ranges, kept, published, retained);
    SameSet(published - retained, set t | t in bars && t <= last && t < oldest);
    CountDifference(kept, todo, retained, absent);
    SameSet(retained - absent, set t | t in bars && oldest <= t <= last && t in table);
    CountIs(todo, absent);
  }

  /**
   What is still missing of a symbol's gaps. The counters count bars: those past the
   retention, those the table already has, and those that are missing.
   */
  method FindMissing(gaps: seq<Range>, table: set<int>, oldest: int, last: int, ghost bars: set<int>)
    returns (todo: seq<Range>, dropped: int, present: int, missing: int)
    requires Separated(gaps) && AreBars(bars, gaps)
    ensures Separated(todo) && forall t :: Wanted(todo, t) <==> Wanted(gaps, t) && oldest <= t <= last && t !in table
    ensures dropped == |set t | t in bars && t <= last && t < oldest|
    ensures present == |set t | t in bars && oldest <= t <= last && t in table|
    ensures missing == |set t | t in bars && oldest <= t <= last && t !in table|
  {
    var ranges := Published(gaps, last, |gaps|);
    PublishedIsExact(gaps, last, |gaps|);
    assert gaps[..|gaps|] == gaps;
    var kept;
    kept, dropped := ClipToRetention(ranges, oldest);
    todo := [];
    if kept != [] {
      todo := SubtractPresent(kept, Existing(table, kept[0].lo, kept[|kept| - 1].hi));
    }
    forall t ensures Wanted(todo, t) <==> Missing(gaps, table, oldest, last, t) {
      if Wanted(kept, t) {
        WithinEnds(kept, t);
      }
    }
    missing := Bars(todo, |todo|);
    present := Bars(ranges, |ranges|) - dropped - missing;
    CountParts(gaps, table, oldest, last, bars, ranges, kept, todo);
    SameSet(set t | t in bars && Missing(gaps, table, oldest, last, t), set t | t in bars && oldest <= t <= last && t !in table);
  }

  /** The requests of a symbol: a page at most each, and every target bar in one of them. */
  method PlanFetch(todo: seq<Range>, live: set<int>) returns (spans: seq<Range>)
    requires Separated(todo)
    ensures Ordered(spans) && Fit(spans, PAGE)
    ensures forall t :: t in live || Wanted(todo, t) ==> Wanted(spans, t)
  {
    var ones := Singles(live);
    var both := todo + ones;
    forall i: nat {:trigger Lo(both, i)} | i < |both| ensures Lo(both, i) < Hi(both, i) {
      if i < |todo| {
        assert Lo(todo, i) < Hi(todo, i);
      } else {
        assert Lo(ones, i - |todo|) < Hi(ones, i - |todo|);
      }
    }
    var asked := MergeRanges(both);
    SeparatedIsOrdered(asked);
    ghost var pieces, opens;
    spans, pieces, opens := PlanSpans(asked, PAGE);
    forall t | Target(todo, live, t) ensures Wanted(spans, t) {
      assert Wanted(todo, t) || Wanted(ones, t);
      var r :| (r in todo || r in ones) && r.Has(t);
      assert r in both;
      assert Wanted(both, t) && Wanted(asked, t);
    }
  }

  /**
   Repairs one symbol. Whatever the fetcher returns, only target bars are written, each
   once and with a sound value. When no request fails and the fetcher honours its span,
   the bars written are exactly the target bars the exchange has a sound value for.
   */
  method Repair(gaps: seq<Range>, live: set<int>, table: set<int>, oldest: int, last: int,
                fetch: Range -> Option<seq<Sample>>, ghost bars: set<int>, ghost exchange: map<int, Reading>)
    returns (ok: bool, rows: seq<Row>, ghost seen: set<int>, missing: int, got: int, replaced: int)
    requires Separated(gaps) && AreBars(bars, gaps)
    ensures Once(rows, seen) && forall i :: 0 <= i < |rows| ==> rows[i].value.Number? && rows[i].value.x >= 0.0
    ensures forall t :: t in seen ==> oldest <= t <= last && (t in live || (Wanted(gaps, t) && t !in table))
    ensures Honest(fetch, exchange) ==> True(rows, exchange)
    ensures Honest(fetch, exchange) && ok ==> forall t :: t in seen <==>
      && t in exchange && exchange[t].Number? && exchange[t].x >= 0.0
      && oldest <= t <= last && (t in live || (Wanted(gaps, t) && t !in table))
    ensures !ok ==> Fails(fetch)
    ensures got == |set t | t in seen && t !in live| && replaced == |set t | t in seen && t in live|
    ensures missing == |set t | t in bars && oldest <= t <= last && t !in table| && got <= missing
  {
    var todo, dropped, present;
    todo, dropped, present, missing := FindMissing(gaps, table, oldest, last, bars);
    var liveSet := Replaceable(live, oldest, last);
    var spans := PlanFetch(todo, liveSet);
    ok, rows, seen, got, replaced := FetchSpans(todo, liveSet, last, spans, fetch, exchange);
    TargetsAre(gaps, live, table, oldest, last, todo, liveSet);
    CountsOfSeen(live, oldest, last, seen);
    GotIsMissing(gaps, table, oldest, last, todo, liveSet, bars, seen);
    assert AllSound(rows);
  }

  /** What is to be repaired: bars in reach that are live, or that are missing. */
  lemma {:induction false} TargetsAre(gaps: seq<Range>, live: set<int>, table: set<int>, oldest: int, last: int, todo: seq<Range>, liveSet: set<int>)
    requires forall t :: Wanted(todo, t) <==> Wanted(gaps, t) && oldest <= t <= last && t !in table
    requires liveSet == Replaceable(live, oldest, last)
    ensures forall t :: Target(todo, liveSet, t) <==> oldest <= t <= last && (t in live || (Wanted(gaps, t) && t !in table))
  {
  }

  lemma {:induction false} CountsOfSeen(live: set<int>, oldest: int, last: int, seen: set<int>)
    requires forall t :: t in seen ==> oldest <= t <= last
    ensures |seen - Replaceable(live, oldest, last)| == |set t | t in seen && t !in live|
    ensures |seen * Replaceable(live, oldest, last)| == |set t | t in seen && t in live|
  {
    SameSet(seen - Replaceable(live, oldest, last), set t | t in seen && t !in live);
    SameSet(seen * Replaceable(live, oldest, last), set t | t in seen && t in live);
  }

  lemma {:induction false} GotIsMissing(gaps: seq<Range>, table: set<int>, oldest: int, last: int,
                                        todo: seq<Range>, live: set<int>, bars: set<int>, seen: set<int>)
    requires AreBars(bars, gaps)
    requires forall t :: Wanted(todo, t) <==> Wanted(gaps, t) && oldest <= t <= last && t !in table
    requires forall t :: t in seen ==> Target(todo, live, t)
    ensures |seen - live| <= |set t | t in bars && oldest <= t <= last && t !in table|
  {
    var missing := set t | t in bars && oldest <= t <= last && t !in table;
    forall t | t in seen - live ensures t in missing {
      assert Target(todo, live, t);
    }
    SubsetSize(seen - live, missing);
  }
}
