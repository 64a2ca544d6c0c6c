/**
 Request spans for missing one-minute bars (plan_requests and kline_weight in
 cmd/test-tools/backfill_missing_1m.py): requests are charged by their size, so
 neighbours share one only if that costs no more weight.
 */
module RequestPlan {
  import opened Options
  import opened Ranges
  import opened SpanPlan

  const MAX_LIMIT := 1500

  /** The weight of one kline request. */
  function KlineWeight(limit: int): int {
    if limit < 100 then 1 else if limit < 500 then 2 else if limit <= 1000 then 5 else 10
  }

  /** Larger requests are never cheaper; the weight rises at 100, 500 and above 1000 bars. */
  lemma {:induction false} WeightRises(a: int, b: int)
    requires a <= b
    ensures 1 <= KlineWeight(a) <= KlineWeight(b) <= 10
    ensures KlineWeight(99) == 1 && KlineWeight(100) == KlineWeight(499) == 2
    ensures KlineWeight(500) == KlineWeight(1000) == 5 && KlineWeight(1001) == 10
  {
  }

  function Weight(r: Range): int {
    KlineWeight(r.hi - r.lo)
  }

  function TotalWeight(rs: seq<Range>, n: nat): int
    requires n <= |rs|
  {
    if n == 0 then 0 else TotalWeight(rs, n - 1) + Weight(rs[n - 1])
  }

  lemma {:induction false} SameWeight(a: seq<Range>, b: seq<Range>, n: nat)
    requires n <= |a| && n <= |b| && a[..n] == b[..n]
    ensures TotalWeight(a, n) == TotalWeight(b, n)
  {
    if n > 0 {
      assert a[..n][n - 1] == b[..n][n - 1];
      assert a[..n - 1] == a[..n][..n - 1] && b[..n - 1] == b[..n][..n - 1];
      SameWeight(a, b, n - 1);
    }
  }

  /** Asking for `span` and `p` together fits a page and costs no more than asking for both. */
  predicate Shares(span: Range, p: Range) {
    p.hi - span.lo <= MAX_LIMIT && KlineWeight(p.hi - span.lo) <= Weight(span) + Weight(p)
  }

  /** One request for both would not fit a page, or would cost more than two. */
  predicate Apart(span: Range, p: Range) {
    var both := p.hi - span.lo;
    both > MAX_LIMIT || KlineWeight(both) > KlineWeight(span.hi - span.lo) + KlineWeight(p.hi - p.lo)
  }

  /** The span begins with a piece that could not share the request before it. */
  ghost predicate Alone(pieces: seq<Range>, spans: seq<Range>, i: nat)
    requires 0 < i < |spans|
  {
    exists p :: p in pieces && p.lo == spans[i].lo && p.hi <= spans[i].hi && Apart(spans[i - 1], p)
  }

  ghost predicate AllAlone(pieces: seq<Range>, spans: seq<Range>) {
    forall i: nat :: 0 < i < |spans| ==> Alone(pieces, spans, i)
  }

  /** What one more piece does to the spans planned so far. */
  function Share(spans: seq<Range>, p: Range): seq<Range> {
    var n := |spans| - 1;
    if n >= 0 && Shares(spans[n], p) then spans[n := Range(spans[n].lo, p.hi)] else spans + [p]
  }

  /** The spans cover the pieces planned so far, a page each, at no more weight. */
  ghost predicate Planned(pieces: seq<Range>, spans: seq<Range>) {
    && Ordered(spans) && Fit(spans, MAX_LIMIT) && Covers(spans, pieces)
    && (pieces == [] <==> spans == [])
    && (pieces != [] ==> spans[|spans| - 1].hi == pieces[|pieces| - 1].hi)
    && TotalWeight(spans, |spans|) <= TotalWeight(pieces, |pieces|)
    && AllAlone(pieces, spans)
  }

  lemma {:induction false} ShareStaysAlone(pieces: seq<Range>, spans: seq<Range>, p: Range)
    requires AllAlone(pieces, spans)
    requires spans != [] ==> spans[|spans| - 1].hi <= p.hi
    ensures AllAlone(pieces + [p], Share(spans, p))
  {
    var out := Share(spans, p);
    forall i: nat | 0 < i < |out| ensures Alone(pieces + [p], out, i) {
      if i < |spans| {
        assert Alone(pieces, spans, i);
        var q :| q in pieces && q.lo == spans[i].lo && q.hi <= spans[i].hi && Apart(spans[i - 1], q);
        assert q in pieces + [p];
      } else {
        assert (pieces + [p])[|pieces|] == p;
      }
    }
  }

  lemma {:induction false} ShareKeeps(pieces: seq<Range>, spans: seq<Range>, p: Range)
    requires Planned(pieces, spans) && p.lo < p.hi <= p.lo + MAX_LIMIT
    requires pieces != [] ==> pieces[|pieces| - 1].hi <= p.lo
    ensures Planned(pieces + [p], Share(spans, p))
  {
    var n, out := |spans| - 1, Share(spans, p);
    SameWeight(pieces + [p], pieces, |pieces|);
    ShareStaysAlone(pieces, spans, p);
    if out == spans + [p] {
      AppendOrdered(spans, p);
      AppendFit(spans, p, MAX_LIMIT);
      SameWeight(spans + [p], spans, |spans|);
      forall t | Wanted(pieces + [p], t) ensures Wanted(out, t) {
        WantedMore(pieces, p, t);
        WantedMore(spans, p, t);
      }
    } else {
      var wide := Range(spans[n].lo, p.hi);
      assert spans == spans[..n] + [spans[n]] && out == spans[..n] + [wide];
      assert Lo(spans, n) < Hi(spans, n) && (n > 0 ==> Hi(spans, n - 1) <= Lo(spans, n));
      FrontOrdered(spans, n, MAX_LIMIT);
      AppendOrdered(spans[..n], wide);
      AppendFit(spans[..n], wide, MAX_LIMIT);
      SameWeight(out, spans, n);
      forall t | Wanted(pieces + [p], t) ensures Wanted(out, t) {
        WantedMore(pieces, p, t);
        WantedMore(spans[..n], spans[n], t);
        WantedMore(spans[..n], wide, t);
      }
    }
  }

  /** The request spans of a symbol: all missing bars, a page at most each, and never dearer than the pieces. */
  method PlanRequests(missing: seq<Range>) returns (spans: seq<Range>, ghost pieces: seq<Range>)
    requires Ordered(missing)
    ensures Ordered(spans) && Fit(spans, MAX_LIMIT) && Covers(spans, missing)
    ensures Ordered(pieces) && Fit(pieces, MAX_LIMIT) && Same(pieces, missing)
    ensures TotalWeight(spans, |spans|) <= TotalWeight(pieces, |pieces|) && AllAlone(pieces, spans)
  {
    var cut := CutPages(missing, MAX_LIMIT);
    pieces := cut;
    spans := [];
    for k := 0 to |cut|
      invariant Planned(cut[..k], spans)
    {
      var p, n := cut[k], |spans| - 1;
      assert Lo(cut, k) < Hi(cut, k) && (k > 0 ==> Hi(cut, k - 1) <= Lo(cut, k));
      ShareKeeps(cut[..k], spans, p);
      assert cut[..k + 1] == cut[..k] + [p];
      if n >= 0 && Shares(spans[n], p) {
        spans := spans[n := Range(spans[n].lo, p.hi)];
        continue;
      }
      spans := spans + [p];
    }
    assert cut[..|cut|] == cut;
  }
}
