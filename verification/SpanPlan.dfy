/**
 Request spans for missing bars (plan_spans in cmd/test-tools/backfill_missing_oi.py):
 ranges are cut into pages, and neighbours share a request while they fit one page.
 */
module SpanPlan {
  import opened Options
  import opened Ranges

  /** In ascending order, no bar twice; neighbours may touch. */
  ghost predicate Ordered(rs: seq<Range>) {
    NonEmpty(rs) && forall i: nat, j: nat {:trigger Hi(rs, i), Lo(rs, j)} :: i < j < |rs| ==> Hi(rs, i) <= Lo(rs, j)
  }

  ghost predicate Fit(rs: seq<Range>, maxBars: int) {
    forall i: nat {:trigger Lo(rs, i)} :: i < |rs| ==> Hi(rs, i) - Lo(rs, i) <= maxBars
  }

  lemma {:induction false} SeparatedIsOrdered(rs: seq<Range>)
    requires Separated(rs)
    ensures Ordered(rs)
  {
  }

  lemma {:induction false} AppendOrdered(rs: seq<Range>, r: Range)
    requires Ordered(rs) && r.lo < r.hi && (rs != [] ==> rs[|rs| - 1].hi <= r.lo)
    ensures Ordered(rs + [r])
  {
    var out := rs + [r];
    forall i: nat {:trigger Lo(out, i)} | i < |out| ensures Lo(out, i) < Hi(out, i) {
      assert i < |rs| ==> Lo(rs, i) < Hi(rs, i);
    }
    forall i: nat, j: nat {:trigger Hi(out, i), Lo(out, j)} | i < j < |out| ensures Hi(out, i) <= Lo(out, j) {
      var k := if j < |rs| then j else |rs| - 1;
      assert i < k ==> Hi(rs, i) <= Lo(rs, k) < Hi(rs, k);
    }
  }

  lemma {:induction false} AppendFit(rs: seq<Range>, r: Range, maxBars: int)
    requires Fit(rs, maxBars) && r.hi - r.lo <= maxBars
    ensures Fit(rs + [r], maxBars)
  {
    var out := rs + [r];
    forall i: nat {:trigger Lo(out, i)} | i < |out| ensures Hi(out, i) - Lo(out, i) <= maxBars {
      assert i < |rs| ==> Hi(rs, i) - Lo(rs, i) <= maxBars;
    }
  }

  // ---------------------------------------------------------------- pages

  /** A piece lies in one range; it begins with the range or right after a whole page of it. */
  ghost predicate CutAt(pieces: seq<Range>, ranges: seq<Range>, maxBars: int, k: nat)
    requires k < |pieces|
  {
    exists r :: r in ranges && r.lo <= pieces[k].lo && pieces[k].hi <= r.hi
      && (pieces[k].lo == r.lo || (k > 0 && pieces[k - 1] == Range(pieces[k].lo - maxBars, pieces[k].lo) && r.lo <= pieces[k - 1].lo))
  }

  ghost predicate CutFrom(pieces: seq<Range>, ranges: seq<Range>, maxBars: int) {
    forall k: nat :: k < |pieces| ==> CutAt(pieces, ranges, maxBars, k)
  }

  lemma {:induction false} AppendCut(pieces: seq<Range>, p: Range, ranges: seq<Range>, more: seq<Range>, r: Range, maxBars: int)
    requires CutFrom(pieces, ranges, maxBars) && (forall x :: x in ranges ==> x in more)
    requires r in more && r.lo <= p.lo && p.hi <= r.hi
    requires p.lo == r.lo || (pieces != [] && pieces[|pieces| - 1] == Range(p.lo - maxBars, p.lo) && r.lo <= p.lo - maxBars)
    ensures CutFrom(pieces + [p], more, maxBars)
  {
    forall k: nat | k < |pieces + [p]| ensures CutAt(pieces + [p], more, maxBars, k) {
      assert k < |pieces| ==> CutAt(pieces, ranges, maxBars, k);
    }
  }

  /** The pieces cut so far, with the rest [a, r.hi) of `r` still to cut. */
  ghost predicate Cut(pieces: seq<Range>, done: seq<Range>, r: Range, a: int, maxBars: int) {
    && Ordered(pieces) && Fit(pieces, maxBars) && (pieces != [] ==> pieces[|pieces| - 1].hi <= a)
    && Same(pieces + [Range(a, r.hi)], done + [r])
    && r.lo <= a && CutFrom(pieces, done + [r], maxBars)
    && (a == r.lo || (pieces != [] && pieces[|pieces| - 1] == Range(a - maxBars, a) && r.lo <= a - maxBars))
  }

  lemma {:induction false} CutPage(pieces: seq<Range>, done: seq<Range>, r: Range, a: int, maxBars: int)
    requires Cut(pieces, done, r, a, maxBars) && 0 < maxBars < r.hi - a
    ensures Cut(pieces + [Range(a, a + maxBars)], done, r, a + maxBars, maxBars)
  {
    var page := Range(a, a + maxBars);
    AppendOrdered(pieces, page);
    AppendFit(pieces, page, maxBars);
    AppendCut(pieces, page, done + [r], done + [r], r, maxBars);
    forall t ensures Wanted(pieces + [page] + [Range(a + maxBars, r.hi)], t) <==> Wanted(done + [r], t) {
      WantedMore(pieces, page, t);
      WantedMore(pieces + [page], Range(a + maxBars, r.hi), t);
      WantedMore(pieces, Range(a, r.hi), t);
    }
  }

  lemma {:induction false} CutBegins(pieces: seq<Range>, done: seq<Range>, r: Range, maxBars: int)
    requires Ordered(pieces) && Fit(pieces, maxBars) && Same(pieces, done) && CutFrom(pieces, done, maxBars)
    requires pieces != [] ==> pieces[|pieces| - 1].hi <= r.lo
    ensures Cut(pieces, done, r, r.lo, maxBars)
  {
    forall t ensures Wanted(pieces + [r], t) <==> Wanted(done + [r], t) {
      WantedMore(pieces, r, t);
      WantedMore(done, r, t);
    }
    forall k: nat | k < |pieces| ensures CutAt(pieces, done + [r], maxBars, k) {
      assert CutAt(pieces, done, maxBars, k);
    }
  }

  /** Cuts every range into pages of at most `maxBars` bars. */
  method CutPages(ranges: seq<Range>, maxBars: int) returns (pieces: seq<Range>)
    requires Ordered(ranges) && maxBars > 0
    ensures Ordered(pieces) && Fit(pieces, maxBars) && Same(pieces, ranges) && CutFrom(pieces, ranges, maxBars)
  {
    pieces := [];
    for i := 0 to |ranges|
      invariant Ordered(pieces) && Fit(pieces, maxBars) && Same(pieces, ranges[..i]) && CutFrom(pieces, ranges[..i], maxBars)
      invariant pieces != [] ==> i > 0 && pieces[|pieces| - 1].hi <= Hi(ranges, i - 1)
    {
      var r, a := ranges[i], ranges[i].lo;
      assert Lo(ranges, i) < Hi(ranges, i) && (i > 0 ==> Hi(ranges, i - 1) <= Lo(ranges, i));
      CutBegins(pieces, ranges[..i], r, maxBars);
      while r.hi - a > maxBars
        invariant a < r.hi && Cut(pieces, ranges[..i], r, a, maxBars)
      {
        CutPage(pieces, ranges[..i], r, a, maxBars);
        pieces := pieces + [Range(a, a + maxBars)];
        a := a + maxBars;
      }
      AppendOrdered(pieces, Range(a, r.hi));
      AppendFit(pieces, Range(a, r.hi), maxBars);
      AppendCut(pieces, Range(a, r.hi), ranges[..i] + [r], ranges[..i] + [r], r, maxBars);
      pieces := pieces + [Range(a, r.hi)];
      assert ranges[..i + 1] == ranges[..i] + [r];
    }
    assert ranges[..|ranges|] == ranges;
  }

  // ---------------------------------------------------------------- groups of pieces

  /** A division of pieces into consecutive groups: `opens[k]` when piece `k` begins one. */
  predicate Grouping(pieces: seq<Range>, opens: seq<bool>) {
    |opens| == |pieces| && (opens != [] ==> opens[0])
  }

  function Groups(opens: seq<bool>, n: nat): nat
    requires n <= |opens|
  {
    if n == 0 then 0 else Groups(opens, n - 1) + if opens[n - 1] then 1 else 0
  }

  /** The piece that begins the group of the last of the first `n` pieces. */
  function Opener(opens: seq<bool>, n: nat): (k: nat)
    requires 0 < n <= |opens| && opens[0]
    ensures k < n && opens[k]
  {
    if opens[n - 1] then n - 1 else Opener(opens, n - 1)
  }

  /** Every group spans at most one page. */
  ghost predicate OnePageEach(pieces: seq<Range>, opens: seq<bool>, maxBars: int)
    requires Grouping(pieces, opens)
  {
    forall k: nat {:trigger Hi(pieces, k)} :: k < |pieces| ==> Hi(pieces, k) - pieces[Opener(opens, k + 1)].lo <= maxBars
  }

  /** A new group begins only when the piece does not fit the page of the current one. */
  ghost predicate Greedy(pieces: seq<Range>, opens: seq<bool>, maxBars: int)
    requires Grouping(pieces, opens)
  {
    forall k: nat {:trigger Hi(pieces, k)} :: 0 < k < |pieces| && opens[k] ==> Hi(pieces, k) - pieces[Opener(opens, k)].lo > maxBars
  }

  /** Greedy stays ahead: never more groups, and on equal terms the later current group. */
  lemma {:induction false} StaysAhead(pieces: seq<Range>, opens: seq<bool>, other: seq<bool>, maxBars: int, n: nat)
    requires Ordered(pieces) && Grouping(pieces, opens) && Grouping(pieces, other)
    requires Greedy(pieces, opens, maxBars) && OnePageEach(pieces, other, maxBars)
    requires 0 < n <= |pieces|
    ensures Groups(opens, n) <= Groups(other, n)
    ensures Groups(opens, n) == Groups(other, n) ==> Opener(other, n) <= Opener(opens, n)
  {
    if n > 1 {
      StaysAhead(pieces, opens, other, maxBars, n - 1);
      var mine, theirs := Opener(opens, n - 1), Opener(other, n - 1);
      assert theirs < mine ==> Lo(pieces, theirs) < Hi(pieces, theirs) <= Lo(pieces, mine);
      assert Hi(pieces, n - 1) == pieces[n - 1].hi;
    } else {
      assert Groups(opens, 0) == Groups(other, 0) == 0;
    }
  }

  /** No division of the pieces into consecutive one-page groups has fewer groups than the greedy one. */
  lemma {:induction false} GreedyIsOptimal(pieces: seq<Range>, opens: seq<bool>, other: seq<bool>, maxBars: int)
    requires Ordered(pieces) && Grouping(pieces, opens) && Grouping(pieces, other)
    requires Greedy(pieces, opens, maxBars) && OnePageEach(pieces, other, maxBars)
    ensures Groups(opens, |pieces|) <= Groups(other, |pieces|)
  {
    if pieces != [] {
      StaysAhead(pieces, opens, other, maxBars, |pieces|);
    }
  }

  // ---------------------------------------------------------------- spans

  /** The spans of the first `n` pieces: one per group, from its first bar to its last. */
  function SpansOf(pieces: seq<Range>, opens: seq<bool>, n: nat): (spans: seq<Range>)
    requires Grouping(pieces, opens) && n <= |pieces|
    ensures |spans| == Groups(opens, n)
    ensures n > 0 ==> spans != [] && spans[|spans| - 1] == Range(pieces[Opener(opens, n)].lo, pieces[n - 1].hi)
  {
    if n == 0 then []
    else
      var before := SpansOf(pieces, opens, n - 1);
      if opens[n - 1] then before + [pieces[n - 1]]
      else before[|before| - 1 := Range(before[|before| - 1].lo, pieces[n - 1].hi)]
  }

  /** The greedy division of the pieces, and its spans. */
  ghost predicate Divided(pieces: seq<Range>, opens: seq<bool>, spans: seq<Range>, maxBars: int) {
    && Grouping(pieces, opens) && spans == SpansOf(pieces, opens, |pieces|)
    && Greedy(pieces, opens, maxBars) && OnePageEach(pieces, opens, maxBars)
  }

  /** The piece fits the page of the last span. */
  predicate Joins(spans: seq<Range>, p: Range, maxBars: int) {
    spans != [] && p.hi - spans[|spans| - 1].lo <= maxBars
  }

  lemma {:induction false} DivideOne(pieces: seq<Range>, opens: seq<bool>, spans: seq<Range>, p: Range, maxBars: int)
    requires Divided(pieces, opens, spans, maxBars) && p.hi - p.lo <= maxBars
    ensures var n := |spans| - 1;
            Divided(pieces + [p], opens + [!Joins(spans, p, maxBars)],
                    if Joins(spans, p, maxBars) then spans[n := Range(spans[n].lo, p.hi)] else spans + [p], maxBars)
  {
    AddPiece(pieces, p, opens, !Joins(spans, p, maxBars), maxBars);
  }

  /** The plan of one symbol. */
  method GroupPieces(pieces: seq<Range>, maxBars: int) returns (spans: seq<Range>, ghost opens: seq<bool>)
    requires Ordered(pieces) && Fit(pieces, maxBars)
    ensures Divided(pieces, opens, spans, maxBars)
  {
    spans, opens := [], [];
    for k := 0 to |pieces|
      invariant Divided(pieces[..k], opens, spans, maxBars)
    {
      var p, n := pieces[k], |spans| - 1;
      assert Lo(pieces, k) < Hi(pieces, k);
      DivideOne(pieces[..k], opens, spans, p, maxBars);
      assert pieces[..k + 1] == pieces[..k] + [p];
      opens := opens + [!Joins(spans, p, maxBars)];
      if n >= 0 && p.hi - spans[n].lo <= maxBars {
        spans := spans[n := Range(spans[n].lo, p.hi)];
      } else {
        spans := spans + [p];
      }
    }
    assert pieces[..|pieces|] == pieces;
  }

  lemma {:induction false} SamePrefix(pieces: seq<Range>, p: Range, opens: seq<bool>, open: bool, n: nat)
    requires Grouping(pieces, opens) && n <= |pieces| && (pieces == [] ==> open)
    ensures Groups(opens + [open], n) == Groups(opens, n)
    ensures n > 0 ==> Opener(opens + [open], n) == Opener(opens, n)
    ensures SpansOf(pieces + [p], opens + [open], n) == SpansOf(pieces, opens, n)
  {
    if n > 0 {
      SamePrefix(pieces, p, opens, open, n - 1);
    }
  }

  lemma {:induction false} AddPiece(pieces: seq<Range>, p: Range, opens: seq<bool>, open: bool, maxBars: int)
    requires Grouping(pieces, opens) && Greedy(pieces, opens, maxBars) && OnePageEach(pieces, opens, maxBars)
    requires p.hi - p.lo <= maxBars
    requires open <==> pieces == [] || p.hi - pieces[Opener(opens, |pieces|)].lo > maxBars
    ensures Grouping(pieces + [p], opens + [open])
    ensures Greedy(pieces + [p], opens + [open], maxBars) && OnePageEach(pieces + [p], opens + [open], maxBars)
    ensures SpansOf(pieces, opens, |pieces|) == SpansOf(pieces + [p], opens + [open], |pieces|)
  {
    var ps, os := pieces + [p], opens + [open];
    SamePrefix(pieces, p, opens, open, |pieces|);
    forall k: nat {:trigger Hi(ps, k)} | k < |ps|
      ensures Hi(ps, k) - ps[Opener(os, k + 1)].lo <= maxBars
      ensures k > 0 && os[k] ==> Hi(ps, k) - ps[Opener(os, k)].lo > maxBars
    {
      SamePrefix(pieces, p, opens, open, k);
      if k < |pieces| {
        SamePrefix(pieces, p, opens, open, k + 1);
        assert Hi(pieces, k) == Hi(ps, k);
      }
    }
  }

  lemma {:induction false} FrontOrdered(rs: seq<Range>, n: nat, maxBars: int)
    requires Ordered(rs) && Fit(rs, maxBars) && n <= |rs|
    ensures Ordered(rs[..n]) && Fit(rs[..n], maxBars)
  {
    var out := rs[..n];
    forall i: nat {:trigger Lo(out, i)} | i < n ensures Lo(out, i) < Hi(out, i) && Hi(out, i) - Lo(out, i) <= maxBars {
      assert Lo(rs, i) < Hi(rs, i);
    }
    forall i: nat, j: nat {:trigger Hi(out, i), Lo(out, j)} | i < j < n ensures Hi(out, i) <= Lo(out, j) {
      assert Hi(rs, i) <= Lo(rs, j);
    }
  }

  /** Every span is a page at most, and no two of them share a bar. */
  lemma {:induction false} SpansAreOrdered(pieces: seq<Range>, opens: seq<bool>, maxBars: int, n: nat)
    requires Ordered(pieces) && Grouping(pieces, opens) && OnePageEach(pieces, opens, maxBars) && n <= |pieces|
    ensures Ordered(SpansOf(pieces, opens, n)) && Fit(SpansOf(pieces, opens, n), maxBars)
  {
    if n > 0 {
      SpansAreOrdered(pieces, opens, maxBars, n - 1);
      var before, p := SpansOf(pieces, opens, n - 1), pieces[n - 1];
      var m := |before| - 1;
      assert Lo(pieces, n - 1) < Hi(pieces, n - 1) && (n > 1 ==> Hi(pieces, n - 2) <= Lo(pieces, n - 1));
      if opens[n - 1] {
        AppendOrdered(before, p);
        AppendFit(before, p, maxBars);
      } else {
        var wide := Range(before[m].lo, p.hi);
        assert Lo(before, m) < Hi(before, m) && (m > 0 ==> Hi(before, m - 1) <= Lo(before, m));
        FrontOrdered(before, m, maxBars);
        AppendOrdered(before[..m], wide);
        AppendFit(before[..m], wide, maxBars);
        assert before[m := wide] == before[..m] + [wide];
      }
    }
  }

  /** Every piece lies inside one span. */
  lemma {:induction false} SpanOfPiece(pieces: seq<Range>, opens: seq<bool>, n: nat, k: nat) returns (i: nat)
    requires Ordered(pieces) && Grouping(pieces, opens) && k < n <= |pieces|
    ensures i < Groups(opens, n)
    ensures SpansOf(pieces, opens, n)[i].lo <= pieces[k].lo && pieces[k].hi <= SpansOf(pieces, opens, n)[i].hi
  {
    assert Lo(pieces, k) < Hi(pieces, k);
    assert k < n - 1 ==> Hi(pieces, k) <= Lo(pieces, n - 1) < Hi(pieces, n - 1);
    if k < n - 1 {
      i := SpanOfPiece(pieces, opens, n - 1, k);
    } else {
      var o := Opener(opens, n);
      assert Lo(pieces, o) < Hi(pieces, o) && (o < k ==> Hi(pieces, o) <= Lo(pieces, k));
      i := |SpansOf(pieces, opens, n)| - 1;
    }
  }

  /** The piece does not fit the page at `x`; the piece before it does, and does not begin earlier. */
  predicate Opens(pieces: seq<Range>, maxBars: int, k: nat, x: int) {
    0 < k < |pieces| && pieces[k].hi - x > maxBars && pieces[k - 1].hi - x <= maxBars && x <= pieces[k - 1].lo
  }

  lemma {:induction false} OpensAfter(pieces: seq<Range>, opens: seq<bool>, maxBars: int, k: nat)
    requires Ordered(pieces) && Grouping(pieces, opens) && Greedy(pieces, opens, maxBars) && OnePageEach(pieces, opens, maxBars)
    requires 0 < k < |pieces| && opens[k]
    ensures Opens(pieces, maxBars, k, pieces[Opener(opens, k)].lo)
  {
    var o := Opener(opens, k);
    assert Hi(pieces, k) - pieces[o].lo > maxBars && Hi(pieces, k - 1) - pieces[o].lo <= maxBars;
    assert o < k - 1 ==> Lo(pieces, o) < Hi(pieces, o) <= Lo(pieces, k - 1);
  }

  /** Every span begins with the piece that opened its group, which did not fit the span before. */
  lemma {:induction false} SpanBegins(pieces: seq<Range>, opens: seq<bool>, maxBars: int, n: nat, i: nat) returns (k: nat)
    requires Ordered(pieces) && Grouping(pieces, opens) && Greedy(pieces, opens, maxBars) && OnePageEach(pieces, opens, maxBars)
    requires n <= |pieces| && i < Groups(opens, n)
    ensures k < n && SpansOf(pieces, opens, n)[i].lo == pieces[k].lo && pieces[k].hi <= SpansOf(pieces, opens, n)[i].hi
    ensures i > 0 ==> Opens(pieces, maxBars, k, SpansOf(pieces, opens, n)[i - 1].lo)
  {
    assert n > 1 ==> Hi(pieces, n - 2) <= Lo(pieces, n - 1) < Hi(pieces, n - 1);
    if opens[n - 1] && i == Groups(opens, n) - 1 {
      k := n - 1;
      assert Groups(opens, 0) == 0;
      if i > 0 {
        OpensAfter(pieces, opens, maxBars, k);
      }
    } else {
      k := SpanBegins(pieces, opens, maxBars, n - 1, i);
    }
  }

  // ---------------------------------------------------------------- where the spans begin

  /** The first missing bar at or after `x` among the first `n` ranges. */
  function NextBar(missing: seq<Range>, x: int, n: nat): (t: Option<int>)
    requires n <= |missing|
  {
    if n == 0 then None
    else
      var t := NextBar(missing, x, n - 1);
      if t.Some? || missing[n - 1].hi <= x then t else Some(Max(missing[n - 1].lo, x))
  }

  lemma {:induction false} NextBarIsFirst(missing: seq<Range>, x: int, n: nat, t: int)
    requires Ordered(missing) && n <= |missing|
    ensures var next := NextBar(missing, x, n);
            && (next.Some? ==> x <= next.value && Wanted(missing[..n], next.value) && next.value < Hi(missing, n - 1))
            && (Wanted(missing[..n], t) && t >= x ==> next.Some? && next.value <= t)
  {
    if n > 0 {
      NextBarIsFirst(missing, x, n - 1, t);
      var next, r := NextBar(missing, x, n), missing[n - 1];
      assert missing[..n] == missing[..n - 1] + [r];
      assert Lo(missing, n - 1) < Hi(missing, n - 1) && (n > 1 ==> Hi(missing, n - 2) <= Lo(missing, n - 1));
      WantedMore(missing[..n - 1], r, t);
      if next.Some? {
        WantedMore(missing[..n - 1], r, next.value);
      }
    }
  }

  /** Where the range begins that lies across `b` and begins after `x`. */
  function Across(missing: seq<Range>, x: int, b: int, n: nat): (t: Option<int>)
    requires n <= |missing|
    ensures t.Some? ==> x < t.value < b
  {
    if n == 0 then None
    else if x < missing[n - 1].lo < b < missing[n - 1].hi then Some(missing[n - 1].lo)
    else Across(missing, x, b, n - 1)
  }

  lemma {:induction false} AcrossIs(missing: seq<Range>, x: int, b: int, n: nat, r: Range)
    requires Ordered(missing) && n <= |missing| && r in missing[..n]
    ensures x < r.lo < b < r.hi ==> Across(missing, x, b, n) == Some(r.lo)
  {
    var i: nat :| i < n && missing[i] == r;
    if i < n - 1 {
      assert Hi(missing, i) <= Lo(missing, n - 1);
      assert missing[..n - 1][i] == r;
      AcrossIs(missing, x, b, n - 1, r);
    }
  }

  lemma {:induction false} AcrossHas(missing: seq<Range>, x: int, b: int, n: nat) returns (r: Range)
    requires n <= |missing| && Across(missing, x, b, n).Some?
    ensures r in missing && r.lo == Across(missing, x, b, n).value && x < r.lo < b < r.hi
  {
    r := missing[n - 1];
    if !(x < r.lo < b < r.hi) {
      r := AcrossHas(missing, x, b, n - 1);
    }
  }

  /**
   Where the request after the one at `x` begins, read off the missing bars: with the range
   that lies across the end of the page, else with the first bar past that end.
   */
  function NextStart(missing: seq<Range>, x: int, maxBars: int): Option<int> {
    var t := Across(missing, x, x + maxBars, |missing|);
    if t.Some? then t else NextBar(missing, x + maxBars, |missing|)
  }

  /** The beginnings of all requests from the one at `x` on. */
  function Starts(missing: seq<Range>, x: int, maxBars: int): (starts: seq<int>)
    requires missing != []
    ensures starts != [] && starts[0] == x
    decreases Max(missing[|missing| - 1].hi - x, 0)
  {
    var t := NextStart(missing, x, maxBars);
    if t.Some? && x < t.value < missing[|missing| - 1].hi then [x] + Starts(missing, t.value, maxBars) else [x]
  }

  lemma {:induction false} PieceAt(pieces: seq<Range>, t: int) returns (j: nat)
    requires Wanted(pieces, t)
    ensures j < |pieces| && pieces[j].Has(t)
  {
    var r :| r in pieces && r.Has(t);
    j :| j < |pieces| && pieces[j] == r;
  }

  /** A bar past the page at `x` lies in the piece that did not fit it, or later. */
  lemma {:induction false} PastThePage(pieces: seq<Range>, maxBars: int, k: nat, x: int, t: int)
    requires Ordered(pieces) && Opens(pieces, maxBars, k, x) && Wanted(pieces, t) && t >= x + maxBars
    ensures pieces[k].lo <= t && (t < pieces[k].hi || pieces[k].hi <= t)
  {
    var j := PieceAt(pieces, t);
    assert j < k - 1 ==> Hi(pieces, j) <= Lo(pieces, k - 1) < Hi(pieces, k - 1);
    assert j > k ==> Lo(pieces, k) < Hi(pieces, k) <= Lo(pieces, j);
  }

  /** The piece that does not fit the page at `x` begins where the missing bars say. */
  lemma {:induction false} OpensAtNext(missing: seq<Range>, pieces: seq<Range>, maxBars: int, k: nat, x: int)
    requires Ordered(missing) && Ordered(pieces) && Same(pieces, missing) && CutFrom(pieces, missing, maxBars)
    requires Opens(pieces, maxBars, k, x) && maxBars > 0
    ensures NextStart(missing, x, maxBars) == Some(pieces[k].lo)
  {
    var p, b := pieces[k], x + maxBars;
    assert CutAt(pieces, missing, maxBars, k) && Hi(pieces, k - 1) <= Lo(pieces, k) && Lo(pieces, k - 1) < Hi(pieces, k - 1);
    assert missing[..|missing|] == missing && Lo(pieces, k) < Hi(pieces, k);
    var r :| r in missing && r.lo <= p.lo && p.hi <= r.hi
      && (p.lo == r.lo || (pieces[k - 1] == Range(p.lo - maxBars, p.lo) && r.lo <= pieces[k - 1].lo));
    if p.lo < b {
      AcrossIs(missing, x, b, |missing|, r);
    } else {
      OpensPast(missing, pieces, maxBars, k, x, r);
    }
  }

  lemma {:induction false} OpensPast(missing: seq<Range>, pieces: seq<Range>, maxBars: int, k: nat, x: int, r: Range)
    requires Ordered(missing) && Ordered(pieces) && Same(pieces, missing)
    requires Opens(pieces, maxBars, k, x) && maxBars > 0 && pieces[k].lo >= x + maxBars
    requires r in missing && r.lo <= pieces[k].lo && pieces[k].hi <= r.hi
    requires pieces[k].lo == r.lo || (pieces[k - 1] == Range(pieces[k].lo - maxBars, pieces[k].lo) && r.lo <= pieces[k - 1].lo)
    ensures NextStart(missing, x, maxBars) == Some(pieces[k].lo)
  {
    var p, b := pieces[k], x + maxBars;
    assert Lo(pieces, k) < Hi(pieces, k) && missing[..|missing|] == missing;
    if Across(missing, x, b, |missing|).Some? {
      var q := AcrossHas(missing, x, b, |missing|);
      WantedIn(missing, q, b);
      PastThePage(pieces, maxBars, k, x, b);
      assert p.lo == b;
      OneRange(missing, q, r, b);
      assert false;
    }
    WantedAt(pieces, k, p.lo);
    NextBarIsFirst(missing, b, |missing|, p.lo);
    var next := NextBar(missing, b, |missing|);
    PastThePage(pieces, maxBars, k, x, next.value);
  }

  lemma {:induction false} WantedIn(rs: seq<Range>, r: Range, t: int)
    requires r in rs && r.Has(t)
    ensures Wanted(rs, t)
  {
  }

  lemma {:induction false} OneRange(rs: seq<Range>, a: Range, b: Range, t: int)
    requires Ordered(rs) && a in rs && b in rs && a.Has(t) && b.Has(t)
    ensures a == b
  {
    var i: nat :| i < |rs| && rs[i] == a;
    var j: nat :| j < |rs| && rs[j] == b;
    assert i < j ==> Hi(rs, i) <= Lo(rs, j);
    assert j < i ==> Hi(rs, j) <= Lo(rs, i);
  }

  // ---------------------------------------------------------------- the plan

  /** Every bar that is missing lies in a span. */
  ghost predicate Covers(spans: seq<Range>, missing: seq<Range>) {
    forall t :: Wanted(missing, t) ==> Wanted(spans, t)
  }

  /** The span begins at a missing bar and holds one that does not fit the page of the span before it. */
  ghost predicate Needed(missing: seq<Range>, spans: seq<Range>, i: nat, maxBars: int)
    requires i < |spans|
  {
    && Wanted(missing, spans[i].lo)
    && (i > 0 ==> exists t :: Wanted(missing, t) && spans[i].Has(t) && t - spans[i - 1].lo >= maxBars)
  }

  ghost predicate NoneIdle(missing: seq<Range>, spans: seq<Range>, maxBars: int) {
    forall i: nat :: i < |spans| ==> Needed(missing, spans, i, maxBars)
  }

  /** A plan: disjoint spans of a page at most that hold every missing bar, none of them idle. */
  ghost predicate Plan(missing: seq<Range>, spans: seq<Range>, maxBars: int) {
    Ordered(spans) && Fit(spans, maxBars) && Covers(spans, missing) && NoneIdle(missing, spans, maxBars)
  }

  /**
   The request spans of a symbol's missing bars. No division of the pieces into
   consecutive one-page groups has fewer, and they begin where the missing bars say.
   */
  method PlanSpans(missing: seq<Range>, maxBars: int) returns (spans: seq<Range>, ghost pieces: seq<Range>, ghost opens: seq<bool>)
    requires Ordered(missing) && maxBars > 0
    ensures Plan(missing, spans, maxBars)
    ensures missing != [] ==> Begins(spans, 0) == Starts(missing, missing[0].lo, maxBars)
    ensures Ordered(pieces) && Fit(pieces, maxBars) && Same(pieces, missing)
    ensures Grouping(pieces, opens) && Greedy(pieces, opens, maxBars) && OnePageEach(pieces, opens, maxBars)
    ensures |spans| == Groups(opens, |pieces|)
    ensures forall other: seq<bool> :: Grouping(pieces, other) && OnePageEach(pieces, other, maxBars) ==>
      |spans| <= Groups(other, |pieces|)
  {
    var cut := CutPages(missing, maxBars);
    pieces := cut;
    spans, opens := GroupPieces(cut, maxBars);
    SpansAreOrdered(pieces, opens, maxBars, |pieces|);
    PlanIsSound(missing, pieces, opens, spans, maxBars);
    if missing != [] {
      FirstBegins(missing, spans, maxBars);
      BeginsAre(missing, pieces, opens, spans, maxBars, 0);
    }
    forall other: seq<bool> | Grouping(pieces, other) && OnePageEach(pieces, other, maxBars)
      ensures |spans| <= Groups(other, |pieces|)
    {
      GreedyIsOptimal(pieces, opens, other, maxBars);
    }
  }

  lemma {:induction false} PlanIsSound(missing: seq<Range>, pieces: seq<Range>, opens: seq<bool>, spans: seq<Range>, maxBars: int)
    requires Ordered(pieces) && Grouping(pieces, opens) && Greedy(pieces, opens, maxBars) && Same(pieces, missing)
    requires OnePageEach(pieces, opens, maxBars) && spans == SpansOf(pieces, opens, |pieces|)
    ensures Covers(spans, missing) && NoneIdle(missing, spans, maxBars)
  {
    forall t | Wanted(missing, t) ensures Wanted(spans, t) {
      assert Wanted(pieces, t);
      var r :| r in pieces && r.Has(t);
      var k: nat :| k < |pieces| && pieces[k] == r;
      var i := SpanOfPiece(pieces, opens, |pieces|, k);
      WantedAt(spans, i, t);
    }
    forall i: nat | i < |spans| ensures Needed(missing, spans, i, maxBars) {
      SpanIsNeeded(missing, pieces, opens, spans, i, maxBars);
    }
  }

  lemma {:induction false} SpanIsNeeded(missing: seq<Range>, pieces: seq<Range>, opens: seq<bool>, spans: seq<Range>, i: nat, maxBars: int)
    requires Ordered(pieces) && Grouping(pieces, opens) && Greedy(pieces, opens, maxBars) && Same(pieces, missing)
    requires OnePageEach(pieces, opens, maxBars) && spans == SpansOf(pieces, opens, |pieces|) && i < |spans|
    ensures Needed(missing, spans, i, maxBars)
  {
    var k := SpanBegins(pieces, opens, maxBars, |pieces|, i);
    assert Lo(pieces, k) < Hi(pieces, k);
    WantedAt(pieces, k, pieces[k].lo);
    WantedAt(pieces, k, pieces[k].hi - 1);
    assert Wanted(missing, pieces[k].lo) && Wanted(missing, pieces[k].hi - 1);
    assert spans[i].Has(pieces[k].hi - 1);
  }

  /** Where each span begins. */
  function Begins(spans: seq<Range>, i: nat): seq<int>
    requires i <= |spans|
    decreases |spans| - i
  {
    if i == |spans| then [] else [spans[i].lo] + Begins(spans, i + 1)
  }

  /** Nothing is left past the page of the last span. */
  lemma {:induction false} LastReachesAll(missing: seq<Range>, spans: seq<Range>, maxBars: int)
    requires Ordered(missing) && Plan(missing, spans, maxBars) && maxBars > 0 && spans != []
    ensures NextStart(missing, spans[|spans| - 1].lo, maxBars) == None
  {
    var n, x := |spans| - 1, spans[|spans| - 1].lo;
    var b := x + maxBars;
    assert Hi(spans, n) - Lo(spans, n) <= maxBars && missing[..|missing|] == missing;
    forall t | Wanted(missing, t) ensures t < b {
      var j := PieceAt(spans, t);
      assert j < n ==> Hi(spans, j) <= Lo(spans, n);
    }
    if Across(missing, x, b, |missing|).Some? {
      var q := AcrossHas(missing, x, b, |missing|);
      WantedIn(missing, q, b);
    }
    NextBarIsFirst(missing, b, |missing|, b);
  }

  lemma {:induction false} BeginsAre(missing: seq<Range>, pieces: seq<Range>, opens: seq<bool>, spans: seq<Range>, maxBars: int, i: nat)
    requires Ordered(missing) && Ordered(pieces) && Same(pieces, missing) && CutFrom(pieces, missing, maxBars) && maxBars > 0
    requires Grouping(pieces, opens) && Greedy(pieces, opens, maxBars) && OnePageEach(pieces, opens, maxBars)
    requires spans == SpansOf(pieces, opens, |pieces|) && Plan(missing, spans, maxBars) && missing != [] && i < |spans|
    ensures Begins(spans, i) == Starts(missing, spans[i].lo, maxBars)
    decreases |spans| - i
  {
    if i == |spans| - 1 {
      LastReachesAll(missing, spans, maxBars);
      assert Begins(spans, i + 1) == [];
    } else {
      BeginsAre(missing, pieces, opens, spans, maxBars, i + 1);
      var k := SpanBegins(pieces, opens, maxBars, |pieces|, i + 1);
      OpensAtNext(missing, pieces, maxBars, k, spans[i].lo);
      assert Lo(pieces, k) < Hi(pieces, k) && Lo(spans, i) < Hi(spans, i) <= Lo(spans, i + 1);
      WantedAt(pieces, k, pieces[k].lo);
      WithinLast(missing, pieces[k].lo);
    }
  }

  lemma {:induction false} WithinLast(rs: seq<Range>, t: int)
    requires Ordered(rs) && Wanted(rs, t)
    ensures rs != [] && rs[0].lo <= t < rs[|rs| - 1].hi
  {
    var i := PieceAt(rs, t);
    assert i > 0 ==> Lo(rs, 0) < Hi(rs, 0) <= Lo(rs, i);
    assert i < |rs| - 1 ==> Hi(rs, i) <= Lo(rs, |rs| - 1) < Hi(rs, |rs| - 1);
  }

  /** The first span begins with the first missing bar. */
  lemma {:induction false} FirstBegins(missing: seq<Range>, spans: seq<Range>, maxBars: int)
    requires Ordered(missing) && missing != [] && Plan(missing, spans, maxBars)
    ensures spans != [] && spans[0].lo == missing[0].lo
  {
    assert Lo(missing, 0) < Hi(missing, 0);
    WantedAt(missing, 0, missing[0].lo);
    WithinLast(spans, missing[0].lo);
    assert Needed(missing, spans, 0, maxBars);
    WithinLast(missing, spans[0].lo);
  }

  // ---------------------------------------------------------------- against every other way of asking

  function At(points: seq<int>, i: nat): int
    requires i < |points|
  {
    points[i]
  }

  /** Bars so far apart that no page holds two of them. */
  ghost predicate Spaced(points: seq<int>, maxBars: int) {
    forall i: nat, j: nat {:trigger At(points, i), At(points, j)} :: i < j < |points| ==> At(points, j) - At(points, i) >= maxBars
  }

  lemma {:induction false} AppendSpaced(points: seq<int>, p: int, maxBars: int)
    requires Spaced(points, maxBars) && maxBars > 0 && (points != [] ==> p - points[|points| - 1] >= maxBars)
    ensures Spaced(points + [p], maxBars)
  {
    var out := points + [p];
    forall i: nat, j: nat {:trigger At(out, i), At(out, j)} | i < j < |out| ensures At(out, j) - At(out, i) >= maxBars {
      var k := if j < |points| then j else |points| - 1;
      assert i < k ==> At(points, k) - At(points, i) >= maxBars;
    }
  }

  /** Each of these bars needs a request of its own. */
  lemma {:induction false} SpacedNeedsRequests(points: seq<int>, windows: seq<Range>, maxBars: int)
    requires Spaced(points, maxBars) && Fit(windows, maxBars)
    requires forall i: nat {:trigger At(points, i)} :: i < |points| ==> Wanted(windows, At(points, i))
    ensures |points| <= |windows|
    decreases |points|
  {
    if points != [] {
      var n := |points| - 1;
      assert Wanted(windows, At(points, n));
      var w :| w in windows && w.Has(points[n]);
      var k: nat :| k < |windows| && windows[k] == w;
      var rest := windows[..k] + windows[k + 1..];
      forall i: nat {:trigger Lo(rest, i)} | i < |rest| ensures Hi(rest, i) - Lo(rest, i) <= maxBars {
        assert Lo(windows, if i < k then i else i + 1) == Lo(rest, i);
      }
      forall i: nat {:trigger At(points[..n], i)} | i < n ensures Wanted(rest, At(points[..n], i)) {
        assert At(points, n) - At(points, i) >= maxBars && Lo(windows, k) == w.lo;
        var v :| v in windows && v.Has(points[i]);
        assert v in rest;
      }
      forall i: nat, j: nat {:trigger At(points[..n], i), At(points[..n], j)} | i < j < n
        ensures At(points[..n], j) - At(points[..n], i) >= maxBars
      {
        assert At(points, j) - At(points, i) >= maxBars;
      }
      SpacedNeedsRequests(points[..n], rest, maxBars);
    }
  }

  /** Every second span of a plan holds a bar that no earlier request can reach. */
  lemma {:induction false} FarBars(missing: seq<Range>, spans: seq<Range>, maxBars: int, n: nat) returns (points: seq<int>)
    requires Plan(missing, spans, maxBars) && maxBars > 0 && 0 < n <= |spans|
    ensures |points| == n / 2 + 1 && Spaced(points, maxBars)
    ensures forall p :: p in points ==> Wanted(missing, p)
    ensures points[|points| - 1] < spans[n - 1].hi && (n % 2 == 1 ==> points[|points| - 1] <= spans[n - 1].lo)
  {
    assert Lo(spans, n - 1) < Hi(spans, n - 1) && Needed(missing, spans, n - 1, maxBars);
    if n == 1 {
      points := [spans[0].lo];
    } else {
      assert Hi(spans, n - 2) <= Lo(spans, n - 1);
      points := FarBars(missing, spans, maxBars, n - 1);
      if n % 2 == 0 {
        var t :| Wanted(missing, t) && spans[n - 1].Has(t) && t - spans[n - 2].lo >= maxBars;
        AppendSpaced(points, t, maxBars);
        points := points + [t];
      }
    }
  }

  /**
   However the bars are asked for, also by requests that cut a piece in two, at least
   half as many requests and one more than that are needed.
   */
  lemma {:induction false} AtMostTwiceTheLeast(missing: seq<Range>, spans: seq<Range>, windows: seq<Range>, maxBars: int)
    requires Plan(missing, spans, maxBars) && maxBars > 0 && spans != []
    requires Fit(windows, maxBars) && Covers(windows, missing)
    ensures |windows| >= |spans| / 2 + 1
  {
    var points := FarBars(missing, spans, maxBars, |spans|);
    forall i: nat {:trigger At(points, i)} | i < |points| ensures Wanted(windows, At(points, i)) {
      assert points[i] in points;
    }
    SpacedNeedsRequests(points, windows, maxBars);
  }

  /** Asks for a whole page at the first bar still missing, again and again. */
  function PagesAt(missing: seq<Range>, maxBars: int, x: int): (points: seq<int>)
    requires maxBars > 0
    decreases if missing == [] then 0 else Max(missing[|missing| - 1].hi - x, 0)
  {
    match NextBar(missing, x, |missing|)
    case None => []
    case Some(t) => if missing != [] && x <= t < missing[|missing| - 1].hi then [t] + PagesAt(missing, maxBars, t + maxBars) else []
  }

  function Pages(points: seq<int>, maxBars: int): seq<Range> {
    seq(|points|, i requires 0 <= i < |points| => Range(points[i], points[i] + maxBars))
  }

  lemma {:induction false} PrependSpaced(p: int, points: seq<int>, maxBars: int)
    requires Spaced(points, maxBars)
    requires forall i: nat {:trigger At(points, i)} :: i < |points| ==> p + maxBars <= At(points, i)
    ensures Spaced([p] + points, maxBars)
  {
    var out := [p] + points;
    forall i: nat, j: nat {:trigger At(out, i), At(out, j)} | i < j < |out| ensures At(out, j) - At(out, i) >= maxBars {
      assert At(out, j) == At(points, j - 1);
      assert i > 0 ==> At(out, i) == At(points, i - 1);
    }
  }

  /** These pages hold every missing bar from `x` on, and no page could do for two of them. */
  lemma {:induction false} PagesReach(missing: seq<Range>, maxBars: int, x: int, points: seq<int>)
    requires Ordered(missing) && maxBars > 0 && points == PagesAt(missing, maxBars, x)
    ensures Spaced(points, maxBars)
    ensures forall i: nat {:trigger At(points, i)} :: i < |points| ==> x <= At(points, i) && Wanted(missing, At(points, i))
    ensures forall t :: Wanted(missing, t) && t >= x ==> Wanted(Pages(points, maxBars), t)
    decreases if missing == [] then 0 else Max(missing[|missing| - 1].hi - x, 0)
  {
    assert missing[..|missing|] == missing;
    var next := NextBar(missing, x, |missing|);
    NextBarIsFirst(missing, x, |missing|, x);
    if next.Some? {
      var p, rest := next.value, PagesAt(missing, maxBars, next.value + maxBars);
      assert missing != [] && p < missing[|missing| - 1].hi && points == [p] + rest;
      PagesReach(missing, maxBars, p + maxBars, rest);
      PrependSpaced(p, rest, maxBars);
      forall i: nat {:trigger At(points, i)} | i < |points| ensures x <= At(points, i) && Wanted(missing, At(points, i)) {
        assert i > 0 ==> At(points, i) == At(rest, i - 1);
      }
      assert Pages(points, maxBars) == [Range(p, p + maxBars)] + Pages(rest, maxBars);
    }
    forall t | Wanted(missing, t) && t >= x ensures Wanted(Pages(points, maxBars), t) {
      NextBarIsFirst(missing, x, |missing|, t);
      var p, rest := next.value, PagesAt(missing, maxBars, next.value + maxBars);
      if t < p + maxBars {
        WantedAt(Pages(points, maxBars), 0, t);
      } else {
        var r :| r in Pages(rest, maxBars) && r.Has(t);
        assert r in Pages(points, maxBars);
      }
    }
  }

  /**
   Asking for a whole page at the first bar still missing, again and again, is least: these
   pages hold every missing bar, and no other way of asking has fewer requests.
   */
  lemma {:induction false} PagesAreLeast(missing: seq<Range>, maxBars: int)
    requires Ordered(missing) && missing != [] && maxBars > 0
    ensures var points := PagesAt(missing, maxBars, missing[0].lo);
            && Fit(Pages(points, maxBars), maxBars) && Covers(Pages(points, maxBars), missing)
            && forall windows :: Fit(windows, maxBars) && Covers(windows, missing) ==> |points| <= |windows|
  {
    var points := PagesAt(missing, maxBars, missing[0].lo);
    PagesReach(missing, maxBars, missing[0].lo, points);
    forall t | Wanted(missing, t) ensures Wanted(Pages(points, maxBars), t) {
      WithinLast(missing, t);
    }
    forall windows | Fit(windows, maxBars) && Covers(windows, missing) ensures |points| <= |windows| {
      SpacedNeedsRequests(points, windows, maxBars);
    }
  }

  /** A range begins inside the page at `x` and ends past it: the case in which the page is left early. */
  predicate Straddled(missing: seq<Range>, x: int, maxBars: int) {
    exists r :: r in missing && x < r.lo < x + maxBars < r.hi
  }

  predicate Unstraddled(missing: seq<Range>, points: seq<int>, maxBars: int) {
    forall p :: p in points ==> !Straddled(missing, p, maxBars)
  }

  lemma {:induction false} AcrossExactly(missing: seq<Range>, x: int, maxBars: int)
    requires Ordered(missing)
    ensures Straddled(missing, x, maxBars) <==> Across(missing, x, x + maxBars, |missing|).Some?
  {
    assert missing[..|missing|] == missing;
    if Straddled(missing, x, maxBars) {
      var r :| r in missing && x < r.lo < x + maxBars < r.hi;
      AcrossIs(missing, x, x + maxBars, |missing|, r);
    }
    if Across(missing, x, x + maxBars, |missing|).Some? {
      var r := AcrossHas(missing, x, x + maxBars, |missing|);
    }
  }

  /** Pages that begin at a missing bar go on with the first bar past the page. */
  lemma {:induction false} PagesGoOn(missing: seq<Range>, maxBars: int, x: int)
    requires Ordered(missing) && maxBars > 0 && Wanted(missing, x)
    ensures var next := NextBar(missing, x + maxBars, |missing|);
            && PagesAt(missing, maxBars, x) == [x] + (if next.Some? then PagesAt(missing, maxBars, next.value) else [])
            && (next.Some? ==> x < next.value < missing[|missing| - 1].hi && Wanted(missing, next.value))
  {
    assert missing[..|missing|] == missing;
    WithinLast(missing, x);
    NextBarIsFirst(missing, x, |missing|, x);
    var next := NextBar(missing, x + maxBars, |missing|);
    NextBarIsFirst(missing, x + maxBars, |missing|, x);
    if next.Some? {
      NextBarIsFirst(missing, next.value, |missing|, next.value);
    }
  }

  /**
   The plan asks exactly where the least number of pages would, if and only if no range
   straddles the end of one of those pages.
   */
  lemma {:induction false} StartsArePages(missing: seq<Range>, maxBars: int, x: int)
    requires Ordered(missing) && maxBars > 0 && Wanted(missing, x) && missing != []
    ensures Starts(missing, x, maxBars) == PagesAt(missing, maxBars, x)
       <==> Unstraddled(missing, PagesAt(missing, maxBars, x), maxBars)
    decreases missing[|missing| - 1].hi - x
  {
    WithinLast(missing, x);
    PagesGoOn(missing, maxBars, x);
    AcrossExactly(missing, x, maxBars);
    var next, points := NextBar(missing, x + maxBars, |missing|), PagesAt(missing, maxBars, x);
    if Straddled(missing, x, maxBars) {
      StraddleDiffers(missing, maxBars, x);
    } else if next.Some? {
      var rest := PagesAt(missing, maxBars, next.value);
      StartsArePages(missing, maxBars, next.value);
      assert points == [x] + rest && Starts(missing, x, maxBars) == [x] + Starts(missing, next.value, maxBars);
      assert points[1..] == rest && Starts(missing, x, maxBars)[1..] == Starts(missing, next.value, maxBars);
      assert forall p :: p in points <==> p == x || p in rest;
    }
  }

  lemma {:induction false} StraddleDiffers(missing: seq<Range>, maxBars: int, x: int)
    requires Ordered(missing) && maxBars > 0 && Wanted(missing, x) && missing != [] && Straddled(missing, x, maxBars)
    ensures Starts(missing, x, maxBars) != PagesAt(missing, maxBars, x) && x in PagesAt(missing, maxBars, x)
  {
    WithinLast(missing, x);
    PagesGoOn(missing, maxBars, x);
    AcrossExactly(missing, x, maxBars);
    var r := AcrossHas(missing, x, x + maxBars, |missing|);
    WantedIn(missing, r, r.lo);
    WithinLast(missing, r.lo);
    var next, starts, points := NextBar(missing, x + maxBars, |missing|), Starts(missing, x, maxBars), PagesAt(missing, maxBars, x);
    assert starts == [x] + Starts(missing, r.lo, maxBars) && starts[1] == r.lo;
    if next.Some? {
      NextBarIsFirst(missing, x + maxBars, |missing|, x);
      assert missing[..|missing|] == missing;
      PagesGoOn(missing, maxBars, next.value);
      assert points[1] == next.value >= x + maxBars;
    }
  }

  lemma {:induction false} BeginsCount(spans: seq<Range>, i: nat)
    requires i <= |spans|
    ensures |Begins(spans, i)| == |spans| - i
    decreases |spans| - i
  {
    if i < |spans| {
      BeginsCount(spans, i + 1);
    }
  }

  /** What a plan has more than the least number of requests: both numbers are read off the missing bars. */
  lemma {:induction false} ExcessExactly(missing: seq<Range>, spans: seq<Range>, maxBars: int)
    requires Ordered(missing) && missing != [] && maxBars > 0 && Plan(missing, spans, maxBars)
    requires Begins(spans, 0) == Starts(missing, missing[0].lo, maxBars)
    ensures |spans| == |Starts(missing, missing[0].lo, maxBars)| >= |PagesAt(missing, maxBars, missing[0].lo)|
  {
    BeginsCount(spans, 0);
    PagesAreLeast(missing, maxBars);
    SpacedNeedsRequests(PagesAt(missing, maxBars, missing[0].lo), spans, maxBars) by {
      PagesReach(missing, maxBars, missing[0].lo, PagesAt(missing, maxBars, missing[0].lo));
    }
  }

  /**
   The plan is least if and only if the two walks over the missing bars, the plan's and
   that of the least pages, take the same number of steps.
   */
  lemma {:induction false} LeastExactly(missing: seq<Range>, spans: seq<Range>, maxBars: int)
    requires Ordered(missing) && missing != [] && maxBars > 0 && Plan(missing, spans, maxBars)
    requires Begins(spans, 0) == Starts(missing, missing[0].lo, maxBars)
    ensures (forall windows :: Fit(windows, maxBars) && Covers(windows, missing) ==> |spans| <= |windows|)
       <==> |Starts(missing, missing[0].lo, maxBars)| == |PagesAt(missing, maxBars, missing[0].lo)|
  {
    ExcessExactly(missing, spans, maxBars);
    PagesAreLeast(missing, maxBars);
    assert |Pages(PagesAt(missing, maxBars, missing[0].lo), maxBars)| == |PagesAt(missing, maxBars, missing[0].lo)|;
  }

  /** A plan has the least number of requests whenever no range straddles the end of one of the least pages. */
  lemma {:induction false} LeastUnlessStraddled(missing: seq<Range>, spans: seq<Range>, windows: seq<Range>, maxBars: int)
    requires Ordered(missing) && missing != [] && maxBars > 0 && Plan(missing, spans, maxBars)
    requires Begins(spans, 0) == Starts(missing, missing[0].lo, maxBars)
    requires Unstraddled(missing, PagesAt(missing, maxBars, missing[0].lo), maxBars)
    requires Fit(windows, maxBars) && Covers(windows, missing)
    ensures |spans| <= |windows|
  {
    assert Lo(missing, 0) < Hi(missing, 0);
    WantedAt(missing, 0, missing[0].lo);
    StartsArePages(missing, maxBars, missing[0].lo);
    BeginsCount(spans, 0);
    PagesAreLeast(missing, maxBars);
  }

  /**
   The condition cannot be turned round: this list is straddled at its first page, and the
   plan still has the least number of requests, because a wide gap gives the bar back.
   */
  lemma {:induction false} StraddledYetLeast(windows: seq<Range>)
    requires Fit(windows, 500) && Covers(windows, [Range(0, 100), Range(400, 700)])
    ensures Straddled([Range(0, 100), Range(400, 700)], 0, 500)
    ensures Starts([Range(0, 100), Range(400, 700)], 0, 500) == [0, 400] && |windows| >= 2
  {
    var missing := [Range(0, 100), Range(400, 700)];
    assert missing[1] in missing && Across(missing, 0, 500, 2) == Some(400);
    assert Across(missing, 400, 900, 1) == None && Across(missing, 400, 900, 0) == None;
    assert NextBar(missing, 900, 0) == None && NextBar(missing, 900, 1) == None && NextBar(missing, 900, 2) == None;
    assert Starts(missing, 400, 500) == [400];
    var points := [0, 500];
    assert At(points, 0) == 0 && At(points, 1) == 500;
    WantedAt(missing, 0, 0);
    WantedAt(missing, 1, 500);
    SpacedNeedsRequests(points, windows, 500);
  }

  /**
   The plan can have more requests than needed: it asks three times for bars that two pages
   hold, because a request never takes only the first part of a piece.
   */
  lemma {:induction false} OneRequestTooMany(spans: seq<Range>)
    requires Begins(spans, 0) == Starts([Range(0, 100), Range(400, 700), Range(800, 950)], 0, 500)
    ensures Begins(spans, 0) == [0, 400, 800] && |spans| == 3
    ensures Straddled([Range(0, 100), Range(400, 700), Range(800, 950)], 0, 500)
    ensures Fit([Range(0, 500), Range(500, 1000)], 500)
    ensures Covers([Range(0, 500), Range(500, 1000)], [Range(0, 100), Range(400, 700), Range(800, 950)])
  {
    var missing, pages := [Range(0, 100), Range(400, 700), Range(800, 950)], [Range(0, 500), Range(500, 1000)];
    ThreeStarts();
    BeginsCount(spans, 0);
    assert missing[1] in missing;
    forall t | Wanted(missing, t) ensures Wanted(pages, t) {
      WantedAt(pages, if t < 500 then 0 else 1, t);
    }
  }

  lemma {:induction false} ThreeStarts()
    ensures Starts([Range(0, 100), Range(400, 700), Range(800, 950)], 0, 500) == [0, 400, 800]
  {
    var missing := [Range(0, 100), Range(400, 700), Range(800, 950)];
    assert Across(missing, 0, 500, 3) == Across(missing, 0, 500, 2) == Some(400);
    assert Across(missing, 400, 900, 3) == Some(800);
    assert Across(missing, 800, 1300, 0) == Across(missing, 800, 1300, 1) == Across(missing, 800, 1300, 2) == None;
    assert NextBar(missing, 1300, 0) == NextBar(missing, 1300, 1) == NextBar(missing, 1300, 2) == NextBar(missing, 1300, 3) == None;
    assert Starts(missing, 800, 500) == [800];
    assert Starts(missing, 400, 500) == [400] + [800];
  }
}
