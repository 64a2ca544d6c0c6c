/**
 Ranges of missing bars, and the pure helpers of the repair tools
 (cmd/test-tools/backfill_missing_oi.py and backfill_missing_1m.py). A bar is named by
 its number on the grid, so [lo, hi) stands for the bars lo, lo + 1, ..., hi - 1.
 */
module Ranges {
  import opened Options

  datatype Range = Range(lo: int, hi: int) {
    predicate Has(t: int) {
      lo <= t < hi
    }
  }

  /** Some range of the list holds the bar: the tools' `wanted`. */
  predicate Wanted(rs: seq<Range>, t: int) {
    exists r :: r in rs && r.Has(t)
  }

  function Lo(rs: seq<Range>, i: nat): int
    requires i < |rs|
  {
    rs[i].lo
  }

  function Hi(rs: seq<Range>, i: nat): int
    requires i < |rs|
  {
    rs[i].hi
  }

  /** What the gaps file guarantees: no empty range. */
  ghost predicate NonEmpty(rs: seq<Range>) {
    forall i: nat {:trigger Lo(rs, i)} :: i < |rs| ==> Lo(rs, i) < Hi(rs, i)
  }

  /** Ascending, and neighbours do not even touch. */
  ghost predicate Separated(rs: seq<Range>) {
    NonEmpty(rs) && forall i: nat, j: nat {:trigger Hi(rs, i), Lo(rs, j)} :: i < j < |rs| ==> Hi(rs, i) < Lo(rs, j)
  }

  lemma {:induction false} WantedMore(rs: seq<Range>, r: Range, t: int)
    ensures Wanted(rs + [r], t) <==> Wanted(rs, t) || r.Has(t)
  {
  }

  lemma {:induction false} WantedAt(rs: seq<Range>, i: nat, t: int)
    requires i < |rs| && rs[i].Has(t)
    ensures Wanted(rs, t)
  {
  }

  // ---------------------------------------------------------------- merging

  ghost predicate Sorted(rs: seq<Range>) {
    |rs| < 2 || (rs[0].lo <= rs[1].lo && Sorted(rs[1..]))
  }

  lemma {:induction false} SortedAt(rs: seq<Range>, i: nat)
    requires Sorted(rs) && i + 1 < |rs|
    ensures Lo(rs, i) <= Lo(rs, i + 1)
  {
    if i > 0 {
      SortedAt(rs[1..], i - 1);
    }
  }

  predicate Before(a: Range, b: Range) {
    a.lo < b.lo || (a.lo == b.lo && a.hi <= b.hi)
  }

  function Insert(r: Range, rs: seq<Range>): seq<Range> {
    if rs == [] || Before(r, rs[0]) then [r] + rs else [rs[0]] + Insert(r, rs[1..])
  }

  /** The language's own sort of a list of pairs. */
  function Sort(rs: seq<Range>): seq<Range> {
    if rs == [] then [] else Insert(rs[0], Sort(rs[1..]))
  }

  lemma {:induction false} InsertSorts(r: Range, rs: seq<Range>)
    requires Sorted(rs)
    ensures Sorted(Insert(r, rs))
  {
    if rs != [] && !Before(r, rs[0]) {
      InsertSorts(r, rs[1..]);
    } else {
      assert ([r] + rs)[1..] == rs;
    }
  }

  lemma {:induction false} InsertHas(r: Range, rs: seq<Range>, x: Range)
    ensures x in Insert(r, rs) <==> x == r || x in rs
  {
    if rs != [] && !Before(r, rs[0]) {
      InsertHas(r, rs[1..], x);
    }
  }

  lemma {:induction false} SortSorts(rs: seq<Range>)
    ensures Sorted(Sort(rs))
  {
    if rs != [] {
      SortSorts(rs[1..]);
      InsertSorts(rs[0], Sort(rs[1..]));
    }
  }

  lemma {:induction false} SortHas(rs: seq<Range>, x: Range)
    ensures x in Sort(rs) <==> x in rs
  {
    if rs != [] {
      SortHas(rs[1..], x);
      InsertHas(rs[0], Sort(rs[1..]), x);
    }
  }

  lemma {:induction false} SortKeeps(rs: seq<Range>)
    ensures Same(Sort(rs), rs)
    ensures NonEmpty(rs) ==> NonEmpty(Sort(rs))
  {
    var s := Sort(rs);
    forall x ensures x in s <==> x in rs { SortHas(rs, x); }
    if NonEmpty(rs) {
      forall i: nat {:trigger Lo(s, i)} | i < |s| ensures Lo(s, i) < Hi(s, i) {
        assert s[i] in rs;
        var j: nat :| j < |rs| && rs[j] == s[i];
        assert Lo(rs, j) < Hi(rs, j);
      }
    }
  }

  /** Replacing the last range by one that also holds the bars of `r`. */
  lemma {:induction false} Widen(rs: seq<Range>, r: Range, t: int)
    requires rs != [] && rs[|rs| - 1].lo <= r.lo <= rs[|rs| - 1].hi
    ensures Wanted(rs[|rs| - 1 := Range(rs[|rs| - 1].lo, Max(rs[|rs| - 1].hi, r.hi))], t) <==> Wanted(rs, t) || r.Has(t)
  {
    var n := |rs| - 1;
    var wide := Range(rs[n].lo, Max(rs[n].hi, r.hi));
    assert rs == rs[..n] + [rs[n]] && rs[n := wide] == rs[..n] + [wide];
    WantedMore(rs[..n], rs[n], t);
    WantedMore(rs[..n], wide, t);
  }

  lemma {:induction false} AppendSeparated(rs: seq<Range>, r: Range)
    requires Separated(rs) && r.lo < r.hi && (rs != [] ==> rs[|rs| - 1].hi < r.lo)
    ensures Separated(rs + [r])
  {
    var out := rs + [r];
    forall i: nat {:trigger Lo(out, i)} | i < |out| ensures Lo(out, i) < Hi(out, i) {
      assert i < |rs| ==> Lo(rs, i) < Hi(rs, i);
    }
    forall i: nat, j: nat {:trigger Hi(out, i), Lo(out, j)} | i < j < |out| ensures Hi(out, i) < Lo(out, j) {
      var k := if j < |rs| then j else |rs| - 1;
      assert i < k ==> Hi(rs, i) < Lo(rs, k) < Hi(rs, k);
    }
  }

  lemma {:induction false} FrontSeparated(rs: seq<Range>, n: nat)
    requires Separated(rs) && n <= |rs|
    ensures Separated(rs[..n])
  {
    var out := rs[..n];
    forall i: nat {:trigger Lo(out, i)} | i < n ensures Lo(out, i) < Hi(out, i) {
      assert Lo(rs, i) < Hi(rs, i);
    }
    forall i: nat, j: nat {:trigger Hi(out, i), Lo(out, j)} | i < j < n ensures Hi(out, i) < Lo(out, j) {
      assert Hi(rs, i) < Lo(rs, j);
    }
  }

  lemma {:induction false} WidenSeparated(rs: seq<Range>, hi: int)
    requires Separated(rs) && rs != [] && rs[|rs| - 1].hi <= hi
    ensures Separated(rs[|rs| - 1 := Range(rs[|rs| - 1].lo, hi)])
  {
    var n := |rs| - 1;
    FrontSeparated(rs, n);
    assert Lo(rs, n) < Hi(rs, n) && (n > 0 ==> Hi(rs, n - 1) < Lo(rs, n));
    AppendSeparated(rs[..n], Range(rs[n].lo, hi));
    assert rs[n := Range(rs[n].lo, hi)] == rs[..n] + [Range(rs[n].lo, hi)];
  }

  /** Two lists that hold the same bars. */
  ghost predicate Same(a: seq<Range>, b: seq<Range>) {
    forall t :: Wanted(a, t) <==> Wanted(b, t)
  }

  function Join(merged: seq<Range>, r: Range): seq<Range> {
    var n := |merged| - 1;
    if n >= 0 && r.lo <= merged[n].hi then merged[n := Range(merged[n].lo, Max(merged[n].hi, r.hi))] else merged + [r]
  }

  lemma {:induction false} JoinKeeps(done: seq<Range>, merged: seq<Range>, r: Range)
    requires Same(merged, done) && Separated(merged) && r.lo < r.hi
    requires merged != [] ==> merged[|merged| - 1].lo <= r.lo
    ensures Same(Join(merged, r), done + [r]) && Separated(Join(merged, r))
  {
    var n := |merged| - 1;
    if merged != [] && r.lo <= merged[n].hi {
      WidenSeparated(merged, Max(merged[n].hi, r.hi));
      forall t ensures Wanted(Join(merged, r), t) <==> Wanted(done + [r], t) {
        Widen(merged, r, t);
        WantedMore(done, r, t);
      }
    } else {
      AppendSeparated(merged, r);
      forall t ensures Wanted(Join(merged, r), t) <==> Wanted(done + [r], t) {
        WantedMore(merged, r, t);
        WantedMore(done, r, t);
      }
    }
  }

  /** Joins overlapping and touching ranges; the bars stay the same. */
  method MergeRanges(ranges: seq<Range>) returns (merged: seq<Range>)
    requires NonEmpty(ranges)
    ensures Separated(merged) && Same(merged, ranges)
  {
    var s := Sort(ranges);
    SortSorts(ranges);
    SortKeeps(ranges);
    merged := [];
    for i := 0 to |s|
      invariant Separated(merged) && Same(merged, s[..i])
      invariant merged != [] ==> i > 0 && merged[|merged| - 1].lo <= Lo(s, i - 1)
    {
      assert s[..i + 1] == s[..i] + [s[i]] && Lo(s, i) < Hi(s, i);
      if i > 0 {
        SortedAt(s, i - 1);
      }
      JoinKeeps(s[..i], merged, s[i]);
      var n := |merged| - 1;
      if n >= 0 && s[i].lo <= merged[n].hi {
        merged := merged[n := Range(merged[n].lo, Max(merged[n].hi, s[i].hi))];
      } else {
        merged := merged + [s[i]];
      }
    }
    assert s[..|s|] == s;
  }

  lemma {:induction false} TailSeparated(a: seq<Range>)
    requires Separated(a) && a != []
    ensures Separated(a[1..])
  {
    var out := a[1..];
    forall i: nat {:trigger Lo(out, i)} | i < |out| ensures Lo(out, i) < Hi(out, i) {
      assert Lo(a, i + 1) < Hi(a, i + 1);
    }
    forall i: nat, j: nat {:trigger Hi(out, i), Lo(out, j)} | i < j < |out| ensures Hi(out, i) < Lo(out, j) {
      assert Hi(a, i + 1) < Lo(a, j + 1);
    }
  }

  lemma {:induction false} DropFirst(a: seq<Range>, t: int)
    requires Separated(a) && a != []
    ensures Wanted(a[1..], t) <==> Wanted(a, t) && !a[0].Has(t)
  {
    forall r | r in a[1..] && r.Has(t) ensures r in a && !a[0].Has(t) {
      var i: nat :| i < |a| - 1 && a[1..][i] == r;
      assert a[i + 1] == r && Hi(a, 0) < Lo(a, i + 1);
    }
    assert a == [a[0]] + a[1..];
  }

  /** A list has no bar before its first range and none right after it. */
  lemma {:induction false} HolesAround(a: seq<Range>, t: int)
    requires Separated(a) && a != [] && Wanted(a, t)
    ensures a[0].lo <= t && t != a[0].hi
  {
    var r :| r in a && r.Has(t);
    var i: nat :| i < |a| && a[i] == r;
    assert Lo(a, 0) < Hi(a, 0);
    assert i > 0 ==> Hi(a, 0) < Lo(a, i);
  }

  lemma {:induction false} FirstRange(a: seq<Range>, b: seq<Range>)
    requires Separated(a) && Separated(b) && a != [] && b != [] && Same(a, b)
    ensures b[0].lo <= a[0].lo
    ensures a[0].lo == b[0].lo ==> a[0].hi <= b[0].hi
  {
    assert Lo(a, 0) < Hi(a, 0) && Lo(b, 0) < Hi(b, 0);
    WantedAt(a, 0, a[0].lo);
    HolesAround(b, a[0].lo);
    if a[0].lo == b[0].lo && b[0].hi < a[0].hi {
      WantedAt(a, 0, b[0].hi);
      HolesAround(b, b[0].hi);
    }
  }

  /**
   The merged form is canonical: separated lists of the same bars are the same list,
   so what a merge returns depends on nothing but the bars it was given.
   */
  lemma {:induction false} MergedIsCanonical(a: seq<Range>, b: seq<Range>)
    requires Separated(a) && Separated(b) && Same(a, b)
    ensures a == b
    decreases |a|
  {
    if a != [] && b != [] {
      FirstRange(a, b);
      FirstRange(b, a);
      assert a[0] == b[0];
      forall t ensures Wanted(a[1..], t) <==> Wanted(b[1..], t) {
        DropFirst(a, t);
        DropFirst(b, t);
      }
      TailSeparated(a);
      TailSeparated(b);
      MergedIsCanonical(a[1..], b[1..]);
      assert a == [a[0]] + a[1..] && b == [b[0]] + b[1..];
    } else if a != [] {
      assert Lo(a, 0) < Hi(a, 0);
      WantedAt(a, 0, a[0].lo);
    } else if b != [] {
      assert Lo(b, 0) < Hi(b, 0);
      WantedAt(b, 0, b[0].lo);
    }
  }

  // ---------------------------------------------------------------- subtracting

  /** The stretch of absent bars that is still open at `cur`. */
  function Open(start: Option<int>, cur: int): seq<Range> {
    if start.Some? then [Range(start.value, cur)] else []
  }

  /** `out` ends before `x`, so a range that begins at `x` can follow it. */
  ghost predicate Ends(out: seq<Range>, x: int) {
    Separated(out) && (out != [] ==> out[|out| - 1].hi < x)
  }

  /** The ranges found so far are those of `before` and the absent bars of [lo, cur). */
  ghost predicate Scanned(before: seq<Range>, lo: int, cur: int, present: set<int>, out: seq<Range>, start: Option<int>) {
    && lo <= cur && (start.Some? ==> lo <= start.value < cur)
    && (forall t :: Wanted(out + Open(start, cur), t) <==> Wanted(before, t) || (lo <= t < cur && t !in present))
    && (Ends(before, lo) ==> Ends(out, if start.Some? then start.value else cur))
  }

  /** Going over one more bar: it closes an open stretch, opens one, or extends it. */
  lemma {:induction false} ScanBar(before: seq<Range>, lo: int, cur: int, present: set<int>, out: seq<Range>, start: Option<int>,
                                   out': seq<Range>, start': Option<int>)
    requires Scanned(before, lo, cur, present, out, start)
    requires out' == (if cur in present then out + Open(start, cur) else out)
    requires start' == (if cur in present then None else if start.None? then Some(cur) else start)
    ensures Scanned(before, lo, cur + 1, present, out', start')
  {
    forall t ensures Wanted(out' + Open(start', cur + 1), t) <==> Wanted(before, t) || (lo <= t < cur + 1 && t !in present) {
      assert Wanted(out + Open(start, cur), t) <==> Wanted(before, t) || (lo <= t < cur && t !in present);
      OpenAdds(out, start, cur, t);
      OpenAdds(out', start', cur + 1, t);
    }
    assert out + [] == out;
    if Ends(before, lo) && start.Some? {
      AppendSeparated(out, Range(start.value, cur));
    }
  }

  lemma {:induction false} OpenAdds(out: seq<Range>, start: Option<int>, cur: int, t: int)
    ensures Wanted(out + Open(start, cur), t) <==> Wanted(out, t) || (start.Some? && start.value <= t < cur)
  {
    if start.Some? {
      WantedMore(out, Range(start.value, cur), t);
    } else {
      assert out + [] == out;
    }
  }

  /** `out` holds the bars of `done` that are not present. */
  ghost predicate Absent(out: seq<Range>, done: seq<Range>, present: set<int>) {
    forall t :: Wanted(out, t) <==> Wanted(done, t) && t !in present
  }

  lemma {:induction false} ScanEnds(before: seq<Range>, done: seq<Range>, r: Range, cur: int, present: set<int>,
                                    out: seq<Range>, start: Option<int>)
    requires Absent(before, done, present) && Scanned(before, r.lo, cur, present, out, start)
    requires cur == Max(r.lo, r.hi)
    ensures Absent(out + Open(start, cur), done + [r], present)
    ensures Ends(before, r.lo) ==> Ends(out + Open(start, cur), cur + 1)
  {
    var all := out + Open(start, cur);
    forall t ensures Wanted(all, t) <==> Wanted(done + [r], t) && t !in present {
      WantedMore(done, r, t);
      assert Wanted(all, t) <==> Wanted(before, t) || (r.lo <= t < cur && t !in present);
    }
    if Ends(before, r.lo) && start.Some? {
      AppendSeparated(out, Range(start.value, cur));
    }
    assert start.None? ==> all == out;
  }

  /** Appends the absent bars of one range to those of the ranges before it. */
  method SubtractOne(before: seq<Range>, ghost done: seq<Range>, r: Range, present: set<int>) returns (out: seq<Range>)
    requires Absent(before, done, present)
    ensures Absent(out, done + [r], present)
    ensures Ends(before, r.lo) ==> Ends(out, Max(r.lo, r.hi) + 1)
  {
    out := before;
    assert out + [] == out;
    var start: Option<int> := None;
    var t := r.lo;
    while t < r.hi
      invariant t <= Max(r.lo, r.hi) && Scanned(before, r.lo, t, present, out, start)
    {
      assert out + [] == out;
      ScanBar(before, r.lo, t, present, out, start, if t in present then out + Open(start, t) else out,
              if t in present then None else if start.None? then Some(t) else start);
      if t in present {
        if start.Some? {
          out := out + [Range(start.value, t)];
          start := None;
        }
      } else if start.None? {
        start := Some(t);
      }
      t := t + 1;
    }
    assert out + [] == out;
    ScanEnds(before, done, r, t, present, out, start);
    if start.Some? {
      out := out + [Range(start.value, r.hi)];
    }
  }

  /** What is missing: exactly the bars of the ranges that are not present. */
  method SubtractPresent(ranges: seq<Range>, present: set<int>) returns (out: seq<Range>)
    ensures Absent(out, ranges, present)
    ensures Separated(ranges) ==> Separated(out)
  {
    out := [];
    for i := 0 to |ranges|
      invariant Absent(out, ranges[..i], present)
      invariant Separated(ranges) ==> Separated(out) && (out != [] ==> i > 0 && out[|out| - 1].hi <= ranges[i - 1].hi)
    {
      assert ranges[..i + 1] == ranges[..i] + [ranges[i]];
      assert Lo(ranges, i) == ranges[i].lo && Hi(ranges, i) == ranges[i].hi;
      assert i > 0 ==> Hi(ranges, i - 1) == ranges[i - 1].hi;
      out := SubtractOne(out, ranges[..i], ranges[i], present);
    }
    assert ranges[..|ranges|] == ranges;
  }

  // ---------------------------------------------------------------- clipping and counting

  /** The number of bars in a list of ranges. */
  function Bars(rs: seq<Range>, n: nat): int
    requires n <= |rs|
  {
    if n == 0 then 0 else Bars(rs, n - 1) + rs[n - 1].hi - rs[n - 1].lo
  }

  lemma {:induction false} BarsMore(rs: seq<Range>, r: Range, n: nat)
    requires n <= |rs|
    ensures Bars(rs + [r], n) == Bars(rs, n)
  {
    if n > 0 {
      BarsMore(rs, r, n - 1);
    }
  }

  /** `kept` holds the bars of `done` that are not before `oldest`. */
  ghost predicate Clipped(kept: seq<Range>, done: seq<Range>, oldest: int) {
    forall t :: Wanted(kept, t) <==> Wanted(done, t) && t >= oldest
  }

  function Clip(r: Range, oldest: int): Range {
    Range(Max(r.lo, oldest), r.hi)
  }

  lemma {:induction false} ClipOne(kept: seq<Range>, done: seq<Range>, r: Range, oldest: int)
    requires Clipped(kept, done, oldest)
    ensures Clipped(if r.hi <= oldest then kept else kept + [Clip(r, oldest)], done + [r], oldest)
  {
    forall t ensures Wanted(if r.hi <= oldest then kept else kept + [Clip(r, oldest)], t) <==> Wanted(done + [r], t) && t >= oldest {
      WantedMore(done, r, t);
      WantedMore(kept, Clip(r, oldest), t);
    }
  }

  /** Drops the bars before `oldest`, and counts them. */
  method ClipToRetention(ranges: seq<Range>, oldest: int) returns (kept: seq<Range>, dropped: int)
    ensures Clipped(kept, ranges, oldest)
    ensures dropped == Bars(ranges, |ranges|) - Bars(kept, |kept|)
    ensures Separated(ranges) ==> Separated(kept)
  {
    kept, dropped := [], 0;
    for i := 0 to |ranges|
      invariant Clipped(kept, ranges[..i], oldest)
      invariant dropped == Bars(ranges, i) - Bars(kept, |kept|)
      invariant Separated(ranges) ==> Separated(kept) && (kept != [] ==> i > 0 && kept[|kept| - 1].hi <= ranges[i - 1].hi)
    {
      assert ranges[..i + 1] == ranges[..i] + [ranges[i]];
      assert Lo(ranges, i) == ranges[i].lo && Hi(ranges, i) == ranges[i].hi;
      assert i > 0 ==> Hi(ranges, i - 1) == ranges[i - 1].hi;
      ClipOne(kept, ranges[..i], ranges[i], oldest);
      var r := ranges[i];
      if r.hi <= oldest {
        dropped := dropped + r.hi - r.lo;
        continue;
      }
      if r.lo < oldest {
        dropped := dropped + oldest - r.lo;
        r := Range(oldest, r.hi);
      }
      BarsMore(kept, r, |kept|);
      if Separated(ranges) {
        AppendSeparated(kept, r);
      }
      kept := kept + [r];
    }
    assert ranges[..|ranges|] == ranges;
  }

  function Interval(lo: int, hi: int): set<int>
    decreases hi - lo
  {
    if hi <= lo then {} else Interval(lo, hi - 1) + {hi - 1}
  }

  lemma {:induction false} IntervalHas(lo: int, hi: int, t: int)
    ensures t in Interval(lo, hi) <==> lo <= t < hi
    decreases hi - lo
  {
    if lo < hi {
      IntervalHas(lo, hi - 1, t);
    }
  }

  lemma {:induction false} IntervalSize(lo: int, hi: int)
    requires lo <= hi
    ensures |Interval(lo, hi)| == hi - lo
    decreases hi - lo
  {
    if lo < hi {
      IntervalSize(lo, hi - 1);
      IntervalHas(lo, hi - 1, hi - 1);
      UnionSize(Interval(lo, hi - 1), {hi - 1});
    }
  }

  /** The bars of the first `n` ranges of a list. */
  function BarSet(rs: seq<Range>, n: nat): set<int>
    requires n <= |rs|
  {
    if n == 0 then {} else BarSet(rs, n - 1) + Interval(rs[n - 1].lo, rs[n - 1].hi)
  }

  lemma {:induction false} BarSetHas(rs: seq<Range>, n: nat, t: int)
    requires n <= |rs|
    ensures t in BarSet(rs, n) <==> exists i :: 0 <= i < n && rs[i].Has(t)
  {
    if n > 0 {
      BarSetHas(rs, n - 1, t);
      IntervalHas(rs[n - 1].lo, rs[n - 1].hi, t);
    }
  }

  lemma {:induction false} NoneTwice(rs: seq<Range>, n: nat)
    requires Separated(rs) && n < |rs|
    ensures |BarSet(rs, n + 1)| == |BarSet(rs, n)| + rs[n].hi - rs[n].lo
  {
    assert Lo(rs, n) < Hi(rs, n);
    IntervalSize(rs[n].lo, rs[n].hi);
    forall t | t in BarSet(rs, n) ensures t !in Interval(rs[n].lo, rs[n].hi) {
      BarSetHas(rs, n, t);
      IntervalHas(rs[n].lo, rs[n].hi, t);
      var i: nat :| i < n && rs[i].Has(t);
      assert Hi(rs, i) < Lo(rs, n);
    }
    UnionSize(BarSet(rs, n), Interval(rs[n].lo, rs[n].hi));
  }

  /** The counts that are reported count bars: separated ranges count none of them twice. */
  lemma {:induction false} BarsAreCounted(rs: seq<Range>, n: nat)
    requires Separated(rs) && n <= |rs|
    ensures |BarSet(rs, n)| == Bars(rs, n)
  {
    if n > 0 {
      BarsAreCounted(rs, n - 1);
      NoneTwice(rs, n - 1);
    }
  }

  /** A separated list has as many bars as the set of the bars it holds. */
  lemma {:induction false} CountIs(rs: seq<Range>, bars: set<int>)
    requires Separated(rs) && forall t :: t in bars <==> Wanted(rs, t)
    ensures Bars(rs, |rs|) == |bars|
  {
    BarsAreCounted(rs, |rs|);
    forall t ensures t in BarSet(rs, |rs|) <==> t in bars {
      BarSetHas(rs, |rs|, t);
      if Wanted(rs, t) {
        var r :| r in rs && r.Has(t);
        var i :| 0 <= i < |rs| && rs[i] == r;
      }
    }
    SameSet(BarSet(rs, |rs|), bars);
  }
}
