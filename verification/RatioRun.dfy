/**
 Whole runs of the long/short ratio reconciler (LSReconciler.pass in
 internal/openinterest/lsratio_hist.go). Its passes, writer, barrier and commit are
 those of WatermarkRun; its history is the merge of three, and no live row is pushed.
 */
module RatioRun {
  import opened Align
  import opened HistSource
  import opened Ledger
  import opened OpenInterestFetch
  import opened Options
  import opened RatioMerge
  import opened WatermarkRun

  // ---------------------------------------------------------------- the merged history

  /** Three complete histories, one per endpoint. */
  ghost predicate Complete(full: seq<seq<Point>>) {
    |full| == RATIOS && forall k :: 0 <= k < RATIOS ==> Ascending(full[k])
  }

  /** The label is on the grid and some endpoint gives it. */
  predicate Given(full: seq<seq<Point>>, stamp: int)
    requires |full| == RATIOS
  {
    OnGrid(stamp) && AnyCell(Cells(full, Lengths(full), stamp))
  }

  /** The merged point of a label. */
  function Merger(full: seq<seq<Point>>, stamp: int): Labelled<Columns>
    requires |full| == RATIOS
  {
    Point(stamp, Cells(full, Lengths(full), stamp))
  }

  /** `merged` is what the three histories give in the end, one point per label, in order. */
  ghost predicate IsHistory(full: seq<seq<Point>>, merged: seq<Labelled<Columns>>) {
    && Complete(full) && Ascending(merged)
    && (forall k: nat {:trigger Stamp(merged, k)} :: k < |merged| ==>
         Given(full, Stamp(merged, k)) && merged[k] == Merger(full, Stamp(merged, k)))
    && (forall stamp {:trigger Given(full, stamp)} :: Given(full, stamp) ==> Merger(full, stamp) in merged)
  }

  /** The final row of one bar. */
  function FinalRow(sym: string, full: seq<seq<Point>>, start: int): RatioRow
    requires |full| == RATIOS
  {
    RowOf(sym, Merger(full, start + BAR))
  }

  // ---------------------------------------------------------------- ascending lists

  /** Without its last element an ascending list is ascending and has everything else. */
  lemma {:induction false} Shorter(a: seq<int>)
    requires StrictlyAscending(a) && a != []
    ensures var m := |a| - 1; StrictlyAscending(a[..m]) && forall x :: x in a[..m] <==> x in a && x != a[m]
  {
  }

  lemma {:induction false} SameAscending(a: seq<int>, b: seq<int>)
    requires StrictlyAscending(a) && StrictlyAscending(b) && forall x :: x in a <==> x in b
    ensures a == b
    decreases |a|
  {
    assert a != [] ==> a[0] in a;
    assert b != [] ==> b[0] in b;
    if a != [] {
      SameLast(a, b);
      Shorter(a);
      Shorter(b);
      SameAscending(a[..|a| - 1], b[..|b| - 1]);
      assert a == a[..|a| - 1] + [a[|a| - 1]];
    }
  }

  lemma {:induction false} SameLast(a: seq<int>, b: seq<int>)
    requires StrictlyAscending(a) && StrictlyAscending(b) && a != [] && b != [] && forall x :: x in a <==> x in b
    ensures a[|a| - 1] == b[|b| - 1]
  {
    assert a[|a| - 1] in a && b[|b| - 1] in b;
  }

  lemma {:induction false} Sorted(s: set<int>) returns (q: seq<int>)
    ensures StrictlyAscending(q) && forall x :: x in q <==> x in s
    decreases |s|
  {
    q := [];
    if s != {} {
      var m := HasLeast(s);
      var rest := Sorted(s - {m});
      q := [m] + rest;
      assert forall i :: 1 <= i < |q| ==> q[i] == rest[i - 1] && rest[i - 1] in rest;
    }
  }

  function Labels(s: seq<Point>): set<int> {
    set p | p in s :: p.stamp
  }

  lemma {:induction false} GivenIsLabel(full: seq<seq<Point>>, stamp: int)
    requires |full| == RATIOS
    ensures Given(full, stamp) <==> OnGrid(stamp) && stamp in Labels(full[0]) + Labels(full[1]) + Labels(full[2])
  {
    forall k | 0 <= k < RATIOS ensures Cells(full, Lengths(full), stamp)[k].Some? <==> stamp in Labels(full[k]) {
      CellInHas(full[k], |full[k]|, stamp);
    }
    var c: Columns := Cells(full, Lengths(full), stamp);
    assert AnyCell(c) <==> c[0].Some? || c[1].Some? || c[2].Some?;
  }

  /** Any three histories have a merged one. */
  lemma {:induction false} HistoryExists(full: seq<seq<Point>>) returns (merged: seq<Labelled<Columns>>)
    requires Complete(full)
    ensures IsHistory(full, merged)
  {
    var labels := set x | x in Labels(full[0]) + Labels(full[1]) + Labels(full[2]) && OnGrid(x);
    forall stamp ensures Given(full, stamp) <==> stamp in labels { GivenIsLabel(full, stamp); }
    var q := Sorted(labels);
    merged := seq(|q|, i requires 0 <= i < |q| => Merger(full, q[i]));
    forall stamp | Given(full, stamp) ensures Merger(full, stamp) in merged {
      var i: nat :| i < |q| && q[i] == stamp;
      assert merged[i] == Merger(full, stamp);
    }
    forall k: nat {:trigger Stamp(merged, k)} | k < |merged| ensures Stamp(merged, k) == q[k] && q[k] in labels {}
  }

  // ---------------------------------------------------------------- rows of the merged history

  /** Published points on the grid all yield their row. */
  lemma {:induction false} AllKept<V>(sym: string, src: seq<Labelled<V>>, now: int, i: nat, j: nat)
    requires i <= j <= |src|
    requires forall k: nat {:trigger Stamp(src, k)} :: k < j ==> OnGrid(Stamp(src, k)) && Stamp(src, k) <= now
    ensures |RowsOf(sym, src, now, i, j)| == j - i
    ensures forall k: nat :: k < j - i ==> RowsOf(sym, src, now, i, j)[k] == RowOf(sym, src[i + k])
    decreases j
  {
    if i < j {
      AllKept(sym, src, now, i, j - 1);
      assert Kept(src[j - 1], now) by { assert Stamp(src, j - 1) <= now; }
    }
  }

  /** The k-th of those rows is the final row of the k-th label. */
  lemma {:induction false} RowsAreOfLabels(sym: string, full: seq<seq<Point>>, merged: seq<Labelled<Columns>>, now: int, i: nat, j: nat)
    requires IsHistory(full, merged) && i <= j <= |merged|
    requires forall k: nat {:trigger Stamp(merged, k)} :: k < j ==> Stamp(merged, k) <= now
    ensures var rows := RowsOf(sym, merged, now, i, j);
            && |rows| == j - i && StrictlyAscending(Starts(rows))
            && forall k: nat :: k < |rows| ==> rows[k].start == Stamp(merged, i + k) - BAR && rows[k] == FinalRow(sym, full, rows[k].start)
  {
    var rows := RowsOf(sym, merged, now, i, j);
    AllKept(sym, merged, now, i, j);
    forall k: nat | k < |rows| ensures rows[k].start == Stamp(merged, i + k) - BAR && rows[k] == FinalRow(sym, full, rows[k].start) {
      assert rows[k] == RowOf(sym, merged[i + k]) && Given(full, Stamp(merged, i + k));
    }
  }

  /** A label given in the window is read. */
  lemma {:induction false} GivenIsRead(full: seq<seq<Point>>, merged: seq<Labelled<Columns>>, lo: int, common: int, stamp: int)
    returns (m: nat)
    requires IsHistory(full, merged) && lo <= stamp <= common && Given(full, stamp)
    ensures Below(merged, lo) <= m < Upto(merged, lo, common) && Stamp(merged, m) == stamp
  {
    m :| m < |merged| && merged[m] == Merger(full, stamp);
    assert Stamp(merged, m) == stamp;
  }

  /** The rows of the stretch of history in a window. */
  ghost function WindowRows(sym: string, merged: seq<Labelled<Columns>>, now: int, lo: int, common: int): seq<RatioRow>
    requires Ascending(merged)
  {
    RowsOf(sym, merged, now, Below(merged, lo), Upto(merged, lo, common))
  }

  /** They open only at labels given in the window. */
  lemma {:induction false} OnlyGiven(sym: string, full: seq<seq<Point>>, merged: seq<Labelled<Columns>>, now: int, lo: int, common: int,
                                     start: int)
    requires IsHistory(full, merged) && lo <= now && common <= now && start in Starts(WindowRows(sym, merged, now, lo, common))
    ensures lo <= start + BAR <= common && Given(full, start + BAR)
  {
    var i, rows := Below(merged, lo), WindowRows(sym, merged, now, lo, common);
    RowsAreOfLabels(sym, full, merged, now, i, Upto(merged, lo, common));
    var k: nat :| k < |rows| && rows[k].start == start;
    assert Stamp(merged, i + k) == start + BAR;
  }

  /** They open at every label given in the window. */
  lemma {:induction false} EveryGiven(sym: string, full: seq<seq<Point>>, merged: seq<Labelled<Columns>>, now: int, lo: int, common: int,
                                      start: int)
    requires IsHistory(full, merged) && common <= now && lo <= start + BAR <= common && Given(full, start + BAR)
    ensures start in Starts(WindowRows(sym, merged, now, lo, common))
  {
    var i, rows := Below(merged, lo), WindowRows(sym, merged, now, lo, common);
    RowsAreOfLabels(sym, full, merged, now, i, Upto(merged, lo, common));
    var m := GivenIsRead(full, merged, lo, common, start + BAR);
    assert Starts(rows)[m - i] == rows[m - i].start == start;
  }

  // ---------------------------------------------------------------- a fetch is an event of the run

  /** Each endpoint has published the first `n[k]` points of its history. */
  ghost predicate Seen(full: seq<seq<Point>>, n: seq<nat>, hist: seq<seq<Point>>) {
    && Complete(full) && |n| == |hist| == RATIOS
    && forall k :: 0 <= k < RATIOS ==> n[k] <= |full[k]| && hist[k] == full[k][..n[k]] && Ascending(hist[k])
  }

  /** The series of a fetch are what each endpoint has published of the window. */
  ghost predicate AllPublished(full: seq<seq<Point>>, n: seq<nat>, lo: int, now: int, series: seq<seq<Point>>) {
    forall u {:trigger Unfold(u)} :: Unfold(u) ==>
      && |full| == |n| == |series| == RATIOS
      && forall k :: 0 <= k < RATIOS ==> Published(full[k], n[k], lo, now, series[k])
  }

  lemma {:induction false} WindowsArePublished(full: seq<seq<Point>>, n: seq<nat>, hist: seq<seq<Point>>, since: int, now: int)
    requires Seen(full, n, hist)
    ensures AllPublished(full, n, since + BAR, now, Windows(hist, since, now))
  {
  }

  /** Given is what is merged, and the row of the merged point the merged row. */
  lemma {:induction false} GivenIsMerged(sym: string, full: seq<seq<Point>>, common: int, start: int)
    requires |full| == RATIOS
    ensures Merged(full, Lengths(full), common, start) <==> start + BAR <= common && Given(full, start + BAR)
    ensures RowAt(sym, full, start) == FinalRow(sym, full, start)
  {
  }

  /** In a fetch a bar is merged exactly if its label is given in the window, and gets its final row. */
  lemma {:induction false} BarIsFinal(sym: string, full: seq<seq<Point>>, n: seq<nat>, lo: int, now: int,
                                      series: seq<seq<Point>>, common: int, start: int)
    requires |full| == |series| == RATIOS && UpTo(series, now, common) && AllPublished(full, n, lo, now, series)
    ensures Merged(series, Lengths(series), common, start) <==> lo <= start + BAR <= common && Given(full, start + BAR)
    ensures lo <= start + BAR <= common ==> RowAt(sym, series, start) == FinalRow(sym, full, start)
  {
    assert Unfold(0);
    RowsAreFinal(sym, full, n, lo, now, series, common, start);
    GivenIsMerged(sym, full, common, start);
  }

  /** The rows of a fetch open at the labels given in its window, and each is the final row of its bar. */
  lemma {:induction false} MergeIsFinal(sym: string, full: seq<seq<Point>>, n: seq<nat>, lo: int, now: int,
                                        series: seq<seq<Point>>, common: int, merge: seq<RatioRow>)
    requires |full| == |series| == RATIOS && UpTo(series, now, common) && AllPublished(full, n, lo, now, series)
    requires IsMerge(sym, series, common, merge)
    ensures forall start :: start in Starts(merge) <==> lo <= start + BAR <= common && Given(full, start + BAR)
    ensures forall k :: 0 <= k < |merge| ==> merge[k] == FinalRow(sym, full, merge[k].start)
  {
    forall start ensures start in Starts(merge) <==> lo <= start + BAR <= common && Given(full, start + BAR) {
      BarIsFinal(sym, full, n, lo, now, series, common, start);
    }
    forall k | 0 <= k < |merge| ensures merge[k] == FinalRow(sym, full, merge[k].start) {
      assert Starts(merge)[k] == merge[k].start;
      BarIsFinal(sym, full, n, lo, now, series, common, merge[k].start);
    }
  }

  /** Lists of final rows are equal if their bars are. */
  lemma {:induction false} SameFinal(sym: string, full: seq<seq<Point>>, a: seq<RatioRow>, b: seq<RatioRow>)
    requires |full| == RATIOS && Starts(a) == Starts(b)
    requires forall k :: 0 <= k < |a| ==> a[k] == FinalRow(sym, full, a[k].start)
    requires forall k :: 0 <= k < |b| ==> b[k] == FinalRow(sym, full, b[k].start)
    ensures a == b
  {
    assert |a| == |Starts(a)| == |b|;
    forall k | 0 <= k < |a| ensures a[k] == b[k] {
      assert Starts(a)[k] == a[k].start && Starts(b)[k] == b[k].start;
    }
  }

  /**
   What FetchSymbol pushes without an error is what FetchOk asks for, over the merged
   history and from the start of its gap: a fetch that is cut short has pushed nothing.
   */
  lemma {:induction false} RatioFetchIsEvent(h: World<Columns>, sym: string, full: seq<seq<Point>>, n: seq<nat>, hist: seq<seq<Point>>,
                                             since: int, now: int, common: int, merge: seq<RatioRow>) returns (top: nat)
    requires sym in h && IsHistory(full, h[sym]) && Seen(full, n, hist) && since + BAR <= now
    requires MergeOfGap(sym, hist, since, now, common, merge)
    ensures WatermarkRun.Fetched(h, sym, Attempt(since + BAR, merge), since + BAR, top, now)
  {
    var merged, lo := h[sym], since + BAR;
    if merge == [] {
      top := Below(merged, lo);
    } else {
      top := Upto(merged, lo, common);
      WindowsArePublished(full, n, hist, since, now);
      MergeIsFinal(sym, full, n, lo, now, Windows(hist, since, now), common, merge);
      var rows := WindowRows(sym, merged, now, lo, common);
      RowsAreOfLabels(sym, full, merged, now, Below(merged, lo), top);
      forall start ensures start in Starts(merge) <==> start in Starts(rows) {
        if start in Starts(rows) { OnlyGiven(sym, full, merged, now, lo, common, start); }
        if start in Starts(merge) { EveryGiven(sym, full, merged, now, lo, common, start); }
      }
      SameAscending(Starts(merge), Starts(rows));
      SameFinal(sym, full, merge, rows);
    }
  }

  // ---------------------------------------------------------------- whole runs

  /**
   The ratio archive has no hole up to the watermark, and no column of it stays NULL for
   good: in every run every bar some endpoint ever gives, from the covered label up to the
   watermark, is in the store with the values the complete histories give.
   */
  lemma {:induction false} RatioGapFree(h: World<Columns>, loaded: map<string, int>, events: seq<Event<Columns>>, t: System<Columns>,
                                        sym: string, full: seq<seq<Point>>, start: int)
    requires Runs(h, Start(loaded), events, t) && sym in t.cover
    requires sym in h && IsHistory(full, h[sym]) && Given(full, start + BAR)
    ensures sym in t.last
    ensures t.cover[sym] <= start + BAR && start <= t.last[sym] ==> Stored(t.w, FinalRow(sym, full, start))
  {
    GapFree(h, loaded, events, t, sym);
    var k: nat :| k < |h[sym]| && h[sym][k] == Merger(full, start + BAR);
    assert Stamp(h[sym], k) == start + BAR;
  }

  // ---------------------------------------------------------------- nothing else

  /** Every row is the final row of its bar. */
  ghost predicate AllFinal(fulls: map<string, seq<seq<Point>>>, rows: seq<RatioRow>) {
    forall r :: r in rows ==>
      && r.symbol in fulls && |fulls[r.symbol]| == RATIOS
      && Given(fulls[r.symbol], r.start + BAR) && r == FinalRow(r.symbol, fulls[r.symbol], r.start)
  }

  /** However a fetch ends, the rows it has pushed are final. */
  lemma {:induction false} PushedAreFinal(sym: string, fulls: map<string, seq<seq<Point>>>, n: seq<nat>, hist: seq<seq<Point>>,
                                          since: int, now: int, common: int, merge: seq<RatioRow>, pushed: seq<RatioRow>)
    requires sym in fulls && Seen(fulls[sym], n, hist)
    requires MergeOfGap(sym, hist, since, now, common, merge) && pushed <= merge
    ensures AllFinal(fulls, pushed)
  {
    if merge != [] {
      WindowsArePublished(fulls[sym], n, hist, since, now);
      MergeIsFinal(sym, fulls[sym], n, since + BAR, now, Windows(hist, since, now), common, merge);
      forall r | r in pushed
        ensures r.symbol == sym && Given(fulls[sym], r.start + BAR) && r == FinalRow(sym, fulls[sym], r.start)
      {
        var i: nat :| i < |pushed| && pushed[i] == r;
        assert merge[i] == r && Starts(merge)[i] == r.start;
        assert r.start in Starts(merge);
      }
    }
  }

  lemma {:induction false} BatchIsIn<R>(settled: seq<Settled<R>>, k: nat, n: nat, r: R)
    requires k < n <= |settled| && r in settled[k].rows
    ensures r in RowsIn(settled, 0, n)
    decreases n
  {
    if k < n - 1 {
      BatchIsIn(settled, k, n - 1, r);
    }
  }

  /**
   The ratio archive is exact. In every run whose pushes are those of fetches, a row of a
   bar from the covered label up to the watermark is in the store if and only if some
   endpoint ever gives the bar and the row has the values the complete histories give.
   */
  lemma {:induction false} RatioExact(h: World<Columns>, loaded: map<string, int>, events: seq<Event<Columns>>, t: System<Columns>,
                                      fulls: map<string, seq<seq<Point>>>, r: RatioRow)
    requires Runs(h, Start(loaded), events, t) && r.symbol in t.cover
    requires r.symbol in h && r.symbol in fulls && IsHistory(fulls[r.symbol], h[r.symbol])
    requires AllFinal(fulls, OfferedIn(events))
    ensures r.symbol in t.last
    ensures t.cover[r.symbol] <= r.start + BAR && r.start <= t.last[r.symbol] ==>
      (Stored(t.w, r) <==> Given(fulls[r.symbol], r.start + BAR) && r == FinalRow(r.symbol, fulls[r.symbol], r.start))
  {
    GapFree(h, loaded, events, t, r.symbol);
    if Given(fulls[r.symbol], r.start + BAR) {
      RatioGapFree(h, loaded, events, t, r.symbol, fulls[r.symbol], r.start);
    }
    if Stored(t.w, r) {
      LedgerIsWhole(h, loaded, events, t);
      var k: nat :| k < |t.w.settled| && t.w.settled[k].landed && r in t.w.settled[k].rows;
      BatchIsIn(t.w.settled, k, |t.w.settled|, r);
    }
  }
}
