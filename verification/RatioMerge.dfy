/**
 The long/short ratio fetch (LSReconciler.fetchSymbol and emit in
 internal/openinterest/lsratio_hist.go): three series merged into one row per bar,
 never past the series that is furthest behind.
 */
module RatioMerge {
  import opened Align
  import opened BackwardPaging
  import opened HistSource
  import opened OpenInterestFetch
  import opened Options

  const RATIOS := 3

  /** What a row holds: one cell per ratio; one without a value is stored as NULL. */
  type Columns = seq<Option<Reading>>

  type RatioRow = Record<Columns>

  predicate AnyCell(cells: Columns) {
    exists k :: 0 <= k < |cells| && cells[k].Some?
  }

  function NewRow(symbol: string, start: int, cells: Columns): RatioRow {
    Row(symbol, start, cells, start + BAR, RANK_HIST)
  }

  /** What the writer accepts (LSRow.validate): sound cells, and at least one of them. */
  predicate Acceptable(r: RatioRow) {
    && r.symbol != "" && OnGrid(r.start) && (r.rank == RANK_HIST || r.rank == RANK_ARCHIVE)
    && (forall k :: 0 <= k < |r.value| ==> r.value[k].None? || (r.value[k].value.Number? && r.value[k].value.x >= 0.0))
    && AnyCell(r.value)
  }

  /** The value the first `n` points of a series give for a label; a later point replaces an earlier one. */
  function CellIn(s: seq<Point>, n: nat, stamp: int): Option<Reading>
    requires n <= |s|
  {
    if n == 0 then None
    else if s[n - 1].stamp == stamp then Some(s[n - 1].value)
    else CellIn(s, n - 1, stamp)
  }

  function Cell(s: seq<Point>, stamp: int): Option<Reading> {
    CellIn(s, |s|, stamp)
  }

  lemma {:induction false} CellInHas(s: seq<Point>, n: nat, stamp: int)
    requires n <= |s|
    ensures CellIn(s, n, stamp).Some? <==> exists i :: 0 <= i < n && s[i].stamp == stamp
    ensures CellIn(s, n, stamp).Some? ==> Point(stamp, CellIn(s, n, stamp).value) in s
  {
    if n > 0 {
      CellInHas(s, n - 1, stamp);
    }
  }

  /** In an ascending series the cell of a label is the value of its one point. */
  lemma {:induction false} CellIsPoint(s: seq<Point>, p: Point)
    requires Ascending(s)
    ensures p in s <==> Cell(s, p.stamp) == Some(p.value)
  {
    CellInHas(s, |s|, p.stamp);
    if p in s {
      var i: nat :| i < |s| && s[i] == p;
      var q := Point(p.stamp, Cell(s, p.stamp).value);
      var j: nat :| j < |s| && s[j] == q;
      assert Stamp(s, i) == Stamp(s, j);
      assert i == j;
    }
  }

  /** The cells for one label when the first `n[k]` points of each series have been merged. */
  function Cells(series: seq<seq<Point>>, n: seq<nat>, stamp: int): (c: Columns)
    requires |series| == |n| == RATIOS && forall k :: 0 <= k < RATIOS ==> n[k] <= |series[k]|
  {
    [CellIn(series[0], n[0], stamp), CellIn(series[1], n[1], stamp), CellIn(series[2], n[2], stamp)]
  }

  function Lengths(series: seq<seq<Point>>): seq<nat>
    requires |series| == RATIOS
  {
    [|series[0]|, |series[1]|, |series[2]|]
  }

  /** The merged row of one bar. */
  function RowAt(symbol: string, series: seq<seq<Point>>, start: int): RatioRow
    requires |series| == RATIOS
  {
    NewRow(symbol, start, Cells(series, Lengths(series), start + BAR))
  }

  /** A bar gets a row exactly if it is on the grid, not past `common`, and some series has it. */
  predicate Merged(series: seq<seq<Point>>, n: seq<nat>, common: int, start: int)
    requires |series| == |n| == RATIOS && forall k :: 0 <= k < RATIOS ==> n[k] <= |series[k]|
  {
    OnGrid(start) && start + BAR <= common && AnyCell(Cells(series, n, start + BAR))
  }

  /** The rows so far are those of the points merged so far. */
  ghost predicate MergedSoFar(symbol: string, series: seq<seq<Point>>, n: seq<nat>, common: int, rows: map<int, RatioRow>) {
    && |series| == |n| == RATIOS && (forall k :: 0 <= k < RATIOS ==> n[k] <= |series[k]|)
    && (forall start :: start in rows <==> Merged(series, n, common, start))
    && (forall start :: start in rows ==> rows[start] == NewRow(symbol, start, Cells(series, n, start + BAR)))
  }

  /** Merging one more point changes the cells of its own label and no other. */
  lemma {:induction false} OnePoint(series: seq<seq<Point>>, n: seq<nat>, k: nat, stamp: int)
    requires |series| == |n| == RATIOS && k < RATIOS && n[k] < |series[k]|
    requires forall j :: 0 <= j < RATIOS ==> n[j] <= |series[j]|
    ensures var p := series[k][n[k]];
            Cells(series, n[k := n[k] + 1], stamp)
            == if p.stamp == stamp then Cells(series, n, stamp)[k := Some(p.value)] else Cells(series, n, stamp)
  {
  }

  lemma {:induction false} MergeStep(symbol: string, series: seq<seq<Point>>, n: seq<nat>, k: nat, common: int,
                                     rows: map<int, RatioRow>, rows': map<int, RatioRow>)
    requires MergedSoFar(symbol, series, n, common, rows) && k < RATIOS && n[k] < |series[k]|
    requires var p := series[k][n[k]]; var start := p.stamp - BAR;
      if p.stamp > common || !OnGrid(p.stamp) then rows' == rows
      else
        var cells := if start in rows then rows[start].value else [None, None, None];
        rows' == rows[start := NewRow(symbol, start, cells[k := Some(p.value)])]
    ensures MergedSoFar(symbol, series, n[k := n[k] + 1], common, rows')
  {
    var p, n' := series[k][n[k]], n[k := n[k] + 1];
    forall start
      ensures start in rows' <==> Merged(series, n', common, start)
      ensures start in rows' ==> rows'[start] == NewRow(symbol, start, Cells(series, n', start + BAR))
    {
      OnePoint(series, n, k, start + BAR);
      if p.stamp == start + BAR {
        var cells: Columns := Cells(series, n, start + BAR);
        assert cells[k := Some(p.value)][k].Some?;
        assert start in rows <==> Merged(series, n, common, start);
        if !AnyCell(cells) {
          assert cells[0].None? && cells[1].None? && cells[2].None?;
          assert cells == [None, None, None];
        }
      } else {
        assert start in rows <==> Merged(series, n, common, start);
      }
    }
  }

  /** Puts one point of series `k` into the map of rows. */
  method MergePoint(symbol: string, p: Point, k: nat, common: int, rows: map<int, RatioRow>,
                    ghost series: seq<seq<Point>>, ghost n: seq<nat>)
    returns (rows': map<int, RatioRow>)
    requires MergedSoFar(symbol, series, n, common, rows) && k < RATIOS && n[k] < |series[k]| && p == series[k][n[k]]
    ensures MergedSoFar(symbol, series, n[k := n[k] + 1], common, rows')
  {
    rows' := rows;
    if p.stamp <= common && OnGrid(p.stamp) {
      var start := p.stamp - BAR;
      if start !in rows' {
        rows' := rows'[start := NewRow(symbol, start, [None, None, None])];
      }
      rows' := rows'[start := rows'[start].(value := rows'[start].value[k := Some(p.value)])];
    }
    MergeStep(symbol, series, n, k, common, rows, rows');
  }

  /** Fills the map of rows, one series after the other. */
  method MergeSeries(symbol: string, series: seq<seq<Point>>, common: int) returns (rows: map<int, RatioRow>)
    requires |series| == RATIOS
    ensures MergedSoFar(symbol, series, Lengths(series), common, rows)
  {
    rows := map[];
    ghost var n: seq<nat> := [0, 0, 0];
    for k := 0 to RATIOS
      invariant MergedSoFar(symbol, series, n, common, rows)
      invariant forall j :: 0 <= j < RATIOS ==> n[j] == if j < k then |series[j]| else 0
    {
      for i := 0 to |series[k]|
        invariant MergedSoFar(symbol, series, n, common, rows)
        invariant forall j :: 0 <= j < RATIOS ==> n[j] == if j < k then |series[j]| else if j == k then i else 0
      {
        rows := MergePoint(symbol, series[k][i], k, common, rows, series, n);
        n := n[k := i + 1];
      }
    }
    assert n == Lengths(series);
  }

  // ---------------------------------------------------------------- the common label

  /** No series is ahead of `common` alone: it is now, or the newest label of the slowest series. */
  ghost predicate IsCommon(series: seq<seq<Point>>, n: nat, common: int)
    requires n <= |series| && forall k :: 0 <= k < n ==> series[k] != []
  {
    && (forall k :: 0 <= k < n ==> common <= Newest(series[k]))
    && (exists k :: 0 <= k < n && common == Newest(series[k]))
  }

  function Newest(s: seq<Point>): int
    requires s != []
  {
    s[|s| - 1].stamp
  }

  /** The smallest of the newest labels; None when some series is empty. */
  method CommonLabel(series: seq<seq<Point>>) returns (common: Option<int>)
    requires |series| == RATIOS
    ensures common.Some? <==> forall k :: 0 <= k < RATIOS ==> series[k] != []
    ensures common.Some? ==> IsCommon(series, RATIOS, common.value)
  {
    common := None;
    var anyEmpty := false;
    for k := 0 to RATIOS
      invariant anyEmpty <==> exists j :: 0 <= j < k && series[j] == []
      invariant !anyEmpty ==> (common.Some? <==> k > 0)
      invariant !anyEmpty && k > 0 ==> IsCommon(series, k, common.value)
    {
      if |series[k]| == 0 {
        anyEmpty := true;
        continue;
      }
      var newest := Newest(series[k]);
      if common.None? || newest < common.value {
        common := Some(newest);
      }
    }
    if anyEmpty {
      common := None;
    }
  }

  // ---------------------------------------------------------------- writing the rows

  ghost predicate StrictlyAscending(s: seq<int>) {
    forall i, j :: 0 <= i < j < |s| ==> s[i] < s[j]
  }

  lemma {:induction false} HasLeast(s: set<int>) returns (m: int)
    requires s != {}
    ensures m in s && forall x :: x in s ==> m <= x
    decreases |s|
  {
    var first := Pick(s);
    var rest := s - {first};
    assert forall x :: x in s ==> x == first || x in rest;
    m := first;
    if rest != {} {
      var l := HasLeast(rest);
      m := Min(first, l);
    }
  }

  /** The bars in order, as the sort of the map's keys gives them. */
  method SortedStarts(starts: set<int>) returns (sorted: seq<int>)
    ensures StrictlyAscending(sorted)
    ensures forall x :: x in sorted <==> x in starts
  {
    sorted := [];
    var left := starts;
    while left != {}
      invariant left <= starts && StrictlyAscending(sorted)
      invariant forall x :: x in sorted <==> x in starts && x !in left
      invariant forall x, y :: x in sorted && y in left ==> x < y
      decreases |left|
    {
      ghost var l := HasLeast(left);
      var m :| m in left && forall x :: x in left ==> m <= x;
      ghost var before := sorted;
      sorted := sorted + [m];
      left := left - {m};
      assert forall i :: 0 <= i < |before| ==> sorted[i] == before[i] && before[i] in before;
      assert m in sorted && forall x :: x in sorted <==> x in before || x == m;
    }
  }

  function Starts(rows: seq<RatioRow>): seq<int> {
    seq(|rows|, i requires 0 <= i < |rows| => rows[i].start)
  }

  /**
   `rows` merges the series up to `common`: in ascending order, one row for every
   on-grid label some series has, each cell the value of its series.
   */
  ghost predicate IsMerge(symbol: string, series: seq<seq<Point>>, common: int, rows: seq<RatioRow>)
    requires |series| == RATIOS
  {
    && StrictlyAscending(Starts(rows))
    && (forall start :: start in Starts(rows) <==> Merged(series, Lengths(series), common, start))
    && (forall i :: 0 <= i < |rows| ==> rows[i] == RowAt(symbol, series, rows[i].start))
  }

  /** `merge` lists the rows of these bars, in their order. */
  ghost predicate Listed(rows: map<int, RatioRow>, starts: seq<int>, merge: seq<RatioRow>) {
    |merge| == |starts| && forall i: nat :: i < |starts| ==> starts[i] in rows && merge[i] == rows[starts[i]] && merge[i].start == starts[i]
  }

  /** Offers the rows to the writer one by one, up to the first that is not taken. */
  method OfferRows(rows: map<int, RatioRow>, starts: seq<int>, refuse: nat -> bool, ghost merge: seq<RatioRow>)
    returns (ok: bool, pushed: seq<RatioRow>, newest: Option<int>)
    requires Listed(rows, starts, merge) && StrictlyAscending(starts)
    ensures pushed <= merge && (ok ==> pushed == merge)
    ensures newest == if pushed == [] then None else Some(pushed[|pushed| - 1].start)
    ensures !ok ==> |pushed| < |merge| && (refuse(|pushed|) || !Acceptable(merge[|pushed|]))
    ensures forall i :: 0 <= i < |pushed| ==> Acceptable(pushed[i])
  {
    pushed, newest := [], None;
    for i := 0 to |starts|
      invariant |pushed| == i && pushed == merge[..i] && forall j :: 0 <= j < i ==> Acceptable(pushed[j])
      invariant newest == if i == 0 then None else Some(starts[i - 1])
    {
      var row := rows[starts[i]];
      assert row == merge[i];
      if !Acceptable(row) || refuse(i) {
        return false, pushed, newest;
      }
      pushed := pushed + [row];
      if newest.None? || newest.value < starts[i] {
        newest := Some(starts[i]);
      }
    }
    ok := true;
  }

  /** The rows of the merged map, put in order, are the merge. */
  lemma {:induction false} InOrder(symbol: string, series: seq<seq<Point>>, common: int, rows: map<int, RatioRow>, starts: seq<int>)
    returns (merge: seq<RatioRow>)
    requires |series| == RATIOS && MergedSoFar(symbol, series, Lengths(series), common, rows)
    requires StrictlyAscending(starts) && forall x :: x in starts <==> x in rows
    ensures IsMerge(symbol, series, common, merge) && Listed(rows, starts, merge)
  {
    merge := seq(|starts|, i requires 0 <= i < |starts| => RowAt(symbol, series, starts[i]));
    assert Starts(merge) == starts;
    forall i: nat | i < |starts| ensures starts[i] in rows && merge[i] == rows[starts[i]] {
      assert starts[i] in starts;
    }
  }

  /** Pushes the merged rows oldest first; `refuse(k)` is whether the writer turns the k-th away. */
  method PushRows(symbol: string, series: seq<seq<Point>>, common: int, refuse: nat -> bool)
    returns (ok: bool, pushed: seq<RatioRow>, newest: Option<int>, ghost merge: seq<RatioRow>)
    requires |series| == RATIOS
    ensures IsMerge(symbol, series, common, merge)
    ensures pushed <= merge && (ok ==> pushed == merge)
    ensures newest == if pushed == [] then None else Some(pushed[|pushed| - 1].start)
    ensures !ok ==> |pushed| < |merge| && (refuse(|pushed|) || !Acceptable(merge[|pushed|]))
    ensures forall i :: 0 <= i < |pushed| ==> Acceptable(pushed[i])
  {
    var rows := MergeSeries(symbol, series, common);
    var starts := SortedStarts(rows.Keys);
    merge := InOrder(symbol, series, common, rows, starts);
    ok, pushed, newest := OfferRows(rows, starts, refuse, merge);
  }

  // ---------------------------------------------------------------- one symbol

  /** The label a pass may write up to. */
  ghost predicate UpTo(series: seq<seq<Point>>, now: int, common: int) {
    && |series| == RATIOS && (forall k :: 0 <= k < RATIOS ==> series[k] != [])
    && exists c :: IsCommon(series, RATIOS, c) && common == Min(c, now)
  }

  /** Merges and pushes; nothing is written while one series is empty. */
  method Emit(symbol: string, series: seq<seq<Point>>, now: int, refuse: nat -> bool)
    returns (ok: bool, pushed: seq<RatioRow>, newest: Option<int>, ghost common: int, ghost merge: seq<RatioRow>)
    requires |series| == RATIOS
    ensures (exists k :: 0 <= k < RATIOS && series[k] == []) ==> ok && pushed == merge == []
    ensures (forall k :: 0 <= k < RATIOS ==> series[k] != []) ==>
      UpTo(series, now, common) && IsMerge(symbol, series, common, merge)
    ensures pushed <= merge && (ok ==> pushed == merge)
    ensures newest == if pushed == [] then None else Some(pushed[|pushed| - 1].start)
    ensures !ok ==> |pushed| < |merge| && (refuse(|pushed|) || !Acceptable(merge[|pushed|]))
    ensures forall i :: 0 <= i < |pushed| ==> Acceptable(pushed[i])
  {
    var least := CommonLabel(series);
    if least.None? {
      return true, [], None, 0, [];
    }
    common := Min(least.value, now);
    ok, pushed, newest, merge := PushRows(symbol, series, Min(least.value, now), refuse);
  }

  /** The three gaps, each read whole. */
  ghost function Windows(hist: seq<seq<Point>>, since: int, now: int): seq<seq<Point>>
    requires |hist| == RATIOS && forall k :: 0 <= k < RATIOS ==> Ascending(hist[k])
  {
    [Between(hist[0], since + BAR, now), Between(hist[1], since + BAR, now), Between(hist[2], since + BAR, now)]
  }

  /** How reading the endpoints from `k` on ends: as the first of them that is not read whole. */
  ghost function ReadEnd(cfg: HistConfig, hist: seq<seq<Point>>, faults: seq<nat -> Fault>,
                         since: int, needed: int, now: int, k: nat): Fetched
    requires |hist| == |faults| == RATIOS && k <= RATIOS && forall j :: 0 <= j < RATIOS ==> Ascending(hist[j])
    requires cfg.Sane() && needed >= 1
    decreases RATIOS - k
  {
    if k == RATIOS then Whole
    else
      var ending := GapEnding(cfg, hist[k], faults[k], since, needed, now);
      if ending.Complete? then ReadEnd(cfg, hist, faults, since, needed, now, k + 1) else Reported(ending)
  }

  method ReadSeries(cfg: HistConfig, hist: seq<seq<Point>>, faults: seq<nat -> Fault>, since: int, needed: int, now: int)
    returns (end: Fetched, series: seq<seq<Point>>)
    requires |hist| == |faults| == RATIOS && forall j :: 0 <= j < RATIOS ==> Ascending(hist[j])
    requires cfg.Sane() && needed >= 1
    ensures end == ReadEnd(cfg, hist, faults, since, needed, now, 0)
    ensures end.Whole? ==> series == Windows(hist, since, now)
  {
    series := [];
    for k := 0 to RATIOS
      invariant |series| == k && forall j :: 0 <= j < k ==> series[j] == Between(hist[j], since + BAR, now)
      invariant ReadEnd(cfg, hist, faults, since, needed, now, 0) == ReadEnd(cfg, hist, faults, since, needed, now, k)
    {
      var ending, pts := PageBack(cfg, hist[k], faults[k], since, needed, now);
      if !ending.Complete? {
        return Reported(ending), [];
      }
      series := series + [pts];
    }
    ThreeWindows(hist, since, now, series);
    end := Whole;
  }

  lemma {:induction false} ThreeWindows(hist: seq<seq<Point>>, since: int, now: int, series: seq<seq<Point>>)
    requires |hist| == |series| == RATIOS && forall k :: 0 <= k < RATIOS ==> Ascending(hist[k])
    requires forall k :: 0 <= k < RATIOS ==> series[k] == Between(hist[k], since + BAR, now)
    ensures series == Windows(hist, since, now)
  {
    assert series == [series[0], series[1], series[2]];
  }

  /** The rows of a fetch: the merge of the whole gap up to the common label, or none. */
  ghost predicate MergeOfGap(symbol: string, hist: seq<seq<Point>>, since: int, now: int, common: int, merge: seq<RatioRow>)
    requires |hist| == RATIOS && forall k :: 0 <= k < RATIOS ==> Ascending(hist[k])
  {
    || merge == []
    || (UpTo(Windows(hist, since, now), now, common) && IsMerge(symbol, Windows(hist, since, now), common, merge))
  }

  /** The writer refuses nothing by itself, and every number of these series is sound. */
  ghost predicate WelcomeAll(symbol: string, series: seq<seq<Point>>, refuse: nat -> bool) {
    && symbol != "" && |series| == RATIOS && (forall k :: !refuse(k))
    && forall k, p :: 0 <= k < RATIOS && p in series[k] ==> p.value.Number? && p.value.x >= 0.0
  }

  /** A row is accepted with one cell or more, whichever are missing. */
  lemma {:induction false} SoundIsAccepted(symbol: string, series: seq<seq<Point>>, refuse: nat -> bool, common: int, rows: seq<RatioRow>, i: nat)
    requires WelcomeAll(symbol, series, refuse) && IsMerge(symbol, series, common, rows) && i < |rows|
    ensures Acceptable(rows[i])
  {
    var start := rows[i].start;
    assert Starts(rows)[i] == start;
    assert Merged(series, Lengths(series), common, start);
    forall k | 0 <= k < RATIOS ensures rows[i].value[k].None? || (rows[i].value[k].value.Number? && rows[i].value[k].value.x >= 0.0) {
      CellInHas(series[k], |series[k]|, start + BAR);
    }
  }

  lemma {:induction false} WindowsAreWelcome(symbol: string, hist: seq<seq<Point>>, since: int, now: int, refuse: nat -> bool)
    requires WelcomeAll(symbol, hist, refuse) && forall k :: 0 <= k < RATIOS ==> Ascending(hist[k])
    ensures WelcomeAll(symbol, Windows(hist, since, now), refuse)
  {
    forall k, p | 0 <= k < RATIOS && p in Windows(hist, since, now)[k] ensures p in hist[k] {
      BetweenIsFilter(hist[k], since + BAR, now);
    }
  }

  /**
   Fetches one planned gap. Rows are written only when all three endpoints were read
   to the end; a rejected symbol ends the fetch without an error and without a row.
   */
  method FetchSymbol(cfg: HistConfig, symbol: string, hist: seq<seq<Point>>, faults: seq<nat -> Fault>, refuse: nat -> bool,
                     since: int, needed: int, now: int)
    returns (end: Fetched, pushed: seq<RatioRow>, newest: Option<int>, ghost common: int, ghost merge: seq<RatioRow>)
    requires |hist| == |faults| == RATIOS && forall j :: 0 <= j < RATIOS ==> Ascending(hist[j])
    requires cfg.Sane() && needed >= 1
    ensures var read := ReadEnd(cfg, hist, faults, since, needed, now, 0);
      && (end == read || (end.PushFailed? && read.Whole?))
      && (!read.Whole? ==> pushed == merge == [])
      && (read.Whole? ==>
           var series := Windows(hist, since, now);
           && ((exists k :: 0 <= k < RATIOS && series[k] == []) ==> end.Whole? && pushed == merge == [])
           && ((forall k :: 0 <= k < RATIOS ==> series[k] != []) ==>
                UpTo(series, now, common) && IsMerge(symbol, series, common, merge)))
    ensures MergeOfGap(symbol, hist, since, now, common, merge)
    ensures pushed <= merge && (end.Whole? || end.Delisted? ==> pushed == merge)
    ensures newest == if pushed == [] then None else Some(pushed[|pushed| - 1].start)
    ensures forall i, k :: 0 <= i < |pushed| && 0 <= k < |pushed[i].value| && pushed[i].value[k].Some? ==>
      pushed[i].value[k].value.Number? && pushed[i].value[k].value.x >= 0.0
    ensures forall i :: 0 <= i < |pushed| ==> pushed[i].symbol != "" && OnGrid(pushed[i].start)
    ensures WelcomeAll(symbol, hist, refuse) ==> !end.PushFailed?
  {
    var series;
    end, series := ReadSeries(cfg, hist, faults, since, needed, now);
    pushed, newest, common, merge := [], None, 0, [];
    if end.Whole? {
      var ok;
      ok, pushed, newest, common, merge := Emit(symbol, series, now, refuse);
      if !ok && WelcomeAll(symbol, hist, refuse) {
        WindowsAreWelcome(symbol, hist, since, now, refuse);
        SoundIsAccepted(symbol, series, refuse, common, merge, |pushed|);
      }
      assert forall i :: 0 <= i < |pushed| ==> Acceptable(pushed[i]);
      end := if ok then Whole else PushFailed;
    }
  }

  // ---------------------------------------------------------------- what the merge means

  /** A cell is missing only when its series has already moved past the label. */
  lemma {:induction false} MissingIsPast(symbol: string, series: seq<seq<Point>>, now: int, common: int,
                                         rows: seq<RatioRow>, i: nat, k: nat)
    requires UpTo(series, now, common) && IsMerge(symbol, series, common, rows)
    requires i < |rows| && k < RATIOS && rows[i].value[k].None?
    ensures Newest(series[k]) > rows[i].start + BAR
  {
    assert Starts(rows)[i] == rows[i].start;
    assert Merged(series, Lengths(series), common, rows[i].start);
    CellInHas(series[k], |series[k]|, rows[i].start + BAR);
  }

  /** `series` is the window [lo, now] of the part of `full` that is published so far. */
  ghost predicate Published(full: seq<Point>, n: nat, lo: int, now: int, series: seq<Point>) {
    n <= |full| && Ascending(full) && Ascending(full[..n]) && series == Between(full[..n], lo, now)
  }

  lemma {:induction false} CellIsFinal(full: seq<Point>, n: nat, lo: int, now: int, series: seq<Point>, stamp: int)
    requires Published(full, n, lo, now, series) && series != []
    requires lo <= stamp <= now && stamp <= Newest(series)
    ensures Cell(series, stamp) == Cell(full, stamp)
  {
    BetweenIsFilter(full[..n], lo, now);
    var last := series[|series| - 1];
    assert last in series && last in full[..n];
    var at: nat :| at < n && full[..n][at] == last;
    CellInHas(full, |full|, stamp);
    CellInHas(series, |series|, stamp);
    if Cell(full, stamp).Some? {
      var p := Point(stamp, Cell(full, stamp).value);
      var i: nat :| i < |full| && full[i] == p;
      assert Stamp(full, i) <= Stamp(full, at);
      assert full[..n][i] == p;
      CellIsPoint(series, p);
    }
    if Cell(series, stamp).Some? {
      var p := Point(stamp, Cell(series, stamp).value);
      assert p in full[..n];
      CellIsPoint(full, p);
    }
  }

  /** Every cell up to the common label already has its final value. */
  lemma {:induction false} CellsAreFinal(full: seq<seq<Point>>, n: seq<nat>, lo: int, now: int,
                                         series: seq<seq<Point>>, common: int, stamp: int)
    requires |full| == |n| == |series| == RATIOS && UpTo(series, now, common)
    requires forall k :: 0 <= k < RATIOS ==> Published(full[k], n[k], lo, now, series[k])
    requires lo <= stamp <= common
    ensures Cells(series, Lengths(series), stamp) == Cells(full, Lengths(full), stamp)
  {
    CellIsFinal(full[0], n[0], lo, now, series[0], stamp);
    CellIsFinal(full[1], n[1], lo, now, series[1], stamp);
    CellIsFinal(full[2], n[2], lo, now, series[2], stamp);
  }

  lemma {:induction false} CellInWindow(full: seq<Point>, n: nat, lo: int, now: int, series: seq<Point>, stamp: int)
    requires Published(full, n, lo, now, series)
    ensures Cell(series, stamp).Some? ==> lo <= stamp <= now
  {
    CellInHas(series, |series|, stamp);
    BetweenIsFilter(full[..n], lo, now);
  }

  lemma {:induction false} MergedInWindow(full: seq<seq<Point>>, n: seq<nat>, lo: int, now: int,
                                          series: seq<seq<Point>>, common: int, start: int)
    requires |full| == |n| == |series| == RATIOS
    requires forall k :: 0 <= k < RATIOS ==> Published(full[k], n[k], lo, now, series[k])
    requires Merged(series, Lengths(series), common, start)
    ensures lo <= start + BAR <= common
  {
    CellInWindow(full[0], n[0], lo, now, series[0], start + BAR);
    CellInWindow(full[1], n[1], lo, now, series[1], start + BAR);
    CellInWindow(full[2], n[2], lo, now, series[2], start + BAR);
  }

  /**
   No column stays NULL for good. Points appear in order, so whatever is published
   later, the rows of a pass are exactly the rows the complete histories give for the
   labels from `lo` to the common label.
   */
  lemma {:induction false} RowsAreFinal(symbol: string, full: seq<seq<Point>>, n: seq<nat>, lo: int, now: int,
                                        series: seq<seq<Point>>, common: int, start: int)
    requires |full| == |n| == |series| == RATIOS && UpTo(series, now, common)
    requires forall k :: 0 <= k < RATIOS ==> Published(full[k], n[k], lo, now, series[k])
    ensures Merged(series, Lengths(series), common, start) <==> lo <= start + BAR && Merged(full, Lengths(full), common, start)
    ensures lo <= start + BAR <= common ==> RowAt(symbol, series, start) == RowAt(symbol, full, start)
  {
    if lo <= start + BAR <= common {
      CellsAreFinal(full, n, lo, now, series, common, start + BAR);
    } else if Merged(series, Lengths(series), common, start) {
      MergedInWindow(full, n, lo, now, series, common, start);
    }
  }
}
