/**
 Forward paging of klines (FetchStream and pageLimitFor in internal/backfill/rest.go):
 the endpoint returns the OLDEST `limit` bars with an opening time in [start, end].
 */
module ForwardPaging {
  import opened HistSource
  import opened Options

  /** What the exchange sends for one bar; `sound` is whether its numbers parse. */
  datatype Candle = Candle(close: int, sound: bool)

  /** A bar, labelled with its opening time. */
  type Kline = Labelled<Candle>

  lemma {:induction false} BelowOrdered(s: seq<Kline>, x: int, y: int)
    requires Ascending(s) && x <= y
    ensures Below(s, x) <= Below(s, y)
  {
    var b := Below(s, y);
    assert b < |s| ==> Stamp(s, b) >= y;
  }

  /** One request: the oldest `limit` bars of [start, end]. */
  method Page(src: seq<Kline>, start: int, end: int, limit: nat) returns (page: seq<Kline>)
    requires Ascending(src) && start <= end
    ensures var from, upto := Below(src, start), Below(src, end + 1);
            from <= upto && page == src[from..if upto - from <= limit then upto else from + limit]
  {
    BelowOrdered(src, start, end + 1);
    var from, upto := Below(src, start), Below(src, end + 1);
    page := src[from..if upto - from <= limit then upto else from + limit];
  }

  // ---------------------------------------------------------------- what is wanted

  /** Closed at least a second ago, well formed, and opened in [since, until). */
  predicate Wanted(k: Kline, since: int, until: int, closedBefore: int) {
    since <= k.stamp < until && k.value.close < closedBefore && k.value.sound
  }

  /** The wanted bars of src[i..j], in order. */
  function Rows(src: seq<Kline>, since: int, until: int, closedBefore: int, i: nat, j: nat): seq<Kline>
    requires i <= j <= |src|
    decreases j
  {
    if i == j then []
    else
      Rows(src, since, until, closedBefore, i, j - 1)
      + if Wanted(src[j - 1], since, until, closedBefore) then [src[j - 1]] else []
  }

  lemma {:induction false} RowsExact(src: seq<Kline>, since: int, until: int, closedBefore: int, i: nat, j: nat, k: Kline)
    requires i <= j <= |src|
    ensures k in Rows(src, since, until, closedBefore, i, j)
       <==> since <= k.stamp < until && k.value.close < closedBefore && k.value.sound && exists n :: i <= n < j && src[n] == k
    decreases j
  {
    if i < j {
      RowsExact(src, since, until, closedBefore, i, j - 1, k);
    }
  }

  lemma {:induction false} RowsAscend(src: seq<Kline>, since: int, until: int, closedBefore: int, i: nat, j: nat)
    requires Ascending(src) && i <= j <= |src|
    ensures Ascending(Rows(src, since, until, closedBefore, i, j))
    decreases j
  {
    if i < j {
      RowsAscend(src, since, until, closedBefore, i, j - 1);
      var before, out := Rows(src, since, until, closedBefore, i, j - 1), Rows(src, since, until, closedBefore, i, j);
      forall a: nat, b: nat {:trigger Stamp(out, a), Stamp(out, b)} | a < b < |out| ensures Stamp(out, a) < Stamp(out, b) {
        if b < |before| {
          assert Stamp(before, a) < Stamp(before, b);
        } else {
          RowsExact(src, since, until, closedBefore, i, j - 1, before[a]);
          var n: nat :| i <= n < j - 1 && src[n] == before[a];
          assert Stamp(src, n) < Stamp(src, j - 1);
        }
      }
    }
  }

  lemma {:induction false} RowsJoin(src: seq<Kline>, since: int, until: int, closedBefore: int, i: nat, m: nat, j: nat)
    requires i <= m <= j <= |src|
    ensures Rows(src, since, until, closedBefore, i, j)
         == Rows(src, since, until, closedBefore, i, m) + Rows(src, since, until, closedBefore, m, j)
    decreases j
  {
    if m < j {
      RowsJoin(src, since, until, closedBefore, i, m, j - 1);
    }
  }

  /** Bars outside the window add nothing. */
  lemma {:induction false} NoRows(src: seq<Kline>, since: int, until: int, closedBefore: int, i: nat, j: nat)
    requires i <= j <= |src| && forall n :: i <= n < j ==> !(since <= src[n].stamp < until)
    ensures Rows(src, since, until, closedBefore, i, j) == []
    decreases j
  {
    if i < j {
      NoRows(src, since, until, closedBefore, i, j - 1);
    }
  }

  lemma {:induction false} RowsOfSlice(src: seq<Kline>, since: int, until: int, closedBefore: int, lo: nat, hi: nat, n: nat)
    requires lo + n <= hi <= |src|
    ensures Rows(src[lo..hi], since, until, closedBefore, 0, n) == Rows(src, since, until, closedBefore, lo, lo + n)
  {
    if n > 0 {
      RowsOfSlice(src, since, until, closedBefore, lo, hi, n - 1);
    }
  }

  /** The wanted bars of one page. */
  method Filter(page: seq<Kline>, since: int, until: int, closedBefore: int) returns (batch: seq<Kline>)
    ensures batch == Rows(page, since, until, closedBefore, 0, |page|)
  {
    batch := [];
    for n := 0 to |page|
      invariant batch == Rows(page, since, until, closedBefore, 0, n)
    {
      if page[n].stamp < since || page[n].stamp >= until || page[n].value.close >= closedBefore {
        continue;
      }
      if !page[n].value.sound {
        continue;
      }
      batch := batch + [page[n]];
    }
  }

  // ---------------------------------------------------------------- the loop

  /** How many bars of a known length are asked for when they fit a page. */
  function Need(dur: int, cursor: int, until: int): int
    requires dur > 0
  {
    (until - cursor) / dur + 2
  }

  /** `dur` is the length of the interval in milliseconds, None when it does not parse. */
  function PageLimitFor(dur: Option<int>, pageLim: nat, cursor: int, until: int): (limit: nat)
    requires pageLim > 0
    ensures 0 < limit <= pageLim
  {
    if dur.None? || dur.value <= 0 || until <= cursor then pageLim
    else
      var need := Need(dur.value, cursor, until);
      if need > pageLim || need <= 0 then pageLim else need
  }

  /**
   A request asks for a whole page, or for at most two bars more than are as long as the
   window; it asks for less than a page only if more bars than that cannot fit.
   */
  lemma {:induction false} LimitFits(dur: Option<int>, pageLim: nat, cursor: int, until: int)
    requires pageLim > 0
    ensures var limit := PageLimitFor(dur, pageLim, cursor, until);
            if dur.None? || dur.value <= 0 || until <= cursor then limit == pageLim
            else (limit - 2) * dur.value <= until - cursor && (limit < pageLim ==> until - cursor < (limit - 1) * dur.value)
  {
    if dur.Some? && dur.value > 0 && cursor < until {
      AtMostTwoMore(until - cursor, dur.value);
      NoLess(PageLimitFor(dur, pageLim, cursor, until) - 2, (until - cursor) / dur.value, dur.value);
    }
  }

  lemma {:induction false} AtMostTwoMore(window: int, d: int)
    requires d > 0
    ensures (window / d) * d <= window < (window / d + 1) * d
  {
  }

  lemma {:induction false} NoLess(a: int, b: int, d: int)
    requires a <= b && d > 0
    ensures a * d <= b * d
  {
  }

  /** How a stream ends. */
  datatype Ending = Finished | RequestFailed | Refused

  /** Where the stream stands: everything wanted before position `at` has been delivered. */
  ghost predicate Delivered(src: seq<Kline>, since: int, until: int, closedBefore: int, at: nat, out: seq<Kline>) {
    at <= |src| && out == Rows(src, since, until, closedBefore, 0, at)
  }

  lemma {:induction false} DeliverPage(src: seq<Kline>, since: int, until: int, closedBefore: int, at: nat, out: seq<Kline>, next: nat)
    requires Delivered(src, since, until, closedBefore, at, out) && at <= next <= |src|
    ensures Delivered(src, since, until, closedBefore, next,
                      out + Rows(src[at..next], since, until, closedBefore, 0, next - at))
  {
    RowsOfSlice(src, since, until, closedBefore, at, next, next - at);
    RowsJoin(src, since, until, closedBefore, 0, at, next);
  }

  /** When only bars outside the window are left, all of it has been delivered. */
  lemma {:induction false} AllDelivered(src: seq<Kline>, since: int, until: int, closedBefore: int, at: nat, out: seq<Kline>)
    requires Ascending(src) && Delivered(src, since, until, closedBefore, at, out) && Below(src, until) <= at
    ensures out == Rows(src, since, until, closedBefore, 0, |src|)
  {
    forall n: nat | at <= n < |src| ensures src[n].stamp >= until { assert Stamp(src, n) >= until; }
    NoRows(src, since, until, closedBefore, at, |src|);
    RowsJoin(src, since, until, closedBefore, 0, at, |src|);
  }

  lemma {:induction false} PrefixDelivered(src: seq<Kline>, since: int, until: int, closedBefore: int, at: nat, out: seq<Kline>)
    requires Delivered(src, since, until, closedBefore, at, out)
    ensures out <= Rows(src, since, until, closedBefore, 0, |src|)
  {
    RowsJoin(src, since, until, closedBefore, 0, at, |src|);
  }

  /** No two bars open less than one interval apart. */
  ghost predicate Spaced(src: seq<Kline>, dur: Option<int>) {
    && dur.Some? && dur.value > 0
    && forall i: nat, j: nat {:trigger Stamp(src, i), Stamp(src, j)} :: i < j < |src| ==>
         Stamp(src, j) - Stamp(src, i) >= (j - i) * dur.value
  }

  lemma {:induction false} Fewer(a: int, b: int, d: int)
    requires d > 0 && a * d < b * d
    ensures a < b
  {
  }

  /** Bars that begin a length apart within a window are no more than fit it. */
  lemma {:induction false} AtMostFit(n: nat, d: int, window: int)
    requires d > 0 && (n - 1) * d <= window
    ensures n < window / d + 2
  {
    var q := window / d;
    assert window < (q + 1) * d;
    Fewer(n - 1, q + 1, d);
  }

  /** A request for all that is needed asks for more bars than can be there, so its page is short; a full one was cut to a page. */
  lemma {:induction false} SizedIsLast(src: seq<Kline>, dur: Option<int>, pageLim: nat, cursor: int, until: int, n: nat)
    requires Ascending(src) && Spaced(src, dur) && pageLim > 0 && cursor < until
    requires Below(src, cursor) + n <= Below(src, until + 1)
    requires n == PageLimitFor(dur, pageLim, cursor, until)
    ensures n == pageLim < Need(dur.value, cursor, until)
  {
    var from, d := Below(src, cursor), dur.value;
    assert Stamp(src, from + n - 1) - Stamp(src, from) >= (n - 1) * d;
    assert Stamp(src, from) >= cursor && Stamp(src, from + n - 1) < until + 1;
    AtMostFit(n, d, until - cursor);
  }

  /** One turn of the loop: a page is read, filtered and ready to be delivered. */
  method Turn(src: seq<Kline>, dur: Option<int>, pageLim: nat, since: int, until: int, closedBefore: int,
              cursor: int, out: seq<Kline>, ghost at: nat)
    returns (limit: nat, page: seq<Kline>, batch: seq<Kline>)
    requires Ascending(src) && pageLim > 0 && since <= cursor < until
    requires at == Below(src, cursor) && Delivered(src, since, until, closedBefore, at, out)
    ensures limit == PageLimitFor(dur, pageLim, cursor, until) && |page| <= limit
    ensures Delivered(src, since, until, closedBefore, at + |page|, out + batch)
    ensures page != [] ==> cursor <= page[|page| - 1].stamp && at + |page| == Below(src, page[|page| - 1].stamp + 1)
    ensures |page| < limit ==> Below(src, until) <= at + |page|
    ensures Spaced(src, dur) && |page| == limit ==> limit == pageLim < Need(dur.value, cursor, until)
  {
    limit := PageLimitFor(dur, pageLim, cursor, until);
    page := Page(src, cursor, until, limit);
    batch := Filter(page, since, until, closedBefore);
    DeliverPage(src, since, until, closedBefore, at, out, at + |page|);
    BelowOrdered(src, until, until + 1);
    if page != [] {
      AfterPage(src, cursor, at + |page| - 1);
    }
    if Spaced(src, dur) && |page| == limit {
      SizedIsLast(src, dur, pageLim, cursor, until, limit);
    }
  }

  lemma {:induction false} AfterPage(src: seq<Kline>, cursor: int, last: nat)
    requires Ascending(src) && Below(src, cursor) <= last < |src|
    ensures cursor <= src[last].stamp && Below(src, src[last].stamp + 1) == last + 1
  {
    assert Stamp(src, last) >= cursor;
    var n := Below(src, src[last].stamp + 1);
    assert last < n;
    assert last + 1 < |src| ==> Stamp(src, last) < Stamp(src, last + 1);
  }

  /** Every request but the last asked for a whole page and got one. */
  ghost predicate FullPages(limits: seq<nat>, pageLim: nat, n: int) {
    forall k :: 0 <= k < n && k < |limits| ==> limits[k] == pageLim
  }

  /** The batches handed on, one after the other. */
  ghost function Joined(batches: seq<seq<Kline>>): seq<Kline> {
    if batches == [] then [] else Joined(batches[..|batches| - 1]) + batches[|batches| - 1]
  }

  /** Each batch handed on holds a bar, and was taken by the consumer. */
  ghost predicate HandedOn(batches: seq<seq<Kline>>, out: seq<Kline>, refuse: nat -> bool) {
    forall u {:trigger Unfold(u)} :: Unfold(u) ==>
      out == Joined(batches) && forall k :: 0 <= k < |batches| ==> batches[k] != [] && !refuse(k)
  }

  lemma {:induction false} OneMoreBatch(batches: seq<seq<Kline>>, out: seq<Kline>, refuse: nat -> bool, batch: seq<Kline>)
    requires HandedOn(batches, out, refuse) && batch != [] && !refuse(|batches|)
    ensures HandedOn(batches + [batch], out + batch, refuse)
  {
    assert Unfold(0) && (batches + [batch])[..|batches|] == batches;
  }

  /** Hands a batch on, if it holds a bar. */
  method HandOn(batch: seq<Kline>, refuse: nat -> bool, handed: nat, ghost batches: seq<seq<Kline>>, ghost out: seq<Kline>)
    returns (ok: bool, handed': nat, ghost batches': seq<seq<Kline>>)
    requires HandedOn(batches, out, refuse) && handed == |batches|
    ensures handed' == |batches'|
    ensures if ok then HandedOn(batches', out + batch, refuse) else batches' == batches && refuse(|batches|) && batch != []
  {
    ok, handed', batches' := true, handed, batches;
    if |batch| > 0 {
      if refuse(handed) {
        ok := false;
        return;
      }
      OneMoreBatch(batches, out, refuse, batch);
      handed', batches' := handed + 1, batches + [batch];
    } else {
      assert out + batch == out;
    }
  }

  /** How a stream ended, in terms of the requests answered and the batches handed on. */
  ghost predicate EndsAs(ending: Ending, answered: nat, fault: nat -> bool, handed: nat, refuse: nat -> bool) {
    && (forall k :: 0 <= k < answered ==> !fault(k))
    && (ending.RequestFailed? ==> fault(answered))
    && (ending.Refused? ==> refuse(handed))
  }

  lemma {:induction false} NothingBefore(src: seq<Kline>, since: int, until: int, closedBefore: int)
    requires Ascending(src)
    ensures Delivered(src, since, until, closedBefore, Below(src, since), [])
  {
    forall n: nat | n < Below(src, since) ensures src[n].stamp < since { assert Stamp(src, n) < since; }
    NoRows(src, since, until, closedBefore, 0, Below(src, since));
  }

  /**
   Streams the closed bars of [since, until) in batches. `fault(k)` is whether the k-th
   request fails, `refuse(k)` whether the consumer refuses the k-th batch. A finished
   stream has delivered exactly the wanted bars; any other has delivered a prefix. One
   request is enough whenever the bars of the window fit a page.
   */
  method FetchStream(src: seq<Kline>, dur: Option<int>, pageLim: nat, since: int, until: int, closedBefore: int,
                     fault: nat -> bool, refuse: nat -> bool)
    returns (ending: Ending, out: seq<Kline>, ghost limits: seq<nat>, ghost batches: seq<seq<Kline>>)
    requires Ascending(src) && pageLim > 0
    ensures var all := Rows(src, since, until, closedBefore, 0, |src|);
            out <= all && (ending.Finished? ==> out == all)
    ensures (forall k :: !fault(k)) && (forall k :: !refuse(k)) ==> ending.Finished?
    ensures HandedOn(batches, out, refuse) && EndsAs(ending, |limits|, fault, |batches|, refuse)
    ensures Spaced(src, dur) ==> FullPages(limits, pageLim, |limits| - 1)
    ensures Spaced(src, dur) && Need(dur.value, since, until) <= pageLim ==> |limits| <= 1
  {
    out, limits, batches := [], [], [];
    var cursor, requests, handed := since, 0, 0;
    ghost var at := Below(src, since);
    NothingBefore(src, since, until, closedBefore);
    assert HandedOn([], [], refuse);
    while cursor < until
      invariant cursor >= since && at == Below(src, cursor)
      invariant Delivered(src, since, until, closedBefore, at, out)
      invariant HandedOn(batches, out, refuse) && handed == |batches| && requests == |limits|
      invariant forall k :: 0 <= k < requests ==> !fault(k)
      invariant Spaced(src, dur) ==> FullPages(limits, pageLim, |limits|)
      invariant limits == [] ==> cursor == since
      invariant Spaced(src, dur) && Need(dur.value, since, until) <= pageLim ==> limits == []
      decreases until - cursor
    {
      if fault(requests) {
        PrefixDelivered(src, since, until, closedBefore, at, out);
        return RequestFailed, out, limits, batches;
      }
      requests := requests + 1;
      var limit, page, batch := Turn(src, dur, pageLim, since, until, closedBefore, cursor, out, at);
      limits := limits + [limit];
      var ok;
      ok, handed, batches := HandOn(batch, refuse, handed, batches, out);
      if !ok {
        PrefixDelivered(src, since, until, closedBefore, at, out);
        return Refused, out, limits, batches;
      }
      out, at := out + batch, at + |page|;
      if |page| == 0 {
        AllDelivered(src, since, until, closedBefore, at, out);
        return Finished, out, limits, batches;
      }
      cursor := page[|page| - 1].stamp + 1;
      if |page| < limit {
        AllDelivered(src, since, until, closedBefore, at, out);
        return Finished, out, limits, batches;
      }
    }
    BelowOrdered(src, until, cursor);
    AllDelivered(src, since, until, closedBefore, at, out);
    ending := Finished;
  }
}
