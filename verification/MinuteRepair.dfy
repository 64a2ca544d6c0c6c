/**
 The repair of one symbol's one-minute bars (run in
 cmd/test-tools/backfill_missing_1m.py). Bars are named by their minute; a kline carries
 the times the exchange gives it, in milliseconds. Unlike the open-interest tool this one
 keeps no list of what it has written: that no bar is written twice rests on disjoint
 request spans and on a fetcher that honours them.
 */
module MinuteRepair {
  import opened Options
  import opened Ranges
  import opened RequestPlan
  import opened SpanPlan
  import RepairSymbol

  /** One kline as fetched; `payload` stands for its prices and volumes. */
  datatype Kline = Kline(open: int, close: int, payload: string)

  function MinuteOf(k: Kline): int {
    k.open / 60_000
  }

  /** The tool's test on milliseconds: some range of whole minutes holds the opening time. */
  predicate OpensIn(k: Kline, rs: seq<Range>) {
    exists r :: r in rs && r.lo * 60_000 <= k.open < r.hi * 60_000
  }

  lemma {:induction false} OpensInIsWanted(k: Kline, rs: seq<Range>)
    ensures OpensIn(k, rs) <==> Wanted(rs, MinuteOf(k))
  {
    if r :| r in rs && r.lo * 60_000 <= k.open < r.hi * 60_000 {
      assert r.Has(MinuteOf(k));
    }
    if r :| r in rs && r.Has(MinuteOf(k)) {
      assert r.lo * 60_000 <= k.open < r.hi * 60_000;
    }
  }

  /** What is kept of a reply: klines of wanted minutes that have closed. */
  predicate Keeps(todo: seq<Range>, now: int, k: Kline) {
    Wanted(todo, MinuteOf(k)) && k.close < now
  }

  function Kept(todo: seq<Range>, now: int, reply: seq<Kline>, n: nat): seq<Kline>
    requires n <= |reply|
  {
    if n == 0 then [] else Kept(todo, now, reply, n - 1) + if Keeps(todo, now, reply[n - 1]) then [reply[n - 1]] else []
  }

  /** Appends what is kept of one reply. */
  method Take(todo: seq<Range>, now: int, reply: seq<Kline>, rows: seq<Kline>) returns (rows': seq<Kline>)
    ensures rows' == rows + Kept(todo, now, reply, |reply|)
  {
    rows' := rows;
    for n := 0 to |reply|
      invariant rows' == rows + Kept(todo, now, reply, n)
    {
      OpensInIsWanted(reply[n], todo);
      if !OpensIn(reply[n], todo) || reply[n].close >= now {
        continue;
      }
      rows' := rows' + [reply[n]];
    }
  }

  // ---------------------------------------------------------------- how often a bar is written

  /** How many of the first `n` klines are of minute `t`. */
  function Times(ks: seq<Kline>, n: nat, t: int): nat
    requires n <= |ks|
  {
    if n == 0 then 0 else Times(ks, n - 1, t) + if MinuteOf(ks[n - 1]) == t then 1 else 0
  }

  /** How many of the first `n` klines are of minute `t` and have closed. */
  function Closed(ks: seq<Kline>, now: int, n: nat, t: int): nat
    requires n <= |ks|
  {
    if n == 0 then 0 else Closed(ks, now, n - 1, t) + if MinuteOf(ks[n - 1]) == t && ks[n - 1].close < now then 1 else 0
  }

  lemma {:induction false} TimesPrefix(a: seq<Kline>, b: seq<Kline>, n: nat, t: int)
    requires n <= |a|
    ensures Times(a + b, n, t) == Times(a, n, t)
  {
    if n > 0 {
      TimesPrefix(a, b, n - 1, t);
    }
  }

  lemma {:induction false} TimesAdd(a: seq<Kline>, b: seq<Kline>, m: nat, t: int)
    requires m <= |b|
    ensures Times(a + b, |a| + m, t) == Times(a, |a|, t) + Times(b, m, t)
  {
    if m == 0 {
      TimesPrefix(a, b, |a|, t);
    } else {
      TimesAdd(a, b, m - 1, t);
      assert (a + b)[|a| + m - 1] == b[m - 1];
    }
  }

  lemma {:induction false} TimesKept(todo: seq<Range>, now: int, reply: seq<Kline>, n: nat, t: int)
    requires n <= |reply|
    ensures var kept := Kept(todo, now, reply, n); Times(kept, |kept|, t) == if Wanted(todo, t) then Closed(reply, now, n, t) else 0
  {
    if n > 0 {
      TimesKept(todo, now, reply, n - 1, t);
      var k, before := reply[n - 1], Kept(todo, now, reply, n - 1);
      if Keeps(todo, now, k) {
        TimesAdd(before, [k], 1, t);
        assert Times([k], 0, t) == 0;
      } else {
        assert before + [] == before;
      }
    }
  }

  /** All of the first `n` requests are answered. */
  ghost predicate AllAnswered(spans: seq<Range>, fetch: Range -> Option<seq<Kline>>, n: nat) {
    n <= |spans| && forall i: nat {:trigger spans[i]} :: i < n ==> fetch(spans[i]).Some?
  }

  /** How many closed klines of minute `t` the first `n` replies hold together. */
  ghost function Returned(spans: seq<Range>, fetch: Range -> Option<seq<Kline>>, now: int, n: nat, t: int): nat
    requires AllAnswered(spans, fetch, n)
  {
    if n == 0 then 0
    else
      var reply := fetch(spans[n - 1]).value;
      Returned(spans, fetch, now, n - 1, t) + Closed(reply, now, |reply|, t)
  }

  /**
   Every wanted minute is written exactly as often as the replies to the first `n` spans
   hold a closed kline of it, and no other minute is.
   */
  ghost predicate WrittenAsReturned(todo: seq<Range>, now: int, spans: seq<Range>, fetch: Range -> Option<seq<Kline>>, n: nat,
                                    rows: seq<Kline>)
    requires AllAnswered(spans, fetch, n)
  {
    forall t :: Times(rows, |rows|, t) == if Wanted(todo, t) then Returned(spans, fetch, now, n, t) else 0
  }

  lemma {:induction false} OneReplyMore(todo: seq<Range>, now: int, spans: seq<Range>, fetch: Range -> Option<seq<Kline>>, n: nat,
                                        rows: seq<Kline>)
    requires AllAnswered(spans, fetch, n) && n < |spans| && fetch(spans[n]).Some?
    requires WrittenAsReturned(todo, now, spans, fetch, n, rows)
    ensures AllAnswered(spans, fetch, n + 1)
    ensures var reply := fetch(spans[n]).value;
            WrittenAsReturned(todo, now, spans, fetch, n + 1, rows + Kept(todo, now, reply, |reply|))
  {
    var reply := fetch(spans[n]).value;
    var kept := Kept(todo, now, reply, |reply|);
    forall t ensures Times(rows + kept, |rows + kept|, t)
                  == if Wanted(todo, t) then Returned(spans, fetch, now, n + 1, t) else 0 {
      TimesKept(todo, now, reply, |reply|, t);
      TimesAdd(rows, kept, |kept|, t);
    }
  }

  /** Fetches the planned spans until a request fails for good; what was kept before is still written. */
  method FetchSpans(todo: seq<Range>, now: int, spans: seq<Range>, fetch: Range -> Option<seq<Kline>>)
    returns (ok: bool, rows: seq<Kline>, ghost n: nat)
    ensures AllAnswered(spans, fetch, n) && WrittenAsReturned(todo, now, spans, fetch, n, rows)
    ensures if ok then n == |spans| else n < |spans| && fetch(spans[n]).None?
  {
    rows, n := [], 0;
    for i := 0 to |spans|
      invariant n == i && AllAnswered(spans, fetch, i) && WrittenAsReturned(todo, now, spans, fetch, i, rows)
    {
      var reply := fetch(spans[i]);
      if reply.None? {
        return false, rows, i;
      }
      OneReplyMore(todo, now, spans, fetch, i, rows);
      rows := Take(todo, now, reply.value, rows);
      n := i + 1;
    }
    ok := true;
  }

  // ---------------------------------------------------------------- a fetcher that honours its span

  /** The exchange's kline of a minute opens in that minute. */
  ghost predicate Coherent(exchange: map<int, Kline>) {
    forall t :: t in exchange ==> MinuteOf(exchange[t]) == t
  }

  /** The reply holds the exchange's klines of the span, each once, and no other. */
  ghost predicate Answers(reply: seq<Kline>, span: Range, exchange: map<int, Kline>) {
    && (forall k :: k in reply ==> span.Has(MinuteOf(k)) && MinuteOf(k) in exchange && k == exchange[MinuteOf(k)])
    && (forall t :: span.Has(t) && t in exchange ==> exchange[t] in reply)
    && (forall a: nat, b: nat :: a < b < |reply| ==> MinuteOf(reply[a]) != MinuteOf(reply[b]))
  }

  ghost predicate Honest(fetch: Range -> Option<seq<Kline>>, exchange: map<int, Kline>) {
    Coherent(exchange) && forall span :: fetch(span).Some? ==> Answers(fetch(span).value, span, exchange)
  }

  /** The exchange has the bar, and it has closed. */
  predicate Available(exchange: map<int, Kline>, now: int, t: int) {
    t in exchange && exchange[t].close < now
  }

  lemma {:induction false} ClosedNone(ks: seq<Kline>, now: int, n: nat, t: int)
    requires n <= |ks| && forall a: nat :: a < n ==> MinuteOf(ks[a]) != t || ks[a].close >= now
    ensures Closed(ks, now, n, t) == 0
  {
    if n > 0 {
      ClosedNone(ks, now, n - 1, t);
    }
  }

  lemma {:induction false} ClosedOne(ks: seq<Kline>, now: int, n: nat, t: int, at: nat)
    requires at < n <= |ks| && MinuteOf(ks[at]) == t && ks[at].close < now
    requires forall a: nat, b: nat :: a < b < |ks| ==> MinuteOf(ks[a]) != MinuteOf(ks[b])
    ensures Closed(ks, now, n, t) == 1
  {
    if at == n - 1 {
      ClosedNone(ks, now, n - 1, t);
    } else {
      ClosedOne(ks, now, n - 1, t, at);
    }
  }

  lemma {:induction false} HonestReply(reply: seq<Kline>, span: Range, exchange: map<int, Kline>, now: int, t: int)
    requires Coherent(exchange) && Answers(reply, span, exchange)
    ensures Closed(reply, now, |reply|, t) == if span.Has(t) && Available(exchange, now, t) then 1 else 0
  {
    if span.Has(t) && Available(exchange, now, t) {
      var at: nat :| at < |reply| && reply[at] == exchange[t];
      ClosedOne(reply, now, |reply|, t, at);
    } else {
      forall a: nat | a < |reply| ensures MinuteOf(reply[a]) != t || reply[a].close >= now {
        assert reply[a] in reply;
      }
      ClosedNone(reply, now, |reply|, t);
    }
  }

  /** Disjoint spans of an honest fetcher return every available bar once. */
  lemma {:induction false} HonestReturns(spans: seq<Range>, fetch: Range -> Option<seq<Kline>>, exchange: map<int, Kline>, now: int,
                                         n: nat, t: int)
    requires Ordered(spans) && AllAnswered(spans, fetch, n) && Honest(fetch, exchange)
    ensures Returned(spans, fetch, now, n, t) == if Wanted(spans[..n], t) && Available(exchange, now, t) then 1 else 0
  {
    if n > 0 {
      HonestReturns(spans, fetch, exchange, now, n - 1, t);
      HonestReply(fetch(spans[n - 1]).value, spans[n - 1], exchange, now, t);
      assert spans[..n] == spans[..n - 1] + [spans[n - 1]];
      WantedMore(spans[..n - 1], spans[n - 1], t);
      if Wanted(spans[..n - 1], t) {
        var i := PieceAt(spans[..n - 1], t);
        assert Hi(spans, i) <= Lo(spans, n - 1);
      }
    }
  }

  // ---------------------------------------------------------------- one symbol

  /** A requested minute that is over and that the table lacks. */
  predicate Missing(gaps: seq<Range>, table: set<int>, now: int, t: int) {
    Wanted(gaps, t) && (t + 1) * 60_000 <= now && t !in table
  }

  /** The missing minutes, and how many minutes of the gaps are over. */
  method FindMissing(gaps: seq<Range>, table: set<int>, now: int, ghost bars: set<int>)
    returns (todo: seq<Range>, requested: int, missing: int)
    requires Separated(gaps) && RepairSymbol.AreBars(bars, gaps)
    ensures Separated(todo) && forall t :: Wanted(todo, t) <==> Wanted(gaps, t) && (t + 1) * 60_000 <= now && t !in table
    ensures requested == |set t | t in bars && (t + 1) * 60_000 <= now|
    ensures missing == |set t | t in bars && (t + 1) * 60_000 <= now && t !in table|
  {
    var last := now / 60_000 - 1;
    var ranges := RepairSymbol.Published(gaps, last, |gaps|);
    RepairSymbol.PublishedIsExact(gaps, last, |gaps|);
    assert gaps[..|gaps|] == gaps;
    todo := [];
    if ranges != [] {
      todo := SubtractPresent(ranges, RepairSymbol.Existing(table, ranges[0].lo, ranges[|ranges| - 1].hi));
    }
    forall t ensures Wanted(todo, t) <==> Missing(gaps, table, now, t) {
      if Wanted(ranges, t) {
        RepairSymbol.WithinEnds(ranges, t);
      }
    }
    requested, missing := Bars(ranges, |ranges|), Bars(todo, |todo|);
    CountIs(ranges, set t | t in bars && (t + 1) * 60_000 <= now);
    CountIs(todo, set t | t in bars && (t + 1) * 60_000 <= now && t !in table);
  }

  /**
   Repairs one symbol. Whatever the fetcher returns, only missing minutes are written. When
   the fetcher honours its spans and no request fails, the minutes written are exactly the
   requested ones that are over, that the table lacks and that the exchange has closed
   klines of, each once.
   */
  method Repair(gaps: seq<Range>, table: set<int>, now: int, fetch: Range -> Option<seq<Kline>>,
                ghost bars: set<int>, ghost exchange: map<int, Kline>)
    returns (ok: bool, rows: seq<Kline>, requested: int, missing: int, ghost spans: seq<Range>, ghost n: nat)
    requires Separated(gaps) && RepairSymbol.AreBars(bars, gaps)
    ensures forall t :: Times(rows, |rows|, t) > 0 ==> Wanted(gaps, t) && (t + 1) * 60_000 <= now && t !in table
    ensures Honest(fetch, exchange) ==> forall t ::
      Times(rows, |rows|, t) <= if Missing(gaps, table, now, t) && t in exchange && exchange[t].close < now then 1 else 0
    ensures Honest(fetch, exchange) && ok ==> forall t ::
      Times(rows, |rows|, t) == if Missing(gaps, table, now, t) && t in exchange && exchange[t].close < now then 1 else 0
    ensures Ordered(spans) && Fit(spans, MAX_LIMIT) && AllAnswered(spans, fetch, n)
    ensures if ok then n == |spans| else n < |spans| && fetch(spans[n]).None?
    ensures forall t :: Times(rows, |rows|, t) == if Missing(gaps, table, now, t) then Returned(spans, fetch, now, n, t) else 0
    ensures requested == |set t | t in bars && (t + 1) * 60_000 <= now|
    ensures missing == |set t | t in bars && (t + 1) * 60_000 <= now && t !in table|
  {
    var todo;
    todo, requested, missing := FindMissing(gaps, table, now, bars);
    SeparatedIsOrdered(todo);
    var plan;
    ghost var pieces;
    plan, pieces := PlanRequests(todo);
    ok, rows, n := FetchSpans(todo, now, plan, fetch);
    spans := plan;
    if Honest(fetch, exchange) {
      forall t ensures Returned(spans, fetch, now, n, t) <= (if Available(exchange, now, t) then 1 else 0)
               ensures ok && Wanted(todo, t) ==> Returned(spans, fetch, now, n, t) == if Available(exchange, now, t) then 1 else 0 {
        HonestReturns(spans, fetch, exchange, now, n, t);
        assert spans[..|spans|] == spans;
      }
    }
  }

  /** A bar of the usual length has closed as soon as its minute is over, so for such bars the closing test drops nothing. */
  lemma {:induction false} OverIsClosed(exchange: map<int, Kline>, now: int, t: int)
    requires t in exchange && t < now / 60_000 && exchange[t].close == (t + 1) * 60_000 - 1
    ensures Available(exchange, now, t)
  {
    assert (t + 1) * 60_000 <= now;
  }

  /** The reply holds the bar twice, or holds it although the span does not. */
  predicate Stray(reply: seq<Kline>, span: Range, now: int, t: int) {
    Closed(reply, now, |reply|, t) >= 2 || (Closed(reply, now, |reply|, t) == 1 && !span.Has(t))
  }

  ghost predicate SomeStray(spans: seq<Range>, fetch: Range -> Option<seq<Kline>>, now: int, n: nat, t: int)
    requires AllAnswered(spans, fetch, n)
  {
    exists i: nat :: i < n && Stray(fetch(spans[i]).value, spans[i], now, t)
  }

  /**
   A bar is written twice only through a reply that holds it twice, or one that holds it
   although it is outside the span that was asked for.
   */
  lemma {:induction false} TwiceNeedsStray(spans: seq<Range>, fetch: Range -> Option<seq<Kline>>, now: int, n: nat, t: int)
    requires Ordered(spans) && AllAnswered(spans, fetch, n) && Returned(spans, fetch, now, n, t) >= 2
    ensures SomeStray(spans, fetch, now, n, t)
  {
    if !SomeStray(spans, fetch, now, n, t) {
      InsideIsOnce(spans, fetch, now, n, t);
    }
  }

  lemma {:induction false} InsideIsOnce(spans: seq<Range>, fetch: Range -> Option<seq<Kline>>, now: int, n: nat, t: int)
    requires Ordered(spans) && AllAnswered(spans, fetch, n) && !SomeStray(spans, fetch, now, n, t)
    ensures Returned(spans, fetch, now, n, t) <= 1
    ensures Returned(spans, fetch, now, n, t) == 1 ==> exists i: nat {:trigger spans[i]} :: i < n && spans[i].Has(t)
  {
    if n > 0 {
      InsideIsOnce(spans, fetch, now, n - 1, t);
      forall i: nat {:trigger spans[i]} | i < n - 1 && spans[i].Has(t) ensures !spans[n - 1].Has(t) {
        assert Hi(spans, i) <= Lo(spans, n - 1);
      }
      assert !Stray(fetch(spans[n - 1]).value, spans[n - 1], now, t);
    }
  }

  /** Such a run: the first reply also holds the one bar of the second span, and that bar is written twice. */
  method StrayIsWrittenTwice(payload: string) returns (ok: bool, rows: seq<Kline>)
    ensures ok && Times(rows, |rows|, 2000) == 2
  {
    var a, b := Kline(0, 59_999, payload), Kline(120_000_000, 120_059_999, payload);
    var fetch: Range -> Option<seq<Kline>> := (span: Range) => if span.lo == 0 then Some([a, b]) else Some([b]);
    var spans := [Range(0, 1), Range(2000, 2001)];
    ghost var n;
    ok, rows, n := FetchSpans(spans, 200_000_000, spans, fetch);
    WantedAt(spans, 1, 2000);
    assert Closed([a, b], 200_000_000, 0, 2000) == 0 && Closed([a, b], 200_000_000, 1, 2000) == 0;
    assert Closed([b], 200_000_000, 0, 2000) == 0;
    assert Returned(spans, fetch, 200_000_000, 0, 2000) == 0 && Returned(spans, fetch, 200_000_000, 1, 2000) == 1;
  }
}
