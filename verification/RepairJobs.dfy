/**
 The fetch jobs of one repair request (process and processInterval in
 internal/backfill/backfill.go): keys are grouped by interval, every range of a key is
 one job, and jobs are started one after the other until the context ends.
 */
module RepairJobs {
  import opened Options
  import opened WindowGate

  /** One range to repair: the `i`-th range asked for on a key. */
  datatype Job = Job(key: Key, i: nat)

  function KeyAt(ks: seq<Key>, i: nat): Key
    requires i < |ks|
  {
    ks[i]
  }

  ghost predicate Distinct(ks: seq<Key>) {
    forall i: nat, j: nat {:trigger KeyAt(ks, i), KeyAt(ks, j)} :: i < j < |ks| ==> KeyAt(ks, i) != KeyAt(ks, j)
  }

  function JobAt(jobs: seq<Job>, a: nat): Job
    requires a < |jobs|
  {
    jobs[a]
  }

  ghost predicate NoRepeats(jobs: seq<Job>) {
    forall a: nat, b: nat {:trigger JobAt(jobs, a), JobAt(jobs, b)} :: a < b < |jobs| ==> JobAt(jobs, a) != JobAt(jobs, b)
  }

  /** The range is one that was asked for. */
  predicate Asked(ranges: map<Key, nat>, j: Job) {
    j.key in ranges && j.i < ranges[j.key]
  }

  /** `jobs` lists every range asked for on a key of the request, each once, and nothing else. */
  ghost predicate Lists(jobs: seq<Job>, own: seq<Key>, ranges: map<Key, nat>) {
    NoRepeats(jobs) && forall j :: j in jobs <==> j.key in own && Asked(ranges, j)
  }

  lemma {:induction false} OneMoreJob(jobs: seq<Job>, j: Job)
    requires NoRepeats(jobs) && j !in jobs
    ensures NoRepeats(jobs + [j])
  {
    var more := jobs + [j];
    forall a: nat, b: nat {:trigger JobAt(more, a), JobAt(more, b)} | a < b < |more| ensures JobAt(more, a) != JobAt(more, b) {
      assert JobAt(jobs, a) in jobs;
      assert b < |jobs| ==> JobAt(jobs, b) == JobAt(more, b);
    }
  }

  // ---------------------------------------------------------------- grouping

  /** The symbols of the first `n` keys that have this interval, in order. */
  function SymbolsOf(own: seq<Key>, n: nat, iv: string): seq<string>
    requires n <= |own|
  {
    if n == 0 then []
    else SymbolsOf(own, n - 1, iv) + if own[n - 1].interval == iv then [own[n - 1].symbol] else []
  }

  lemma {:induction false} SymbolsExact(own: seq<Key>, n: nat, iv: string, sym: string)
    requires n <= |own|
    ensures sym in SymbolsOf(own, n, iv) <==> exists i: nat :: i < n && own[i] == Key(sym, iv)
  {
    if n > 0 {
      SymbolsExact(own, n - 1, iv, sym);
      assert own[n - 1] == Key(own[n - 1].symbol, own[n - 1].interval);
    }
  }

  /** Distinct keys of one interval have distinct symbols. */
  lemma {:induction false} SymbolIsNew(own: seq<Key>, n: nat)
    requires Distinct(own) && n < |own|
    ensures own[n].symbol !in SymbolsOf(own, n, own[n].interval)
  {
    SymbolsExact(own, n, own[n].interval, own[n].symbol);
    forall i: nat | i < n ensures own[i] != own[n] {
      assert KeyAt(own, i) != KeyAt(own, n);
    }
  }

  /** The first `n` keys by interval. */
  ghost predicate Grouped(own: seq<Key>, n: nat, byIv: map<string, seq<string>>)
    requires n <= |own|
  {
    forall iv :: SymbolsOf(own, n, iv) == (if iv in byIv then byIv[iv] else []) && (iv in byIv ==> byIv[iv] != [])
  }

  function AddSymbol(byIv: map<string, seq<string>>, k: Key): map<string, seq<string>> {
    byIv[k.interval := (if k.interval in byIv then byIv[k.interval] else []) + [k.symbol]]
  }

  lemma {:induction false} GroupOne(own: seq<Key>, n: nat, byIv: map<string, seq<string>>)
    requires n < |own| && Grouped(own, n, byIv)
    ensures Grouped(own, n + 1, AddSymbol(byIv, own[n]))
  {
    forall iv
      ensures SymbolsOf(own, n + 1, iv) == if iv in AddSymbol(byIv, own[n]) then AddSymbol(byIv, own[n])[iv] else []
      ensures iv in AddSymbol(byIv, own[n]) ==> AddSymbol(byIv, own[n])[iv] != []
    {
      assert SymbolsOf(own, n, iv) == if iv in byIv then byIv[iv] else [];
      assert SymbolsOf(own, n, iv) + [] == SymbolsOf(own, n, iv);
    }
  }

  /** The keys by interval. */
  method GroupByInterval(own: seq<Key>) returns (byIv: map<string, seq<string>>)
    ensures Grouped(own, |own|, byIv)
  {
    byIv := map[];
    for n := 0 to |own|
      invariant Grouped(own, n, byIv)
    {
      GroupOne(own, n, byIv);
      var iv := own[n].interval;
      byIv := byIv[iv := (if iv in byIv then byIv[iv] else []) + [own[n].symbol]];
    }
  }

  // ---------------------------------------------------------------- the jobs of an interval

  function RangesOf(ranges: map<Key, nat>, k: Key): nat {
    if k in ranges then ranges[k] else 0
  }

  /** Adds the jobs of one key, none of which is listed yet. */
  method AddKey(before: seq<Job>, k: Key, count: nat) returns (jobs: seq<Job>)
    requires NoRepeats(before) && forall j :: j in before ==> j.key != k
    ensures NoRepeats(jobs) && forall j :: j in jobs <==> j in before || (j.key == k && j.i < count)
  {
    jobs := before;
    for i := 0 to count
      invariant NoRepeats(jobs) && forall j :: j in jobs <==> j in before || (j.key == k && j.i < i)
    {
      OneMoreJob(jobs, Job(k, i));
      jobs := jobs + [Job(k, i)];
    }
  }

  /** The keys of the first `n` intervals. */
  function KeysIn(own: seq<Key>, order: seq<string>, n: nat): set<Key>
    requires n <= |order|
  {
    set k | k in own && k.interval in order[..n]
  }

  /** The keys of the first `n` symbols of an interval. */
  function KeysOf(symbols: seq<string>, iv: string, n: nat): set<Key>
    requires n <= |symbols|
  {
    set sym | sym in symbols[..n] :: Key(sym, iv)
  }

  /** `jobs` lists the ranges of these keys, each once. */
  ghost predicate ListsSet(jobs: seq<Job>, keys: set<Key>, ranges: map<Key, nat>) {
    NoRepeats(jobs) && forall j :: j in jobs <==> j.key in keys && Asked(ranges, j)
  }

  /** The jobs of one interval, added to those of the intervals before it. */
  method PlanInterval(before: seq<Job>, iv: string, symbols: seq<string>, ranges: map<Key, nat>, ghost keys: set<Key>)
    returns (jobs: seq<Job>)
    requires ListsSet(before, keys, ranges)
    requires forall n: nat :: n < |symbols| ==> Key(symbols[n], iv) !in keys
    requires DistinctStrings(symbols)
    ensures ListsSet(jobs, keys + KeysOf(symbols, iv, |symbols|), ranges)
  {
    var repair: map<string, nat> := map sym | sym in symbols :: RangesOf(ranges, Key(sym, iv));
    jobs := before;
    for n := 0 to |symbols|
      invariant ListsSet(jobs, keys + KeysOf(symbols, iv, n), ranges)
    {
      var sym := symbols[n];
      assert symbols[..n + 1] == symbols[..n] + [sym] && sym !in symbols[..n];
      jobs := AddKey(jobs, Key(sym, iv), repair[sym]);
    }
    assert symbols[..|symbols|] == symbols;
  }

  /** The first `n` intervals of `order` are planned. */
  ghost predicate Planned(jobs: seq<Job>, own: seq<Key>, ranges: map<Key, nat>, order: seq<string>, n: nat)
    requires n <= |order|
  {
    ListsSet(jobs, KeysIn(own, order, n), ranges)
  }

  ghost predicate DistinctStrings(s: seq<string>) {
    forall a: nat, b: nat :: a < b < |s| ==> s[a] != s[b]
  }

  lemma {:induction false} OneMoreSymbol(s: seq<string>, x: string)
    requires DistinctStrings(s) && x !in s
    ensures DistinctStrings(s + [x])
  {
  }

  lemma {:induction false} DistinctSymbols(own: seq<Key>, n: nat, iv: string)
    requires Distinct(own) && n <= |own|
    ensures DistinctStrings(SymbolsOf(own, n, iv))
  {
    if n > 0 {
      DistinctSymbols(own, n - 1, iv);
      if own[n - 1].interval == iv {
        SymbolIsNew(own, n - 1);
        OneMoreSymbol(SymbolsOf(own, n - 1, iv), own[n - 1].symbol);
      }
    }
  }

  lemma {:induction false} IntervalKeys(own: seq<Key>, order: seq<string>, n: nat)
    requires n < |order| && order[n] !in order[..n]
    ensures var symbols := SymbolsOf(own, |own|, order[n]);
            && KeysIn(own, order, n + 1) == KeysIn(own, order, n) + KeysOf(symbols, order[n], |symbols|)
            && (forall m: nat :: m < |symbols| ==> Key(symbols[m], order[n]) !in KeysIn(own, order, n))
  {
    var symbols := SymbolsOf(own, |own|, order[n]);
    assert order[..n + 1] == order[..n] + [order[n]];
    forall sym ensures sym in symbols <==> Key(sym, order[n]) in own {
      SymbolsExact(own, |own|, order[n], sym);
    }
    assert symbols[..|symbols|] == symbols;
    forall k ensures k in KeysOf(symbols, order[n], |symbols|) <==> k in own && k.interval == order[n] {
      assert k.interval == order[n] ==> k == Key(k.symbol, order[n]);
    }
    SameSet(KeysIn(own, order, n + 1), KeysIn(own, order, n) + KeysOf(symbols, order[n], |symbols|));
  }

  /**
   The jobs of a request, interval by interval; `order` is the order in which the map of
   intervals is walked. They are exactly the ranges asked for on its keys, each once.
   */
  method PlanJobs(own: seq<Key>, ranges: map<Key, nat>, order: seq<string>) returns (jobs: seq<Job>)
    requires Distinct(own)
    requires forall a: nat :: a < |order| ==> order[a] !in order[..a]
    requires forall k :: k in own ==> k.interval in order
    ensures Lists(jobs, own, ranges)
    ensures forall j :: j in jobs <==> j.key in own && j.key in ranges && j.i < ranges[j.key]
  {
    var byIv := GroupByInterval(own);
    jobs := [];
    for n := 0 to |order|
      invariant Planned(jobs, own, ranges, order, n)
    {
      var iv := order[n];
      IntervalKeys(own, order, n);
      DistinctSymbols(own, |own|, iv);
      var symbols := if iv in byIv then byIv[iv] else [];
      jobs := PlanInterval(jobs, iv, symbols, ranges, KeysIn(own, order, n));
    }
    assert order[..|order|] == order;
  }

  /**
   Starts the jobs of one interval; `ended(k)` is whether the context has ended when the
   k-th is tried. No job is left out but by a context that has ended.
   */
  method Launch(jobs: seq<Job>, ended: nat -> bool) returns (started: seq<Job>)
    ensures started <= jobs && (started != jobs ==> ended(|started|))
    ensures forall k :: 0 <= k < |started| ==> !ended(k)
  {
    started := [];
    for k := 0 to |jobs|
      invariant started == jobs[..k] && forall j :: 0 <= j < k ==> !ended(j)
    {
      if ended(k) {
        return;
      }
      started := started + [jobs[k]];
    }
  }
}
