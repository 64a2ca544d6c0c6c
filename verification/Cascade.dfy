/**
 The ready events of coarser intervals (publishDerived in internal/dispatcher/aggregator.go
 and New's filter of serve intervals in dispatcher.go): each rides on the base section
 that closes its bucket. Times and lengths are milliseconds.
 */
module Cascade {
  import opened Aggregator
  import opened Multiples
  import opened Options

  datatype Derived = Derived(name: string, ms: int)

  /** One derived event: the interval, the start of its bucket, the base section's count. */
  datatype Ready = Ready(name: string, start: int, count: nat)

  /** What New keeps of the serve intervals: those longer than the base and made of whole base bars. */
  predicate Derivable(ms: Option<int>, baseMs: int)
    requires baseMs > 0
  {
    ms.Some? && ms.value > baseMs && ms.value % baseMs == 0
  }

  /** `lengths[i]` is what parsing the i-th interval gives, None when it does not parse. */
  method FilterIntervals(names: seq<string>, lengths: seq<Option<int>>, baseMs: int) returns (derived: seq<Derived>)
    requires |names| == |lengths| && baseMs > 0
    ensures forall d :: d in derived <==>
      && d.ms > baseMs && d.ms % baseMs == 0
      && exists i: nat :: i < |names| && names[i] == d.name && lengths[i] == Some(d.ms)
  {
    derived := [];
    for n := 0 to |names|
      invariant forall d :: d in derived <==>
        exists i: nat :: i < n && Derivable(lengths[i], baseMs) && d == Derived(names[i], lengths[i].value)
    {
      if lengths[n].None? || lengths[n].value <= baseMs || lengths[n].value % baseMs != 0 {
        continue;
      }
      derived := derived + [Derived(names[n], lengths[n].value)];
    }
  }

  /** The base bar at `t` closes a bucket of the interval: (t + baseMs) % d.ms == 0. */
  ghost predicate Closes(t: int, baseMs: int, d: Derived)
    requires d.ms > 0
  {
    forall u {:trigger Unfold(u)} :: Unfold(u) ==> (t + baseMs) % d.ms == 0
  }

  /** The event of one interval, if the base bar at `t` closes a bucket of it. */
  ghost function EventOf(t: int, count: nat, baseMs: int, d: Derived): seq<Ready>
    requires d.ms > 0
  {
    if Closes(t, baseMs, d) then [Ready(d.name, t + baseMs - d.ms, count)] else []
  }

  /** The events one base bar at `t` carries, in the order of the first `n` derived intervals. */
  ghost function CascadeOf(t: int, count: nat, baseMs: int, derived: seq<Derived>, n: nat): seq<Ready>
    requires n <= |derived| && forall d :: d in derived ==> d.ms > 0
  {
    if n == 0 then []
    else
      assert derived[n - 1] in derived;
      CascadeOf(t, count, baseMs, derived, n - 1) + EventOf(t, count, baseMs, derived[n - 1])
  }

  /**
   Attempts the events of one base bar. `closed(k)` is whether shutdown is seen before
   the k-th attempt; a failed attempt does not stop the others.
   */
  method PublishDerived(t: int, count: nat, baseMs: int, derived: seq<Derived>, closed: nat -> bool)
    returns (attempted: seq<Ready>)
    requires forall d :: d in derived ==> d.ms > 0
    ensures attempted <= CascadeOf(t, count, baseMs, derived, |derived|)
    ensures (forall k :: !closed(k)) ==> attempted == CascadeOf(t, count, baseMs, derived, |derived|)
    ensures attempted != CascadeOf(t, count, baseMs, derived, |derived|) ==> closed(|attempted|)
    ensures forall k: nat :: k < |attempted| ==> !closed(k)
  {
    attempted := [];
    for n := 0 to |derived|
      invariant attempted == CascadeOf(t, count, baseMs, derived, n) && forall k: nat :: k < |attempted| ==> !closed(k)
    {
      var d := derived[n];
      assert d in derived && Unfold(0);
      if (t + baseMs) % d.ms != 0 {
        continue;
      }
      if closed(|attempted|) {
        CascadeGrows(t, count, baseMs, derived, n, |derived|);
        return;
      }
      attempted := attempted + [Ready(d.name, t + baseMs - d.ms, count)];
    }
  }

  lemma {:induction false} CascadeGrows(t: int, count: nat, baseMs: int, derived: seq<Derived>, n: nat, m: nat)
    requires n <= m <= |derived| && forall d :: d in derived ==> d.ms > 0
    ensures CascadeOf(t, count, baseMs, derived, n) <= CascadeOf(t, count, baseMs, derived, m)
    decreases m
  {
    if n < m {
      CascadeGrows(t, count, baseMs, derived, n, m - 1);
    }
  }

  /** One base bar carries the event of an interval exactly if it closes a bucket of it, which began one length before. */
  lemma {:induction false} CascadeHas(t: int, count: nat, baseMs: int, derived: seq<Derived>, n: nat, r: Ready)
    requires n <= |derived| && forall d :: d in derived ==> d.ms > 0
    ensures r in CascadeOf(t, count, baseMs, derived, n) <==>
      exists i: nat :: i < n && IsEventOf(derived[i], t, count, baseMs, r)
  {
    if n > 0 {
      CascadeHas(t, count, baseMs, derived, n - 1, r);
      var d := derived[n - 1];
      assert d in derived && Unfold(0);
      MultipleIsModZero(t + baseMs, d.ms);
      MultipleShift(t + baseMs, d.ms);
    }
  }

  /** The bucket starts on a multiple of its length and ends with the base bar at `t`. */
  ghost predicate IsEventOf(d: Derived, t: int, count: nat, baseMs: int, r: Ready) {
    r.name == d.name && r.count == count && Multiple(r.start, d.ms) && r.start + d.ms == t + baseMs
  }

  // ---------------------------------------------------------------- over the whole log

  /** A base publish that went out: only these carry derived events. */
  predicate Carries(em: Emission, base: string) {
    em.outcome == Sent && em.key.interval == base
  }

  /** The derived events attempted after the first `n` publishes. */
  ghost function CascadeLog(log: seq<Emission>, base: string, baseMs: int, derived: seq<Derived>, n: nat): seq<Ready>
    requires n <= |log| && forall d :: d in derived ==> d.ms > 0
  {
    if n == 0 then []
    else
      CascadeLog(log, base, baseMs, derived, n - 1)
      + if Carries(log[n - 1], base) then CascadeOf(log[n - 1].key.openTime, log[n - 1].count, baseMs, derived, |derived|) else []
  }

  /**
   The derived events are exactly those of a base section that was published with an id
   and closes one of their buckets.
   */
  lemma {:induction false} CascadeIsExact(log: seq<Emission>, base: string, baseMs: int, derived: seq<Derived>, n: nat, r: Ready)
    requires n <= |log| && forall d :: d in derived ==> d.ms > 0
    ensures r in CascadeLog(log, base, baseMs, derived, n) <==>
      exists a: nat, i: nat :: a < n && i < |derived| && log[a].outcome == Sent && log[a].key.interval == base
        && IsEventOf(derived[i], log[a].key.openTime, log[a].count, baseMs, r)
  {
    if n > 0 {
      CascadeIsExact(log, base, baseMs, derived, n - 1, r);
      CascadeHas(log[n - 1].key.openTime, log[n - 1].count, baseMs, derived, |derived|, r);
    }
  }

  ghost predicate DistinctNames(derived: seq<Derived>) {
    forall i: nat, j: nat :: i < j < |derived| ==> derived[i].name != derived[j].name
  }

  ghost predicate DistinctTimes(log: seq<Emission>, base: string) {
    forall a: nat, b: nat :: a < b < |log| && Carries(log[a], base) && Carries(log[b], base) ==>
      log[a].key.openTime != log[b].key.openTime
  }

  /** How often an event is attempted. */
  function Times(s: seq<Ready>, r: Ready): nat {
    if s == [] then 0 else Times(s[..|s| - 1], r) + if s[|s| - 1] == r then 1 else 0
  }

  lemma {:induction false} TimesIn(s: seq<Ready>, r: Ready)
    ensures Times(s, r) > 0 <==> r in s
  {
    if s != [] {
      TimesIn(s[..|s| - 1], r);
      assert s == s[..|s| - 1] + [s[|s| - 1]];
    }
  }

  lemma {:induction false} TimesAdd(a: seq<Ready>, b: seq<Ready>, r: Ready)
    ensures Times(a + b, r) == Times(a, r) + Times(b, r)
    decreases |b|
  {
    if b == [] {
      assert a + b == a;
    } else {
      TimesAdd(a, b[..|b| - 1], r);
      assert (a + b)[..|a + b| - 1] == a + b[..|b| - 1];
    }
  }

  lemma {:induction false} OnceInBoth(a: seq<Ready>, b: seq<Ready>, r: Ready)
    requires Times(a, r) <= 1 && Times(b, r) <= 1 && (r in a ==> r !in b)
    ensures Times(a + b, r) <= 1
  {
    TimesIn(a, r);
    TimesIn(b, r);
    TimesAdd(a, b, r);
  }

  lemma {:induction false} NamedAfter(t: int, count: nat, baseMs: int, derived: seq<Derived>, n: nat, r: Ready)
    requires n <= |derived| && (forall d :: d in derived ==> d.ms > 0) && r in CascadeOf(t, count, baseMs, derived, n)
    ensures exists i: nat :: i < n && derived[i].name == r.name
  {
    if n > 0 {
      assert derived[n - 1] in derived;
      NamedAlike(t, count, baseMs, derived[n - 1], r);
    }
    if n > 0 && r in CascadeOf(t, count, baseMs, derived, n - 1) {
      NamedAfter(t, count, baseMs, derived, n - 1, r);
    }
  }

  lemma {:induction false} OncePerBar(t: int, count: nat, baseMs: int, derived: seq<Derived>, n: nat, r: Ready)
    requires n <= |derived| && DistinctNames(derived) && forall d :: d in derived ==> d.ms > 0
    ensures Times(CascadeOf(t, count, baseMs, derived, n), r) <= 1
  {
    if n > 0 {
      OncePerBar(t, count, baseMs, derived, n - 1, r);
      if r in CascadeOf(t, count, baseMs, derived, n - 1) {
        NamedAfter(t, count, baseMs, derived, n - 1, r);
      }
      NamedAlike(t, count, baseMs, derived[n - 1], r);
      OnceInBoth(CascadeOf(t, count, baseMs, derived, n - 1), EventOf(t, count, baseMs, derived[n - 1]), r);
    }
  }

  lemma {:induction false} NamedAlike(t: int, count: nat, baseMs: int, d: Derived, r: Ready)
    requires d.ms > 0
    ensures Times(EventOf(t, count, baseMs, d), r) <= 1
    ensures r in EventOf(t, count, baseMs, d) ==> r.name == d.name
  {
  }

  /** What one more base publish adds is new. */
  lemma {:induction false} OneBarMore(log: seq<Emission>, base: string, baseMs: int, derived: seq<Derived>, n: nat, r: Ready)
    requires 0 < n <= |log| && DistinctNames(derived) && DistinctTimes(log, base) && forall d :: d in derived ==> d.ms > 0
    requires Carries(log[n - 1], base) && Times(CascadeLog(log, base, baseMs, derived, n - 1), r) <= 1
    ensures Times(CascadeLog(log, base, baseMs, derived, n - 1)
                  + CascadeOf(log[n - 1].key.openTime, log[n - 1].count, baseMs, derived, |derived|), r) <= 1
  {
    OncePerBar(log[n - 1].key.openTime, log[n - 1].count, baseMs, derived, |derived|, r);
    if r in CascadeLog(log, base, baseMs, derived, n - 1) {
      NotAgain(log, base, baseMs, derived, n, r);
    }
    OnceInBoth(CascadeLog(log, base, baseMs, derived, n - 1),
               CascadeOf(log[n - 1].key.openTime, log[n - 1].count, baseMs, derived, |derived|), r);
  }

  /** Each of them once, as long as no base section was published twice. */
  lemma {:induction false} CascadeIsOnce(log: seq<Emission>, base: string, baseMs: int, derived: seq<Derived>, n: nat, r: Ready)
    requires n <= |log| && DistinctNames(derived) && DistinctTimes(log, base) && forall d :: d in derived ==> d.ms > 0
    ensures Times(CascadeLog(log, base, baseMs, derived, n), r) <= 1
  {
    if n > 0 {
      CascadeIsOnce(log, base, baseMs, derived, n - 1, r);
      if Carries(log[n - 1], base) {
        OneBarMore(log, base, baseMs, derived, n, r);
      } else {
        assert CascadeLog(log, base, baseMs, derived, n - 1) + [] == CascadeLog(log, base, baseMs, derived, n - 1);
      }
    }
  }

  /** An event names its interval and its bucket, so only one base bar can carry it. */
  lemma {:induction false} NotAgain(log: seq<Emission>, base: string, baseMs: int, derived: seq<Derived>, n: nat, r: Ready)
    requires 0 < n <= |log| && DistinctNames(derived) && DistinctTimes(log, base) && forall d :: d in derived ==> d.ms > 0
    requires Carries(log[n - 1], base) && r in CascadeLog(log, base, baseMs, derived, n - 1)
    ensures r !in CascadeOf(log[n - 1].key.openTime, log[n - 1].count, baseMs, derived, |derived|)
  {
    CascadeIsExact(log, base, baseMs, derived, n - 1, r);
    var a: nat, i: nat :| a < n - 1 && i < |derived| && Carries(log[a], base)
      && IsEventOf(derived[i], log[a].key.openTime, log[a].count, baseMs, r);
    CascadeHas(log[n - 1].key.openTime, log[n - 1].count, baseMs, derived, |derived|, r);
    assert log[a].key.openTime != log[n - 1].key.openTime;
    forall j: nat | j < |derived| ensures !IsEventOf(derived[j], log[n - 1].key.openTime, log[n - 1].count, baseMs, r) {
      assert i < j ==> derived[i].name != derived[j].name;
      assert j < i ==> derived[j].name != derived[i].name;
    }
  }

  /** Where one interval's length divides another's, every event of the longer comes with one of the shorter. */
  lemma {:induction false} CoarserCoincides(t: int, count: nat, baseMs: int, derived: seq<Derived>, i: nat, j: nat, r: Ready)
    requires i < |derived| && j < |derived| && forall d :: d in derived ==> d.ms > 0
    requires Multiple(derived[j].ms, derived[i].ms) && IsEventOf(derived[j], t, count, baseMs, r)
    ensures Ready(derived[i].name, r.start + derived[j].ms - derived[i].ms, count) in CascadeOf(t, count, baseMs, derived, |derived|)
  {
    var short, long := derived[i], derived[j];
    var e := Ready(short.name, r.start + long.ms - short.ms, count);
    MultipleOfMultiple(r.start, short.ms, long.ms);
    var k: int, m: int :| r.start == k * short.ms && long.ms == m * short.ms;
    assert e.start == (k + m - 1) * short.ms;
    assert IsEventOf(short, t, count, baseMs, e);
    CascadeHas(t, count, baseMs, derived, |derived|, e);
  }
}
