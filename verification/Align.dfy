/** Optional values and small helpers, shared by every module. */
module Options {
  datatype Option<+T> = None | Some(value: T)

  function Min(a: int, b: int): int { if a < b then a else b }

  function Max(a: int, b: int): int { if a > b then a else b }

  /**
   A definition of the shape `forall u {:trigger Unfold(u)} :: Unfold(u) ==> P` means P,
   but the prover looks inside it only where a proof mentions `Unfold(0)`.
   */
  predicate Unfold(u: int) {
    true
  }

  lemma Pick<T>(s: set<T>) returns (x: T)
    requires s != {}
    ensures x in s
  {
    x :| x in s;
  }

  lemma UnionSize<T>(a: set<T>, b: set<T>)
    requires forall t :: t in a ==> t !in b
    ensures |a + b| == |a| + |b|
  {
  }

  lemma SameSet<T>(a: set<T>, b: set<T>)
    requires forall t :: t in a <==> t in b
    ensures a == b
  {
  }

  lemma SubsetSize<T>(a: set<T>, b: set<T>)
    requires forall t :: t in a ==> t in b
    ensures |a| <= |b|
  {
    assert b == a + (b - a);
  }

  /** One more element, seen by a set that may or may not want it. */
  lemma OneMoreSize<T>(seen: set<T>, x: T, live: set<T>)
    requires x !in seen
    ensures |(seen + {x}) - live| == |seen - live| + (if x in live then 0 else 1)
    ensures |(seen + {x}) * live| == |seen * live| + (if x in live then 1 else 0)
  {
    if x in live {
      assert (seen + {x}) - live == seen - live && (seen + {x}) * live == seen * live + {x};
    } else {
      assert (seen + {x}) - live == (seen - live) + {x} && (seen + {x}) * live == seen * live;
    }
  }
}

/** Whole multiples, for lengths that are not fixed. */
module Multiples {
  /** `x` is a whole multiple of `d`. */
  ghost predicate Multiple(x: int, d: int) {
    exists k: int :: x == k * d
  }

  lemma {:induction false} MultipleIsModZero(x: int, d: int)
    requires d > 0
    ensures x % d == 0 <==> Multiple(x, d)
  {
    if x % d == 0 {
      assert x == (x / d) * d;
    }
    if k: int :| x == k * d {
      var q, r := x / d, x % d;
      assert x == q * d + r;
      assert (k - q) * d == r;
      assert k - q >= 1 ==> (k - q) * d >= d;
      assert k - q <= -1 ==> (k - q) * d <= -d;
    }
  }

  lemma {:induction false} MultipleShift(x: int, d: int)
    ensures Multiple(x - d, d) <==> Multiple(x, d)
  {
    if k: int :| x == k * d {
      assert x - d == (k - 1) * d;
    }
    if k: int :| x - d == k * d {
      assert x == (k + 1) * d;
    }
  }

  lemma {:induction false} AtLeastOne(a: int, d: int)
    requires d > 0
    ensures a * d > 0 ==> a * d >= d
  {
  }

  /** Two different multiples are at least one length apart. */
  lemma {:induction false} MultiplesApart(x: int, y: int, d: int)
    requires Multiple(x, d) && Multiple(y, d) && x < y && d > 0
    ensures y - x >= d
  {
    var k: int :| x == k * d;
    var m: int :| y == m * d;
    AtLeastOne(m - k, d);
    assert (m - k) * d == m * d - k * d;
  }

  lemma {:induction false} MultipleOfMultiple(x: int, d: int, e: int)
    requires Multiple(x, e) && Multiple(e, d)
    ensures Multiple(x, d)
  {
    var k: int :| x == k * e;
    var m: int :| e == m * d;
    assert x == (k * m) * d;
  }
}

/**
 Label-to-bar alignment (internal/openinterest/align.go). Every time in this
 project is a whole number of milliseconds since the Unix epoch; a bar is named by
 its opening time.
 */
module Align {
  import opened Options

  const BAR := 300_000

  predicate OnGrid(t: int) {
    t % 300_000 == 0
  }

  /** How many whole bars fit in a non-negative duration. */
  function Bars(d: int): int {
    d / 300_000
  }

  /** The start of the bucket that contains `t`. */
  function FloorBar(t: int): (f: int)
    ensures OnGrid(f) && f <= t < f + BAR
  {
    t - t % 300_000
  }

  /** The bar a label belongs to: the one that closes at that instant. */
  function HistBarStart(stamp: int): (r: Option<int>)
    ensures r.Some? <==> OnGrid(stamp)
    ensures r.Some? ==> r.value == FloorBar(stamp - 1)
  {
    if OnGrid(stamp) then Some(stamp - BAR) else None
  }

  /** The newest bar whose label is at least `lag` old. */
  function NewestPublishedStart(now: int, lag: int): (s: int)
    ensures OnGrid(s)
    ensures forall b: int :: OnGrid(b) ==> (b <= s <==> b + BAR + lag <= now)
  {
    FloorBar(now - lag) - BAR
  }
}
