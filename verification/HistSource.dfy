/**
 The history endpoints of internal/openinterest/client.go and lsratio.go, seen
 through their interface contract: the NEWEST `limit` points inside [start, end].
 Labels, their order and the search in them serve klines and merged rows as well.
 */
module HistSource {
  import opened Align

  /** A reported number; infinities and not-a-number are kept apart from numbers. */
  datatype Reading = Number(x: real) | NotFinite

  /** What an endpoint gives for one label. */
  datatype Labelled<V> = Point(stamp: int, value: V)

  type Point = Labelled<Reading>

  function Stamp<V>(s: seq<Labelled<V>>, i: nat): int
    requires i < |s|
  {
    s[i].stamp
  }

  ghost predicate Ascending<V>(s: seq<Labelled<V>>) {
    forall i: nat, j: nat {:trigger Stamp(s, i), Stamp(s, j)} :: i < j < |s| ==> Stamp(s, i) < Stamp(s, j)
  }

  ghost predicate AllOnGrid(s: seq<Point>) {
    forall i: nat {:trigger Stamp(s, i)} :: i < |s| ==> OnGrid(Stamp(s, i))
  }

  /** How many of the first `n` points of an ascending history lie before `x`. */
  function BelowIn<V>(s: seq<Labelled<V>>, x: int, n: nat): (k: nat)
    requires Ascending(s) && n <= |s|
    ensures k <= n
    ensures forall i: nat {:trigger Stamp(s, i)} :: i < n ==> (Stamp(s, i) < x <==> i < k)
  {
    if n == 0 || Stamp(s, n - 1) < x then n else BelowIn(s, x, n - 1)
  }

  /** How many points of an ascending history lie before `x`. */
  function Below<V>(s: seq<Labelled<V>>, x: int): (k: nat)
    requires Ascending(s)
    ensures k <= |s|
    ensures forall i: nat {:trigger Stamp(s, i)} :: i < |s| ==> (Stamp(s, i) < x <==> i < k)
  {
    BelowIn(s, x, |s|)
  }

  /** Where the points of [lo, hi] end; they begin at `Below(s, lo)`. */
  function Upto<V>(s: seq<Labelled<V>>, lo: int, hi: int): (upto: nat)
    requires Ascending(s)
    ensures Below(s, lo) <= upto <= |s|
  {
    if Below(s, lo) <= Below(s, hi + 1) then Below(s, hi + 1) else Below(s, lo)
  }

  /** The points of an ascending history with a label in [lo, hi]. */
  function Between(s: seq<Point>, lo: int, hi: int): (b: seq<Point>)
    requires Ascending(s)
  {
    s[Below(s, lo)..Upto(s, lo, hi)]
  }

  function Nth(s: seq<Point>, i: nat): Point
    requires i < |s|
  {
    s[i]
  }

  /** `run` is the stretch of `s` that begins at position `i`. */
  ghost predicate IsRun(s: seq<Point>, i: nat, run: seq<Point>) {
    i + |run| <= |s| && forall k: nat {:trigger Nth(run, k)} :: k < |run| ==> Nth(run, k) == s[i + k]
  }

  lemma {:induction false} RunIsSlice(s: seq<Point>, i: nat, run: seq<Point>)
    requires IsRun(s, i, run)
    ensures run == s[i..i + |run|]
  {
    assert forall k: nat {:trigger run[k]} :: k < |run| ==> Nth(run, k) == s[i + k];
  }

  /** One request: the newest `limit` points of [lo, hi], oldest first. */
  method Request(s: seq<Point>, lo: int, hi: int, limit: nat) returns (page: seq<Point>)
    requires Ascending(s)
    ensures |page| == if limit < Upto(s, lo, hi) - Below(s, lo) then limit else Upto(s, lo, hi) - Below(s, lo)
    ensures IsRun(s, Upto(s, lo, hi) - |page|, page)
  {
    var b := Between(s, lo, hi);
    page := if |b| <= limit then b else b[|b| - limit..];
  }

  lemma {:induction false} SliceAscending(s: seq<Point>, i: nat, j: nat)
    requires Ascending(s) && i <= j <= |s|
    ensures Ascending(s[i..j])
  {
    forall m: nat, n: nat {:trigger Stamp(s[i..j], m), Stamp(s[i..j], n)} | m < n < j - i
      ensures Stamp(s[i..j], m) < Stamp(s[i..j], n)
    {
      assert Stamp(s[i..j], m) == Stamp(s, i + m) && Stamp(s[i..j], n) == Stamp(s, i + n);
    }
  }

  lemma {:induction false} BetweenIsFilter(s: seq<Point>, lo: int, hi: int)
    requires Ascending(s)
    ensures Ascending(Between(s, lo, hi))
    ensures forall p :: p in Between(s, lo, hi) <==> p in s && lo <= p.stamp <= hi
  {
    var b, from := Between(s, lo, hi), Below(s, lo);
    SliceAscending(s, from, Upto(s, lo, hi));
    forall p | p in s && lo <= p.stamp <= hi ensures p in b {
      var i :| 0 <= i < |s| && s[i] == p;
      assert Stamp(s, i) == p.stamp;
      assert b[i - from] == p;
    }
    forall p | p in b ensures p in s && lo <= p.stamp <= hi {
      var i :| 0 <= i < |b| && b[i] == p;
      assert p == s[from + i] && Stamp(s, from + i) == p.stamp;
    }
  }

  /** The position of a point is the number of points before its label. */
  lemma {:induction false} BelowAt<V>(s: seq<Labelled<V>>, i: nat)
    requires Ascending(s) && i < |s|
    ensures Below(s, s[i].stamp) == i
  {
    var n := Below(s, s[i].stamp);
    assert Stamp(s, i) == s[i].stamp;
    assert n < |s| ==> Stamp(s, n) >= Stamp(s, i);
  }

  /** At most one on-grid label per bar: a run of on-grid points is no longer than its bars. */
  lemma {:induction false} GridSpacing(s: seq<Point>, i: nat, j: nat)
    requires Ascending(s) && AllOnGrid(s) && i <= j < |s|
    ensures s[j].stamp >= s[i].stamp + (j - i) * 300_000
    decreases j - i
  {
    if i < j {
      GridSpacing(s, i, j - 1);
      assert Stamp(s, j - 1) < Stamp(s, j) && OnGrid(Stamp(s, j)) && OnGrid(Stamp(s, j - 1));
    }
  }
}
