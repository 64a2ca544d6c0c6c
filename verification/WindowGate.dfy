/**
 The gate that suppresses live window writes while a key is being rebuilt
 (internal/windowgate/gate.go): a count per key, and per interval the number of held keys.
 */
module WindowGate {
  import opened Options

  datatype Key = Key(symbol: string, interval: string)

  function UpperChar(c: char): char {
    if 'a' <= c <= 'z' then c - 'a' + 'A' else c
  }

  /** Upper case of a symbol; symbols are ASCII. */
  function Upper(s: string): string {
    seq(|s|, i requires 0 <= i < |s| => UpperChar(s[i]))
  }

  function Norm(k: Key): Key {
    Key(Upper(k.symbol), k.interval)
  }

  /** How often the first `n` keys of a list name the key. */
  function Listed(keys: seq<Key>, n: nat, k: Key): nat
    requires n <= |keys|
  {
    if n == 0 then 0 else Listed(keys, n - 1, k) + if Norm(keys[n - 1]) == k then 1 else 0
  }

  /** The positions among the first `n` at which the list names it. */
  ghost function Places(keys: seq<Key>, n: nat, k: Key): set<nat>
    requires n <= |keys|
  {
    set i: nat | i < n && Norm(keys[i]) == k
  }

  lemma {:induction false} ListedCounts(keys: seq<Key>, n: nat, k: Key)
    requires n <= |keys|
    ensures Listed(keys, n, k) == |Places(keys, n, k)|
  {
    if n == 0 {
      assert Places(keys, n, k) == {};
    } else {
      ListedCounts(keys, n - 1, k);
      assert Places(keys, n, k) == Places(keys, n - 1, k) + if Norm(keys[n - 1]) == k then {n - 1} else {};
    }
  }

  /** Two symbols are the same key exactly if they differ in the case of ASCII letters at most. */
  lemma {:induction false} SameUpper(a: string, b: string)
    ensures Upper(a) == Upper(b) <==> |a| == |b| && forall i :: 0 <= i < |a| ==> SameLetter(a[i], b[i])
    ensures Upper(Upper(a)) == Upper(a)
  {
    assert |Upper(a)| == |a| && |Upper(b)| == |b|;
    forall i | 0 <= i < |a| && i < |b| ensures Upper(a)[i] == Upper(b)[i] <==> SameLetter(a[i], b[i]) {
    }
    assert Upper(a) == Upper(b) ==> forall i :: 0 <= i < |a| ==> Upper(a)[i] == Upper(b)[i];
  }

  /** The same character, or the two cases of one letter. */
  predicate SameLetter(c: char, d: char) {
    || c == d
    || ('a' <= c <= 'z' && 'A' <= d <= 'Z' && c - 'a' == d - 'A')
    || ('A' <= c <= 'Z' && 'a' <= d <= 'z' && c - 'A' == d - 'a')
  }

  ghost function OfInterval(keys: set<Key>, interval: string): set<Key> {
    set k | k in keys && k.interval == interval
  }

  lemma {:induction false} OneKeyMore(keys: set<Key>, k: Key, interval: string)
    requires k !in keys
    ensures |OfInterval(keys + {k}, interval)| == |OfInterval(keys, interval)| + if k.interval == interval then 1 else 0
  {
    if k.interval == interval {
      assert OfInterval(keys + {k}, interval) == OfInterval(keys, interval) + {k};
    } else {
      assert OfInterval(keys + {k}, interval) == OfInterval(keys, interval);
    }
  }

  /** A counter of a map; one that is not listed is zero. */
  function CountOf<K>(m: map<K, int>, k: K): int {
    if k in m then m[k] else 0
  }

  /** `byInterv` counts the held keys of every interval, and lists no interval without one. */
  ghost predicate Counts(byInterv: map<string, int>, keys: set<Key>) {
    forall i :: CountOf(byInterv, i) == |OfInterval(keys, i)| && (i in byInterv ==> byInterv[i] > 0)
  }

  /** The interval's counter after a key of it became held. */
  function Up(byInterv: map<string, int>, i: string): map<string, int> {
    byInterv[i := CountOf(byInterv, i) + 1]
  }

  /** The interval's counter after a key of it became free; the last one removes the entry. */
  function Down(byInterv: map<string, int>, i: string): map<string, int> {
    if CountOf(byInterv, i) <= 1 then byInterv - {i} else byInterv[i := byInterv[i] - 1]
  }

  lemma {:induction false} UpCounts(byInterv: map<string, int>, keys: set<Key>, k: Key)
    requires Counts(byInterv, keys) && k !in keys
    ensures Counts(Up(byInterv, k.interval), keys + {k})
  {
    forall i ensures CountOf(Up(byInterv, k.interval), i) == |OfInterval(keys + {k}, i)| {
      OneKeyMore(keys, k, i);
      assert CountOf(byInterv, i) == |OfInterval(keys, i)|;
    }
  }

  lemma {:induction false} DownCounts(byInterv: map<string, int>, keys: set<Key>, k: Key)
    requires Counts(byInterv, keys) && k in keys
    ensures Counts(Down(byInterv, k.interval), keys - {k})
  {
    assert (keys - {k}) + {k} == keys;
    forall i ensures CountOf(Down(byInterv, k.interval), i) == |OfInterval(keys - {k}, i)| {
      OneKeyMore(keys - {k}, k, i);
      assert CountOf(byInterv, i) == |OfInterval(keys, i)|;
    }
  }

  class Gate {
    var keys: map<Key, int>
    var byInterv: map<string, int>

    ghost predicate Valid()
      reads this
    {
      (forall k :: k in keys ==> keys[k] > 0) && Counts(byInterv, keys.Keys)
    }

    /** The number of holds in force on a key. */
    function Holds(k: Key): int
      reads this
    {
      CountOf(keys, k)
    }

    constructor ()
      ensures Valid() && forall k :: Holds(k) == 0
    {
      keys, byInterv := map[], map[];
    }

    method HoldOne(k: Key)
      requires Valid()
      modifies this
      ensures Valid() && forall x :: Holds(x) == old(Holds(x)) + if x == k then 1 else 0
    {
      if k !in keys {
        UpCounts(byInterv, keys.Keys, k);
        byInterv := Up(byInterv, k.interval);
      }
      ghost var before := keys.Keys;
      keys := keys[k := Holds(k) + 1];
      assert keys.Keys == before + {k};
      assert k in before ==> before + {k} == before;
    }

    /** One hold more on each listed key. */
    method Hold(raw: seq<Key>)
      requires Valid()
      modifies this
      ensures Valid() && forall x :: Holds(x) == old(Holds(x)) + Listed(raw, |raw|, x)
    {
      for n := 0 to |raw|
        invariant Valid() && forall x :: Holds(x) == old(Holds(x)) + Listed(raw, n, x)
      {
        HoldOne(Norm(raw[n]));
      }
    }

    method ReleaseOne(k: Key)
      requires Valid()
      modifies this
      ensures Valid() && forall x :: Holds(x) == old(Holds(x)) - if x == k && old(Holds(x)) > 0 then 1 else 0
    {
      var n := Holds(k);
      if n <= 0 {
        return;
      }
      ghost var before := keys.Keys;
      if n == 1 {
        DownCounts(byInterv, keys.Keys, k);
        keys := keys - {k};
        byInterv := Down(byInterv, k.interval);
        assert keys.Keys == before - {k};
      } else {
        keys := keys[k := n - 1];
        assert keys.Keys == before;
      }
    }

    /** One hold less on each listed key; a key that is not held stays as it is. */
    method Release(raw: seq<Key>)
      requires Valid()
      modifies this
      ensures Valid() && forall x :: Holds(x) == Max(0, old(Holds(x)) - Listed(raw, |raw|, x))
    {
      for n := 0 to |raw|
        invariant Valid() && forall x :: Holds(x) == Max(0, old(Holds(x)) - Listed(raw, n, x))
      {
        ReleaseOne(Norm(raw[n]));
      }
    }

    /** Whether the window writes of a key are suppressed. */
    method HeldWindow(symbol: string, interval: string) returns (yes: bool)
      requires Valid()
      ensures yes <==> Holds(Norm(Key(symbol, interval))) > 0
    {
      yes := Norm(Key(symbol, interval)) in keys;
    }

    /** Whether the ready events of an interval are suppressed: some key of it is held. */
    method HeldInterval(interval: string) returns (yes: bool)
      requires Valid()
      ensures yes <==> exists k: Key :: k.interval == interval && Holds(k) > 0
    {
      ghost var held := OfInterval(keys.Keys, interval);
      if k: Key :| k.interval == interval && Holds(k) > 0 {
        assert k in held;
      }
      yes := interval in byInterv && byInterv[interval] > 0;
      assert CountOf(byInterv, interval) == |held|;
      if yes {
        ghost var k := Pick(held);
        assert Holds(k) > 0;
      }
    }
  }

  /** Holding keys and releasing them again leaves every count as it was. */
  method HoldThenRelease(g: Gate, raw: seq<Key>)
    requires g.Valid()
    modifies g
    ensures g.Valid() && forall x :: g.Holds(x) == old(g.Holds(x))
  {
    g.Hold(raw);
    g.Release(raw);
  }
}
