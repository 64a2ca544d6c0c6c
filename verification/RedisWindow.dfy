/**
 The rolling window of one key in Redis (the push and rebuild scripts of
 internal/rediswin/writer.go), and the seam between a rebuild from the archive and the
 live pushes that resume after it (internal/backfill/backfill.go, internal/windowgate/gate.go).
 */
module RedisWindow {
  import opened Options

  /** A compact bar: its opening time, and the rest of its payload. */
  datatype Bar = Bar(start: int, payload: string)

  /** The first `w` entries of a list: what LTRIM keeps. */
  function First(w: nat, s: seq<Bar>): (t: seq<Bar>)
    ensures |t| == if |s| <= w then |s| else w
    ensures forall i :: 0 <= i < |t| ==> t[i] == s[i]
  {
    if |s| <= w then s else s[..w]
  }

  /** A bar is written only when it is strictly newer than the head. */
  predicate Accepts(s: seq<Bar>, b: Bar) {
    s == [] || b.start > s[0].start
  }

  function Start(s: seq<Bar>, i: nat): int
    requires i < |s|
  {
    s[i].start
  }

  ghost predicate Descending(s: seq<Bar>) {
    forall i: nat, j: nat {:trigger Start(s, i), Start(s, j)} :: i < j < |s| ==> Start(s, i) > Start(s, j)
  }

  /** The reference: a list without a limit, after the first `n` pushes. */
  function Kept(s: seq<Bar>, pushes: seq<Bar>, n: nat): seq<Bar>
    requires n <= |pushes|
  {
    if n == 0 then s
    else
      var k := Kept(s, pushes, n - 1);
      if Accepts(k, pushes[n - 1]) then [pushes[n - 1]] + k else k
  }

  class Window {
    const size: nat
    var list: seq<Bar>

    constructor (size: nat)
      ensures this.size == size && list == []
    {
      this.size := size;
      list := [];
    }

    /** The push script. */
    method Push(b: Bar) returns (written: bool)
      modifies this
      ensures written <==> Accepts(old(list), b)
      ensures list == if written then First(size, [b] + old(list)) else old(list)
    {
      if |list| > 0 && b.start <= list[0].start {
        return false;
      }
      list := [b] + list;
      if |list| > size {
        list := list[..size];
      }
      written := true;
    }

    /** The rebuild script: the list is deleted, filled oldest entry last, and trimmed. */
    method Rebuild(newestFirst: seq<Bar>)
      modifies this
      ensures list == First(size, newestFirst)
    {
      list := [];
      for i := 0 to |newestFirst|
        invariant list == newestFirst[..i]
      {
        list := list + [newestFirst[i]];
      }
      assert newestFirst[..|newestFirst|] == newestFirst;
      if |list| > 0 && |list| > size {
        list := list[..size];
      }
    }

    /**
     A rebuild followed by any pushes leaves the newest entries of the unlimited reference,
     strictly descending if the rebuilt list was.
     */
    method RebuildAndPush(newestFirst: seq<Bar>, pushes: seq<Bar>)
      requires size > 0
      modifies this
      ensures list == First(size, Kept(newestFirst, pushes, |pushes|)) && |list| <= size
      ensures Descending(newestFirst) ==> Descending(list)
    {
      Rebuild(newestFirst);
      for n := 0 to |pushes|
        invariant list == First(size, Kept(newestFirst, pushes, n))
      {
        var written := Push(pushes[n]);
      }
      if Descending(newestFirst) {
        StaysDescending(newestFirst, pushes, |pushes|);
        FirstDescends(Kept(newestFirst, pushes, |pushes|), size);
      }
    }
  }

  // ---------------------------------------------------------------- what the window holds

  /** The list stays strictly descending, whatever is pushed. */
  lemma {:induction false} StaysDescending(s: seq<Bar>, pushes: seq<Bar>, n: nat)
    requires Descending(s) && n <= |pushes|
    ensures Descending(Kept(s, pushes, n))
  {
    if n > 0 {
      StaysDescending(s, pushes, n - 1);
      var k, out := Kept(s, pushes, n - 1), Kept(s, pushes, n);
      if Accepts(k, pushes[n - 1]) {
        forall i: nat, j: nat {:trigger Start(out, i), Start(out, j)} | i < j < |out| ensures Start(out, i) > Start(out, j) {
          assert Start(out, j) == Start(k, j - 1);
          if i > 0 {
            assert Start(out, i) == Start(k, i - 1);
          } else {
            assert j > 1 ==> Start(k, 0) > Start(k, j - 1);
          }
        }
      }
    }
  }

  lemma {:induction false} FirstDescends(s: seq<Bar>, w: nat)
    requires Descending(s)
    ensures Descending(First(w, s))
  {
    var t := First(w, s);
    forall i: nat, j: nat {:trigger Start(t, i), Start(t, j)} | i < j < |t| ensures Start(t, i) > Start(t, j) {
      assert Start(s, i) > Start(s, j);
    }
  }

  /** The bar is newer than everything in the list and than every push before it. */
  ghost predicate IsRecord(s: seq<Bar>, pushes: seq<Bar>, i: nat)
    requires i < |pushes|
  {
    (forall b :: b in s ==> b.start < pushes[i].start) && (forall j :: 0 <= j < i ==> pushes[j].start < pushes[i].start)
  }

  /** The head is at least as new as everything listed or pushed so far. */
  lemma {:induction false} HeadIsNewest(s: seq<Bar>, pushes: seq<Bar>, n: nat, x: Bar)
    requires Descending(s) && n <= |pushes| && (x in s || x in pushes[..n])
    ensures Kept(s, pushes, n) != [] && x.start <= Kept(s, pushes, n)[0].start
  {
    if n > 0 {
      assert pushes[..n] == pushes[..n - 1] + [pushes[n - 1]];
      if x in s || x in pushes[..n - 1] {
        HeadIsNewest(s, pushes, n - 1, x);
      }
    } else {
      var i: nat :| i < |s| && s[i] == x;
      assert i > 0 ==> Start(s, 0) > Start(s, i);
    }
  }

  lemma {:induction false} HeadIsInput(s: seq<Bar>, pushes: seq<Bar>, n: nat)
    requires n <= |pushes|
    ensures Kept(s, pushes, n) != [] ==> Kept(s, pushes, n)[0] in s || exists j :: 0 <= j < n && pushes[j] == Kept(s, pushes, n)[0]
  {
    if n > 0 {
      HeadIsInput(s, pushes, n - 1);
    }
  }

  /** A push is accepted exactly if it is a record. */
  lemma {:induction false} AcceptedIsRecord(s: seq<Bar>, pushes: seq<Bar>, i: nat)
    requires Descending(s) && i < |pushes|
    ensures Accepts(Kept(s, pushes, i), pushes[i]) <==> IsRecord(s, pushes, i)
  {
    HeadIsInput(s, pushes, i);
    if Accepts(Kept(s, pushes, i), pushes[i]) {
      forall b | b in s ensures b.start < pushes[i].start { HeadIsNewest(s, pushes, i, b); }
      forall j | 0 <= j < i ensures pushes[j].start < pushes[i].start {
        assert pushes[..i][j] == pushes[j];
        HeadIsNewest(s, pushes, i, pushes[j]);
      }
    }
  }

  /** The reference holds the old list and the records among the pushes, nothing else. */
  lemma {:induction false} KeptAreRecords(s: seq<Bar>, pushes: seq<Bar>, n: nat, b: Bar)
    requires Descending(s) && n <= |pushes|
    ensures b in Kept(s, pushes, n) <==> b in s || exists i: nat :: i < n && IsRecord(s, pushes, i) && b == pushes[i]
  {
    if n > 0 {
      KeptAreRecords(s, pushes, n - 1, b);
      AcceptedIsRecord(s, pushes, n - 1);
    }
  }

  /** Pushing a bar again, now or later, changes nothing. */
  lemma {:induction false} RepushIsNoop(s: seq<Bar>, pushes: seq<Bar>, b: Bar)
    requires Descending(s) && (b in s || b in pushes)
    ensures Kept(s, pushes + [b], |pushes| + 1) == Kept(s, pushes, |pushes|)
  {
    assert pushes[..|pushes|] == pushes;
    HeadIsNewest(s, pushes, |pushes|, b);
    SamePushes(s, pushes, b, |pushes|);
  }

  lemma {:induction false} SamePushes(s: seq<Bar>, pushes: seq<Bar>, b: Bar, n: nat)
    requires n <= |pushes|
    ensures Kept(s, pushes + [b], n) == Kept(s, pushes, n)
  {
    if n > 0 {
      SamePushes(s, pushes, b, n - 1);
    }
  }

  // ---------------------------------------------------------------- the seam after a rebuild

  /** The history newest first: bars `from`..`upto` of an ascending history. */
  function Newest(h: seq<Bar>, from: nat, upto: nat): (s: seq<Bar>)
    requires from <= upto <= |h|
    ensures |s| == upto - from
    ensures forall i :: 0 <= i < |s| ==> s[i] == h[upto - 1 - i]
  {
    seq(upto - from, i requires 0 <= i < upto - from => h[upto - 1 - i])
  }

  ghost predicate AscendingBars(h: seq<Bar>) {
    forall i: nat, j: nat {:trigger Start(h, i), Start(h, j)} :: i < j < |h| ==> Start(h, i) < Start(h, j)
  }

  lemma {:induction false} NewestMore(h: seq<Bar>, e: nat, m: nat, s: seq<Bar>)
    requires e < m <= |h|
    ensures Newest(h, e, m) + s == [h[m - 1]] + (Newest(h, e, m - 1) + s)
  {
  }

  /** Live bars that follow the list in order are all kept, newest first. */
  lemma {:induction false} InOrderIsKept(h: seq<Bar>, r: nat, e: nat, m: nat, s: seq<Bar>)
    requires AscendingBars(h) && r <= e <= m <= |h|
    requires s != [] ==> r > 0 && s[0] == h[r - 1]
    ensures Kept(s, h[e..m], m - e) == Newest(h, e, m) + s
    decreases m
  {
    if m > e {
      InOrderIsKept(h, r, e, m - 1, s);
      var b, k := h[m - 1], Newest(h, e, m - 1) + s;
      assert h[e..m] == h[e..m - 1] + [b];
      SamePushes(s, h[e..m - 1], b, m - 1 - e);
      assert Accepts(k, b) by {
        assert m - 1 > e ==> Start(h, m - 2) < Start(h, m - 1);
        assert s != [] ==> Start(h, r - 1) < Start(h, m - 1);
      }
      NewestMore(h, e, m, s);
    } else {
      assert Newest(h, e, m) + s == s;
    }
  }

  /**
   The archive was read back when it held h[..r], the gate was released when h[..e] had
   closed, and the bars from `e` on were pushed live. The window then holds the newest
   bars of h[..m] exactly if no bar closed between the read-back and the release, or
   enough bars closed since to fill the whole window.
   */
  lemma {:induction false} SeamIsCleanExactly(h: seq<Bar>, r: nat, e: nat, m: nat, w: nat)
    requires AscendingBars(h) && r <= e <= m <= |h| && w > 0
    ensures First(w, Kept(First(w, Newest(h, 0, r)), h[e..m], m - e)) == First(w, Newest(h, 0, m)) <==> e == r || m - e >= w
  {
    var s := First(w, Newest(h, 0, r));
    InOrderIsKept(h, r, e, m, s);
    if e == r || m - e >= w {
      SeamKeeps(h, r, e, m, w);
    } else {
      SeamLoses(h, r, e, m, w);
    }
  }

  /** An entry of the window after a clean seam. */
  lemma {:induction false} SeamAt(h: seq<Bar>, r: nat, e: nat, m: nat, w: nat, i: nat)
    requires r <= e <= m <= |h| && (e == r || m - e >= w) && i < w && i < m
    ensures var list := Newest(h, e, m) + First(w, Newest(h, 0, r)); i < |list| && list[i] == h[m - 1 - i]
  {
    if i < m - e {
      assert Newest(h, e, m)[i] == h[m - 1 - i];
    } else {
      var k := i - (m - e);
      assert First(w, Newest(h, 0, r))[k] == Newest(h, 0, r)[k] == h[r - 1 - k];
    }
  }

  lemma {:induction false} SeamKeeps(h: seq<Bar>, r: nat, e: nat, m: nat, w: nat)
    requires r <= e <= m <= |h| && (e == r || m - e >= w)
    ensures First(w, Newest(h, e, m) + First(w, Newest(h, 0, r))) == First(w, Newest(h, 0, m))
  {
    var list, all := Newest(h, e, m) + First(w, Newest(h, 0, r)), Newest(h, 0, m);
    assert |First(w, list)| == |First(w, all)|;
    forall i: nat | i < |First(w, all)| ensures First(w, list)[i] == First(w, all)[i] {
      SeamAt(h, r, e, m, w, i);
    }
  }

  lemma {:induction false} SeamLoses(h: seq<Bar>, r: nat, e: nat, m: nat, w: nat)
    requires AscendingBars(h) && r < e <= m <= |h| && m - e < w
    ensures First(w, Newest(h, e, m) + First(w, Newest(h, 0, r))) != First(w, Newest(h, 0, m))
  {
    var window, full := First(w, Newest(h, e, m) + First(w, Newest(h, 0, r))), First(w, Newest(h, 0, m));
    assert full[m - e] == h[e - 1];
    if r > 0 {
      assert window[m - e] == h[r - 1];
      assert Start(h, r - 1) < Start(h, e - 1);
    } else {
      assert |window| < |full|;
    }
  }
}
