/**
 How often a section is published over whole runs of the aggregator
 (internal/dispatcher/aggregator.go): once, unless a bar arrives after its eviction.
 */
module SectionRuns {
  import opened Aggregator
  import opened Options

  /** A bar of a symbol of the universe reaches the section. */
  predicate Marks(e: Event, key: Section) {
    e.Mark? && e.member && e.key == key
  }

  /** A straggler: a bar of the section comes after an eviction of the section. */
  ghost predicate Straggles(events: seq<Event>, key: Section) {
    exists i: nat, j: nat :: i < j < |events| && events[i] == Evict(key) && Marks(events[j], key)
  }

  /** The same from a point at which the section has been evicted before, or not. */
  predicate StragglesFrom(events: seq<Event>, key: Section, evicted: bool) {
    && events != []
    && ((evicted && Marks(events[0], key)) || StragglesFrom(events[1..], key, evicted || events[0] == Evict(key)))
  }

  lemma {:induction false} StragglesEither(events: seq<Event>, key: Section, evicted: bool)
    ensures StragglesFrom(events, key, evicted)
       <==> Straggles(events, key) || (evicted && exists j: nat :: j < |events| && Marks(events[j], key))
  {
    if events != [] {
      var rest := events[1..];
      StragglesEither(rest, key, evicted || events[0] == Evict(key));
      if i: nat, j: nat :| i < j < |rest| && rest[i] == Evict(key) && Marks(rest[j], key) {
        assert events[i + 1] == Evict(key) && Marks(events[j + 1], key);
      }
      if j: nat :| j < |rest| && Marks(rest[j], key) {
        assert Marks(events[j + 1], key);
      }
      if i: nat, j: nat :| i < j < |events| && events[i] == Evict(key) && Marks(events[j], key) {
        assert rest[j - 1] == events[j] && (i > 0 ==> rest[i - 1] == events[i]);
      }
      if j: nat :| j < |events| && Marks(events[j], key) {
        assert j > 0 ==> rest[j - 1] == events[j];
      }
    }
  }

  // ---------------------------------------------------------------- the lives of a section

  /** The event opens the section it is about. */
  predicate Opens(s: System, e: Event) {
    e.Mark? && e.member && !Live(s, e.key)
  }

  /** No step changes the key of an instance; a section appears by opening and goes by eviction. */
  lemma {:induction false} Lives(s: System, e: Event)
    requires Enabled(s, e)
    ensures var t := Apply(s, e);
            && |t.insts| == |s.insts| + (if Opens(s, e) then 1 else 0)
            && (forall p: nat {:trigger At(t, p)} :: p < |s.insts| ==> At(t, p).key == At(s, p).key)
            && (Opens(s, e) ==> At(t, |s.insts|).key == e.key)
            && t.sections == if Opens(s, e) then s.sections[e.key := |s.insts|]
                             else if e.Evict? then s.sections - {e.key} else s.sections
  {
    if e.Mark? {
      MarkLives(s, e);
    } else {
      OtherLives(s, e);
    }
  }

  lemma {:induction false} MarkLives(s: System, e: Event)
    requires Enabled(s, e) && e.Mark?
    ensures var t := Apply(s, e);
            && |t.insts| == |s.insts| + (if Opens(s, e) then 1 else 0)
            && (forall p: nat {:trigger At(t, p)} :: p < |s.insts| ==> At(t, p).key == At(s, p).key)
            && (Opens(s, e) ==> At(t, |s.insts|).key == e.key)
            && t.sections == if Opens(s, e) then s.sections[e.key := |s.insts|] else s.sections
  {
    var n := Noted(s, e.symbol, e.key);
    assert forall p: nat {:trigger At(n, p)} :: p < |s.insts| ==> At(n, p) == At(s, p);
    if e.member {
      MarkedLives(n, e.symbol, e.key, e.want, e.stopped);
    }
  }

  lemma {:induction false} OtherLives(s: System, e: Event)
    requires Enabled(s, e) && !e.Mark?
    ensures var t := Apply(s, e);
            && |t.insts| == |s.insts| && t.sections == (if e.Evict? then s.sections - {e.key} else s.sections)
            && forall p: nat {:trigger At(t, p)} :: p < |s.insts| ==> At(t, p).key == At(s, p).key
  {
    if e.OnTimeout? {
      TimeoutLives(s, e.key);
    } else {
      assert Apply(s, e).insts == s.insts;
      assert forall p: nat {:trigger At(Apply(s, e), p)} :: p < |s.insts| ==> At(Apply(s, e), p) == At(s, p);
    }
  }

  lemma {:induction false} TimeoutLives(s: System, key: Section)
    ensures var t := TimedOut(s, key);
            && |t.insts| == |s.insts| && t.sections == s.sections
            && forall p: nat {:trigger At(t, p)} :: p < |s.insts| ==> At(t, p).key == At(s, p).key
  {
  }

  lemma {:induction false} MarkedLives(s: System, symbol: string, key: Section, want: nat, stopped: bool)
    ensures var o, t := Open(s, key), Marked(s, symbol, key, want, stopped);
            && |t.insts| == |o.insts| && t.sections == o.sections
            && forall p: nat {:trigger At(t, p)} :: p < |o.insts| ==> At(t, p).key == At(o, p).key
  {
    var o := Open(s, key);
    if Live(o, key) {
      CountedLives(o, o.sections[key], symbol, want, stopped);
    }
  }

  lemma {:induction false} CountedLives(s: System, id: nat, symbol: string, want: nat, stopped: bool)
    requires id < |s.insts|
    ensures var t := Counted(s, id, symbol, want, stopped);
            && |t.insts| == |s.insts| && t.sections == s.sections
            && forall p: nat {:trigger At(t, p)} :: p < |s.insts| ==> At(t, p).key == At(s, p).key
  {
  }

  predicate Of(s: System, p: nat, key: Section) {
    p < |s.insts| && At(s, p).key == key
  }

  /** The section has been opened twice. */
  ghost predicate Twice(s: System, key: Section) {
    exists p: nat, q: nat :: p < q && Of(s, p, key) && Of(s, q, key)
  }

  /** The section has been opened and evicted. */
  ghost predicate Left(s: System, key: Section) {
    exists p: nat :: Of(s, p, key) && !Current(s, p)
  }

  /** Every instance of the section is the one its key leads to. */
  ghost predicate InPlace(s: System, key: Section) {
    forall p: nat :: Of(s, p, key) ==> Current(s, p)
  }

  lemma {:induction false} StaysInPlace(s: System, e: Event, key: Section)
    requires Enabled(s, e) && InPlace(s, key) && e != Evict(key)
    ensures InPlace(Apply(s, e), key)
  {
    Lives(s, e);
    var t := Apply(s, e);
    forall p: nat | Of(t, p, key) ensures Current(t, p) {
      assert p < |s.insts| ==> Of(s, p, key) && Current(s, p);
    }
  }

  lemma {:induction false} InPlaceIsOnce(s: System, key: Section)
    requires InPlace(s, key)
    ensures !Twice(s, key)
  {
  }

  lemma {:induction false} StaysOnce(s: System, e: Event, key: Section)
    requires Enabled(s, e) && !Twice(s, key) && !Marks(e, key)
    ensures !Twice(Apply(s, e), key)
  {
    Lives(s, e);
    var t := Apply(s, e);
    if p: nat, q: nat :| p < q && Of(t, p, key) && Of(t, q, key) {
      assert Of(s, p, key) && Of(s, q, key);
      assert false;
    }
  }

  lemma {:induction false} StaysTwice(s: System, e: Event, key: Section)
    requires Enabled(s, e) && Twice(s, key)
    ensures Twice(Apply(s, e), key)
  {
    Lives(s, e);
    var p: nat, q: nat :| p < q && Of(s, p, key) && Of(s, q, key);
    assert Of(Apply(s, e), p, key) && Of(Apply(s, e), q, key);
  }

  lemma {:induction false} StaysLeft(s: System, e: Event, key: Section)
    requires Enabled(s, e) && Left(s, key)
    ensures Left(Apply(s, e), key)
  {
    Lives(s, e);
    var p: nat :| Of(s, p, key) && !Current(s, p);
    assert Of(Apply(s, e), p, key) && !Current(Apply(s, e), p);
  }

  lemma {:induction false} EvictLeaves(s: System, key: Section)
    requires Inv(s) && Enabled(s, Evict(key))
    ensures Left(Apply(s, Evict(key)), key)
  {
    assert Unfold(0);
    Lives(s, Evict(key));
    var p := s.sections[key];
    assert At(s, p).key == key;
    assert Of(Apply(s, Evict(key)), p, key) && !Current(Apply(s, Evict(key)), p);
  }

  lemma {:induction false} MarkReopens(s: System, e: Event, key: Section)
    requires Inv(s) && Enabled(s, e) && Left(s, key) && Marks(e, key)
    ensures Twice(Apply(s, e), key)
  {
    assert Unfold(0);
    Lives(s, e);
    var t := Apply(s, e);
    var p: nat :| Of(s, p, key) && !Current(s, p);
    var q := if Live(s, key) then s.sections[key] else |s.insts|;
    assert Live(s, key) ==> At(s, q).key == key;
    assert Of(t, p, key) && Of(t, q, key) && p != q;
  }

  /** Without a straggler the section is opened once. */
  lemma {:induction false} OpenedOnce(s: System, events: seq<Event>, t: System, key: Section, evicted: bool)
    requires Runs(s, events, t) && !StragglesFrom(events, key, evicted)
    requires if evicted then !Twice(s, key) else InPlace(s, key)
    ensures !Twice(t, key)
    decreases |events|
  {
    if !evicted {
      InPlaceIsOnce(s, key);
    }
    if events != [] {
      var e := events[0];
      if evicted || e == Evict(key) {
        StaysOnce(s, e, key);
      } else {
        StaysInPlace(s, e, key);
      }
      OpenedOnce(Apply(s, e), events[1..], t, key, evicted || e == Evict(key));
    }
  }

  lemma {:induction false} TwiceForGood(s: System, events: seq<Event>, t: System, key: Section)
    requires Runs(s, events, t) && Twice(s, key)
    ensures Twice(t, key)
    decreases |events|
  {
    if events != [] {
      StaysTwice(s, events[0], key);
      TwiceForGood(Apply(s, events[0]), events[1..], t, key);
    }
  }

  /** With a straggler it is opened again. */
  lemma {:induction false} OpenedTwice(s: System, events: seq<Event>, t: System, key: Section, evicted: bool)
    requires Inv(s) && Runs(s, events, t) && StragglesFrom(events, key, evicted)
    requires evicted ==> Left(s, key)
    ensures Twice(t, key)
    decreases |events|
  {
    var e := events[0];
    StepKeeps(s, e);
    if evicted && Marks(e, key) {
      MarkReopens(s, e, key);
      TwiceForGood(Apply(s, e), events[1..], t, key);
    } else {
      if evicted {
        StaysLeft(s, e, key);
      } else if e == Evict(key) {
        EvictLeaves(s, key);
      }
      OpenedTwice(Apply(s, e), events[1..], t, key, evicted || e == Evict(key));
    }
  }

  // ---------------------------------------------------------------- publishing

  ghost predicate PublishedTwice(s: System, key: Section) {
    exists a: nat, b: nat {:trigger Entry(s, a), Entry(s, b)} :: a < b < |s.log| && Entry(s, a).key == key && Entry(s, b).key == key
  }

  lemma {:induction false} StartIsSound(key: Section)
    ensures Inv(Start()) && NoneForgotten(Start()) && InPlace(Start(), key)
  {
    assert Unfold(0);
  }

  /**
   A section is published a second time only after a straggler: in every run two
   emissions have the same key only if a bar of the section came after its eviction.
   */
  lemma {:induction false} TwiceNeedsStraggler(events: seq<Event>, s: System, key: Section)
    requires Runs(Start(), events, s) && PublishedTwice(s, key)
    ensures Straggles(events, key)
  {
    StartIsSound(key);
    RunKeeps(Start(), events, s);
    TwoEmissions(s, key);
    StragglesEither(events, key, false);
    if !StragglesFrom(events, key, false) {
      OpenedOnce(Start(), events, s, key, false);
    }
  }

  lemma {:induction false} TwoEmissions(s: System, key: Section)
    requires Inv(s) && PublishedTwice(s, key)
    ensures Twice(s, key)
  {
    assert Unfold(0);
    var a: nat, b: nat :| a < b < |s.log| && Entry(s, a).key == key && Entry(s, b).key == key;
    assert Of(s, Entry(s, a).id, key) && Of(s, Entry(s, b).id, key);
  }

  /** Only pending timeouts and publish calls: nothing new arrives. */
  ghost predicate OnlySettles(events: seq<Event>) {
    forall e :: e in events ==> e.OnTimeout? || e.Publish?
  }

  lemma {:induction false} RunsOn(s: System, a: seq<Event>, m: System, b: seq<Event>, t: System)
    requires Runs(s, a, m) && Runs(m, b, t)
    ensures Runs(s, a + b, t)
    decreases |a|
  {
    if a == [] {
      assert a + b == b;
    } else {
      RunsOn(Apply(s, a[0]), a[1..], m, b, t);
      assert (a + b)[1..] == a[1..] + b;
    }
  }

  /** The state is open, sound, and still has the two lives. */
  ghost predicate Going(s: System, p: nat, q: nat, key: Section) {
    !s.closed && Inv(s) && NoneForgotten(s) && Of(s, p, key) && Of(s, q, key)
  }

  lemma {:induction false} SettleStep(s: System, e: Event, p: nat, q: nat, key: Section)
    requires Going(s, p, q, key) && Enabled(s, e) && (e.OnTimeout? || e.Publish?)
    ensures Going(Apply(s, e), p, q, key) && s.log <= Apply(s, e).log && Runs(s, [e], Apply(s, e))
  {
    StepKeeps(s, e);
    NoneForgottenStep(s, e);
    Lives(s, e);
    LogGrows(s, e);
    assert At(Apply(s, e), p).key == key && At(Apply(s, e), q).key == key;
    assert Runs(Apply(s, e), [e][1..], Apply(s, e));
  }

  /** An instance that is decided and not yet shown is shown by its publish call. */
  lemma {:induction false} PublishShows(s: System, p: nat)
    requires !s.closed && p in s.publishing && p < |s.insts|
    ensures Shown(Apply(s, Publish(p, Sent)), p)
  {
    assert Entry(Apply(s, Publish(p, Sent)), |s.log|).id == p;
  }

  /** An instance that is not decided is decided by its timeout. */
  lemma {:induction false} TimeoutDecides(s: System, p: nat)
    requires Inv(s) && !s.closed && p < |s.insts| && !s.insts[p].published
    ensures Enabled(s, OnTimeout(s.insts[p].key)) && p in Apply(s, OnTimeout(s.insts[p].key)).publishing
  {
    assert Unfold(0);
    assert Sound(s, p);
  }

  /** Whatever stage an instance has reached, its timeout and its publish call show it. */
  lemma {:induction false} Settle(s: System, p: nat, q: nat, key: Section) returns (more: seq<Event>, t: System)
    requires Going(s, p, q, key)
    ensures OnlySettles(more) && Runs(s, more, t) && Going(t, p, q, key) && Shown(t, p) && s.log <= t.log
  {
    more, t := [], s;
    if !s.insts[p].published {
      TimeoutDecides(s, p);
      SettleStep(s, OnTimeout(s.insts[p].key), p, q, key);
      more, t := [OnTimeout(s.insts[p].key)], Apply(s, OnTimeout(s.insts[p].key));
    }
    if p in t.publishing {
      var e := Publish(p, Sent);
      SettleStep(t, e, p, q, key);
      PublishShows(t, p);
      RunsOn(s, more, t, [e], Apply(t, e));
      more, t := more + [e], Apply(t, e);
    }
  }

  lemma {:induction false} BothShown(s: System, p: nat, q: nat, key: Section)
    requires Inv(s) && p < q && Of(s, p, key) && Of(s, q, key) && Shown(s, p) && Shown(s, q)
    ensures PublishedTwice(s, key)
  {
    assert Unfold(0);
    var a: nat :| a < |s.log| && Entry(s, a).id == p;
    var b: nat :| b < |s.log| && Entry(s, b).id == q;
    assert Entry(s, a).key == key && Entry(s, b).key == key;
    assert a < b || b < a;
  }

  /** The section is published twice by what is already under way. */
  ghost predicate Repeats(s: System, key: Section) {
    exists more, t :: OnlySettles(more) && Runs(s, more, t) && PublishedTwice(t, key)
  }

  lemma {:induction false} TwiceRepeats(s: System, key: Section)
    requires !s.closed && Inv(s) && NoneForgotten(s) && Twice(s, key)
    ensures Repeats(s, key)
  {
    var p: nat, q: nat :| p < q && Of(s, p, key) && Of(s, q, key);
    var a, m := Settle(s, p, q, key);
    var b, t := Settle(m, q, p, key);
    RunsOn(s, a, m, b, t);
    ShownStays(m, t, p);
    BothShown(t, p, q, key);
    assert OnlySettles(a + b);
  }

  /**
   Exactly when a section is published twice. In every run that has not been shut down
   the section has been published twice, or will be by the timeouts and publish calls
   under way, if and only if a bar of the section came after its eviction.
   */
  lemma {:induction false} TwiceExactly(events: seq<Event>, s: System, key: Section)
    requires Runs(Start(), events, s) && !s.closed
    ensures Repeats(s, key) <==> Straggles(events, key)
  {
    StartIsSound(key);
    if Straggles(events, key) {
      StragglesEither(events, key, false);
      OpenedTwice(Start(), events, s, key, false);
      RunKeeps(Start(), events, s);
      TwiceRepeats(s, key);
    }
    if Repeats(s, key) {
      var more, t :| OnlySettles(more) && Runs(s, more, t) && PublishedTwice(t, key);
      RunsOn(Start(), events, s, more, t);
      TwiceNeedsStraggler(events + more, t, key);
      NotInTheRest(events, more, key);
    }
  }

  lemma {:induction false} NotInTheRest(events: seq<Event>, more: seq<Event>, key: Section)
    requires Straggles(events + more, key) && OnlySettles(more)
    ensures Straggles(events, key)
  {
    var all := events + more;
    var i: nat, j: nat :| i < j < |all| && all[i] == Evict(key) && Marks(all[j], key);
    forall m: nat | m < |more| ensures !Marks(more[m], key) {
      assert more[m] in more;
    }
    assert j < |events|;
    assert events[i] == all[i] && events[j] == all[j];
  }

  // ---------------------------------------------------------------- such runs

  /** One life of a section that only one bar of a larger universe reaches: it times out, is published and evicted. */
  function Life(x: string, key: Section, want: nat, id: nat): seq<Event> {
    [Push(x, key)] + ([Mark(x, key, true, want, true)] + ([OnTimeout(key)] + ([Publish(id, Sent)] + ([Retire(id)] + ([Evict(key)] + [])))))
  }

  lemma {:induction false} Before(s: System, e: Event, events: seq<Event>, t: System)
    requires Enabled(s, e) && Runs(Apply(s, e), events, t)
    ensures Runs(s, [e] + events, t)
  {
    assert ([e] + events)[1..] == events;
  }

  /** The section is gone. */
  predicate Gone(s: System, key: Section) {
    !s.closed && key !in s.sections
  }

  /** A new instance with one symbol, its timeout pending. */
  lemma {:induction false} Reopens(s: System, x: string, key: Section, want: nat)
    requires Gone(s, key) && (x, key) in s.pushed && (x, key) !in s.marked && want >= 2
    ensures var e := Mark(x, key, true, want, true);
            && Enabled(s, e)
            && var t := Apply(s, e);
            && !t.closed && t.log == s.log && t.marked == s.marked + {(x, key)} && t.publishing == s.publishing
            && t.insts == s.insts + [Instance(key, {x}, false)]
            && t.sections == s.sections[key := |s.insts|] && key in t.timeouts
  {
    var n := Noted(s, x, key);
    var o, id := Open(n, key), |s.insts|;
    assert o.insts[id] == Instance(key, {}, false);
    var m := Added(o, id, x);
    assert {} + {x} == {x} && |{x}| == 1;
    assert m.insts[id].symbols == {x};
  }

  /** The timeout decides it, its publish call goes out, and it is retired and evicted. */
  lemma {:induction false} TimesOut(s: System, x: string, key: Section) returns (t: System)
    requires !s.closed && s.insts != [] && s.insts[|s.insts| - 1] == Instance(key, {x}, false)
    requires key in s.sections && s.sections[key] == |s.insts| - 1 && key in s.timeouts
    ensures var id := |s.insts| - 1;
            && Runs(s, [OnTimeout(key)] + ([Publish(id, Sent)] + ([Retire(id)] + ([Evict(key)] + []))), t)
            && Gone(t, key) && |t.insts| == |s.insts| && t.marked == s.marked
            && t.log == s.log + [Emission(id, key, 1, Sent)]
  {
    var id := |s.insts| - 1;
    var a := Apply(s, OnTimeout(key));
    var b := Apply(a, Publish(id, Sent));
    assert |{x}| == 1;
    var c := Apply(b, Retire(id));
    t := Apply(c, Evict(key));
    Before(c, Evict(key), [], t);
    Before(b, Retire(id), [Evict(key)] + [], t);
    Before(a, Publish(id, Sent), [Retire(id)] + ([Evict(key)] + []), t);
    Before(s, OnTimeout(key), [Publish(id, Sent)] + ([Retire(id)] + ([Evict(key)] + [])), t);
  }

  lemma {:induction false} OneLife(s: System, x: string, key: Section, want: nat) returns (t: System)
    requires Gone(s, key) && (x, key) !in s.marked && want >= 2
    ensures Runs(s, Life(x, key, want, |s.insts|), t) && Gone(t, key) && |t.insts| == |s.insts| + 1
    ensures t.marked == s.marked + {(x, key)} && t.log == s.log + [Emission(|s.insts|, key, 1, Sent)]
  {
    var id := |s.insts|;
    var p := Apply(s, Push(x, key));
    Reopens(p, x, key, want);
    var m := Apply(p, Mark(x, key, true, want, true));
    t := TimesOut(m, x, key);
    var rest := [OnTimeout(key)] + ([Publish(id, Sent)] + ([Retire(id)] + ([Evict(key)] + [])));
    Before(p, Mark(x, key, true, want, true), rest, t);
    Before(s, Push(x, key), [Mark(x, key, true, want, true)] + rest, t);
  }

  ghost predicate Distinct(xs: seq<string>) {
    forall i: nat, j: nat :: i < j < |xs| ==> xs[i] != xs[j]
  }

  /**
   However often: each symbol of a universe reports the section's bar once, each after the
   section has timed out and been evicted again, and the section is published for every
   one of them.
   */
  lemma {:induction false} StragglerPublishesAgain(xs: seq<string>, key: Section, want: nat) returns (events: seq<Event>, s: System)
    requires Distinct(xs) && want >= |xs| && want >= 2
    ensures Runs(Start(), events, s) && Gone(s, key) && |s.log| == |s.insts| == |xs|
    ensures forall b :: b in s.marked <==> b.1 == key && b.0 in xs
    ensures forall a: nat {:trigger Entry(s, a)} :: a < |xs| ==> Entry(s, a).key == key && Entry(s, a).outcome == Sent
  {
    if xs == [] {
      events, s := [], Start();
    } else {
      var n := |xs| - 1;
      assert xs == xs[..n] + [xs[n]];
      var before, m := StragglerPublishesAgain(xs[..n], key, want);
      s := OneLife(m, xs[n], key, want);
      events := before + Life(xs[n], key, want, |m.insts|);
      RunsOn(Start(), before, m, Life(xs[n], key, want, |m.insts|), s);
      assert forall a: nat {:trigger Entry(s, a)} :: a < n ==> Entry(s, a) == Entry(m, a);
    }
  }

  /** In particular two symbols of a universe of two publish the section twice. */
  lemma {:induction false} SecondPublish(x: string, y: string, key: Section) returns (events: seq<Event>, s: System)
    requires x != y
    ensures Runs(Start(), events, s) && PublishedTwice(s, key) && Straggles(events, key)
  {
    events, s := StragglerPublishesAgain([x, y], key, 2);
    assert Entry(s, 0).key == key && Entry(s, 1).key == key;
    TwiceNeedsStraggler(events, s, key);
  }
}
