/**
 The cross-section aggregator (internal/dispatcher/aggregator.go with handleClosed in
 dispatcher.go): worker marks, timeout timers, publishing, retention and eviction race
 for a section. Every event is one locked section, one timer callback or one call out.
 */
module Aggregator {
  import opened Options

  datatype Section = Section(interval: string, openTime: int)

  /** One life of a section: a straggler after eviction opens the next one. */
  datatype Instance = Instance(key: Section, symbols: set<string>, published: bool)

  datatype Outcome = Sent | Suppressed | Failed

  /** One call of the ready publisher. */
  datatype Emission = Emission(id: nat, key: Section, count: nat, outcome: Outcome)

  /**
   `timeouts` and `evicts` are the timer callbacks that may still run, by section key:
   a callback knows its key, not the instance it was set for. `pushed` and `marked` are the
   bars whose window push has returned, and those a worker has marked.
   */
  datatype System = System(
    sections: map<Section, nat>,
    insts: seq<Instance>,
    timeouts: multiset<Section>,
    evicts: multiset<Section>,
    publishing: map<nat, nat>,
    retiring: set<nat>,
    log: seq<Emission>,
    pushed: set<(string, Section)>,
    marked: set<(string, Section)>,
    closed: bool)

  datatype Event =
    | Push(symbol: string, key: Section)
    | Mark(symbol: string, key: Section, member: bool, want: nat, stopped: bool)
    | OnTimeout(key: Section)
    | Publish(id: nat, outcome: Outcome)
    | Retire(id: nat)
    | Evict(key: Section)
    | Close
    | StopTimers(timeouts: multiset<Section>, evicts: multiset<Section>)

  /**
   A worker marks a bar only after its window push has returned, and no bar is marked twice:
   it is handed to the workers once (Dispatcher.HandedOnce) and marked once by the one that
   takes it (Dispatcher.HandleClosed).
   */
  predicate Enabled(s: System, e: Event) {
    match e
    case Push(_, _) => true
    case Mark(symbol, key, _, _, _) => (symbol, key) in s.pushed && (symbol, key) !in s.marked
    case OnTimeout(key) => key in s.timeouts
    case Publish(id, _) => id in s.publishing && id < |s.insts|
    case Retire(id) => id in s.retiring && id < |s.insts|
    case Evict(key) => key in s.evicts
    case Close => true
    case StopTimers(timeouts, evicts) => s.closed && timeouts <= s.timeouts && evicts <= s.evicts
  }

  predicate Live(s: System, key: Section) {
    key in s.sections && s.sections[key] < |s.insts|
  }

  /** Looks the section up, opening it when there is none. */
  function Open(s: System, key: Section): System {
    if Live(s, key) then s
    else s.(sections := s.sections[key := |s.insts|], insts := s.insts + [Instance(key, {}, false)],
            timeouts := s.timeouts + multiset{key})
  }

  /** Decides, under the lock, that the instance is published with what it has. */
  function Decide(s: System, id: nat): System
    requires id < |s.insts|
  {
    s.(insts := s.insts[id := s.insts[id].(published := true)], publishing := s.publishing[id := |s.insts[id].symbols|])
  }

  function Added(s: System, id: nat, symbol: string): System
    requires id < |s.insts|
  {
    s.(insts := s.insts[id := s.insts[id].(symbols := s.insts[id].symbols + {symbol})])
  }

  /** Counts the symbol in, and decides when the section is complete; `want` is the universe's size, 0 for none. */
  function Counted(s: System, id: nat, symbol: string, want: nat, stopped: bool): System
    requires id < |s.insts|
  {
    if s.insts[id].published then s
    else
      var m := Added(s, id, symbol);
      if want > 0 && |m.insts[id].symbols| >= want then
        Decide(m, id).(timeouts := if stopped then m.timeouts - multiset{m.insts[id].key} else m.timeouts)
      else m
  }

  /** The bar has reached the aggregator. */
  function Noted(s: System, symbol: string, key: Section): System {
    s.(marked := s.marked + {(symbol, key)})
  }

  /** The locked part of mark. */
  function Marked(s: System, symbol: string, key: Section, want: nat, stopped: bool): System {
    var o := Open(s, key);
    if Live(o, key) then Counted(o, o.sections[key], symbol, want, stopped) else o
  }

  function TimedOut(s: System, key: Section): System {
    var t := s.(timeouts := s.timeouts - multiset{key});
    if Live(s, key) && !s.insts[s.sections[key]].published then Decide(t, s.sections[key]) else t
  }

  /** The call itself: nothing goes out, and nothing is retired, after shutdown. */
  function Published(s: System, id: nat, outcome: Outcome): System
    requires id in s.publishing && id < |s.insts|
  {
    var t := s.(publishing := s.publishing - {id});
    if s.closed then t
    else t.(log := s.log + [Emission(id, s.insts[id].key, s.publishing[id], outcome)], retiring := s.retiring + {id})
  }

  function Retired(s: System, id: nat): System
    requires id < |s.insts|
  {
    var key := s.insts[id].key;
    s.(retiring := s.retiring - {id}, evicts := if Live(s, key) then s.evicts + multiset{key} else s.evicts)
  }

  function Apply(s: System, e: Event): System
    requires Enabled(s, e)
  {
    match e
    case Push(symbol, key) => s.(pushed := s.pushed + {(symbol, key)})
    case Mark(symbol, key, member, want, stopped) =>
      if member then Marked(Noted(s, symbol, key), symbol, key, want, stopped) else Noted(s, symbol, key)
    case OnTimeout(key) => TimedOut(s, key)
    case Publish(id, outcome) => Published(s, id, outcome)
    case Retire(id) => Retired(s, id)
    case Evict(key) => s.(sections := s.sections - {key}, evicts := s.evicts - multiset{key})
    case Close => s.(closed := true)
    case StopTimers(timeouts, evicts) => s.(timeouts := timeouts, evicts := evicts)
  }

  ghost predicate Runs(s: System, events: seq<Event>, t: System)
    decreases |events|
  {
    if events == [] then s == t
    else Enabled(s, events[0]) && Runs(Apply(s, events[0]), events[1..], t)
  }

  function Start(): System {
    System(map[], [], multiset{}, multiset{}, map[], {}, [], {}, {}, false)
  }

  ghost predicate Reachable(s: System) {
    exists events :: Runs(Start(), events, s)
  }

  // ---------------------------------------------------------------- the invariant

  function At(s: System, i: nat): Instance
    requires i < |s.insts|
  {
    s.insts[i]
  }

  /** The instance is the one its key leads to. */
  predicate Current(s: System, i: nat) {
    i < |s.insts| && s.insts[i].key in s.sections && s.sections[s.insts[i].key] == i
  }

  /** What is still to come for the instance: its publish call, its retirement, its eviction. */
  function Pending(s: System, i: nat): nat
    requires i < |s.insts|
  {
    (if i in s.publishing then 1 else 0) + (if i in s.retiring then 1 else 0)
    + if Current(s, i) then s.evicts[s.insts[i].key] else 0
  }

  /**
   One instance: unpublished, it is current, its timeout can still fire and nothing can
   evict it; published, at most one thing is still to come for it.
   */
  ghost predicate Sound(s: System, i: nat)
    requires i < |s.insts|
  {
    var inst := s.insts[i];
    && (forall x :: x in inst.symbols ==> (x, inst.key) in s.pushed)
    && (!inst.published ==> Current(s, i) && Pending(s, i) == 0 && (s.closed || inst.key in s.timeouts))
    && (inst.published ==> Pending(s, i) <= 1 && (Current(s, i) && !s.closed ==> Pending(s, i) == 1))
    && (i in s.publishing ==> s.publishing[i] == |inst.symbols|)
    && (i in s.publishing || i in s.retiring ==> Current(s, i))
  }

  ghost predicate AllSound(s: System) {
    forall i: nat :: i < |s.insts| ==> Sound(s, i)
  }

  ghost predicate Keys(s: System) {
    && (forall key :: key in s.sections ==> Live(s, key) && At(s, s.sections[key]).key == key)
    && (forall key :: key in s.evicts ==> key in s.sections)
    && (forall i :: i in s.publishing || i in s.retiring ==> i < |s.insts|)
  }

  function Entry(s: System, a: nat): Emission
    requires a < |s.log|
  {
    s.log[a]
  }

  /** Each emission is of its own published instance, and counts that instance's symbols. */
  ghost predicate Logged(s: System) {
    && (forall a: nat {:trigger Entry(s, a)} :: a < |s.log| ==>
         var em := Entry(s, a);
         && em.id < |s.insts| && em.id !in s.publishing
         && At(s, em.id).published && em.key == At(s, em.id).key && em.count == |At(s, em.id).symbols|)
    && (forall a: nat, b: nat {:trigger Entry(s, a), Entry(s, b)} :: a < b < |s.log| ==> Entry(s, a).id != Entry(s, b).id)
  }

  ghost predicate Inv(s: System) {
    forall u {:trigger Unfold(u)} :: Unfold(u) ==> Keys(s) && AllSound(s) && Logged(s)
  }

  // ---------------------------------------------------------------- what each step keeps

  lemma {:induction false} OpenKeeps(s: System, key: Section)
    requires Inv(s)
    ensures Inv(Open(s, key)) && Live(Open(s, key), key)
  {
    assert Unfold(0);
    if !Live(s, key) {
      OpenKeepsKeys(s, key);
      OpenKeepsSound(s, key);
      SameLog(s, Open(s, key));
    }
  }

  lemma {:induction false} OpenKeepsKeys(s: System, key: Section)
    requires Keys(s) && !Live(s, key)
    ensures Keys(Open(s, key))
  {
  }

  lemma {:induction false} OpenKeepsSound(s: System, key: Section)
    requires Keys(s) && AllSound(s) && !Live(s, key)
    ensures AllSound(Open(s, key))
  {
    var t := Open(s, key);
    forall i: nat | i < |t.insts| ensures Sound(t, i) {
      assert i < |s.insts| ==> Sound(s, i) && t.insts[i] == s.insts[i];
    }
  }

  /** Nothing that matters to instance `i` differs between the two states. */
  ghost predicate Alike(s: System, t: System, i: nat) {
    && i < |s.insts| && i < |t.insts| && t.insts[i] == s.insts[i] && Current(t, i) == Current(s, i)
    && (i in t.publishing <==> i in s.publishing) && (i in s.publishing ==> t.publishing[i] == s.publishing[i])
    && (i in t.retiring <==> i in s.retiring)
    && (Current(s, i) ==> t.evicts[s.insts[i].key] == s.evicts[s.insts[i].key]
                          || (t.closed && t.evicts[s.insts[i].key] <= s.evicts[s.insts[i].key]))
    && s.pushed <= t.pushed && (s.closed ==> t.closed)
    && (s.insts[i].published || t.closed || (s.insts[i].key in s.timeouts ==> s.insts[i].key in t.timeouts))
  }

  lemma {:induction false} SoundAlike(s: System, t: System, i: nat)
    requires Alike(s, t, i) && Sound(s, i)
    ensures Sound(t, i)
  {
  }

  /** Every instance but `id` is as it was, and `id` is sound. */
  lemma {:induction false} OneChanged(s: System, t: System, id: nat)
    requires AllSound(s) && |t.insts| == |s.insts| && (id < |t.insts| ==> Sound(t, id))
    requires forall i: nat :: i < |s.insts| && i != id ==> Alike(s, t, i)
    ensures AllSound(t)
  {
    forall i: nat | i < |t.insts| ensures Sound(t, i) {
      if i != id {
        assert Alike(s, t, i) && Sound(s, i);
        SoundAlike(s, t, i);
      }
    }
  }

  /** Changes one current, unpublished instance, and no other. */
  lemma {:induction false} AddKeeps(s: System, id: nat, symbol: string)
    requires Inv(s) && id < |s.insts| && !s.insts[id].published && (symbol, s.insts[id].key) in s.pushed
    ensures Inv(Added(s, id, symbol))
  {
    assert Unfold(0);
    var t := Added(s, id, symbol);
    assert Sound(s, id);
    assert Sound(t, id);
    forall i: nat | i < |s.insts| && i != id ensures Alike(s, t, i) {
      assert Sound(s, i);
    }
    OneChanged(s, t, id);
    LoggedStays(s, t, id);
    assert Keys(t) && AllSound(t);
  }

  /** The log speaks only of published instances, so changing an unpublished one leaves it sound. */
  lemma {:induction false} LoggedStays(s: System, t: System, id: nat)
    requires Logged(s) && id < |s.insts| && !s.insts[id].published
    requires t.log == s.log && |t.insts| == |s.insts|
    requires forall i: nat :: i < |s.insts| && i != id ==> t.insts[i] == s.insts[i]
    requires forall i :: i in t.publishing ==> i in s.publishing || i == id
    ensures Logged(t)
  {
    forall a: nat {:trigger Entry(t, a)} | a < |t.log|
      ensures Entry(t, a) == Entry(s, a) && Entry(s, a).id != id && Entry(s, a).id < |s.insts|
      ensures At(t, Entry(s, a).id) == At(s, Entry(s, a).id)
    {
      assert At(s, Entry(s, a).id).published;
    }
  }

  lemma {:induction false} DecidedIsSound(s: System, id: nat, timeouts: multiset<Section>)
    requires Keys(s) && id < |s.insts| && Sound(s, id) && !s.insts[id].published
    ensures Sound(Decide(s, id).(timeouts := timeouts), id)
  {
  }

  lemma {:induction false} DecideKeeps(s: System, id: nat, timeouts: multiset<Section>)
    requires Inv(s) && id < |s.insts| && !s.insts[id].published
    requires forall key :: key != s.insts[id].key && key in s.timeouts ==> key in timeouts
    ensures Inv(Decide(s, id).(timeouts := timeouts))
  {
    assert Unfold(0);
    var t := Decide(s, id).(timeouts := timeouts);
    assert Sound(s, id);
    DecidedIsSound(s, id, timeouts);
    forall i: nat | i < |s.insts| && i != id ensures Alike(s, t, i) {
      assert Sound(s, i);
    }
    OneChanged(s, t, id);
    LoggedStays(s, t, id);
    assert Keys(t);
  }

  lemma {:induction false} CountedKeeps(s: System, id: nat, symbol: string, want: nat, stopped: bool)
    requires Inv(s) && id < |s.insts| && (symbol, s.insts[id].key) in s.pushed
    ensures Inv(Counted(s, id, symbol, want, stopped))
  {
    assert Unfold(0);
    if !s.insts[id].published {
      var m := Added(s, id, symbol);
      AddKeeps(s, id, symbol);
      DecideKeeps(m, id, if stopped then m.timeouts - multiset{m.insts[id].key} else m.timeouts);
    }
  }

  lemma {:induction false} MarkKeeps(s: System, symbol: string, key: Section, want: nat, stopped: bool)
    requires Inv(s) && (symbol, key) in s.pushed
    ensures Inv(Marked(s, symbol, key, want, stopped))
  {
    assert Unfold(0);
    var o := Open(s, key);
    OpenKeeps(s, key);
    assert At(o, o.sections[key]).key == key;
    CountedKeeps(o, o.sections[key], symbol, want, stopped);
  }

  lemma {:induction false} TimedOutKeeps(s: System, key: Section)
    requires Inv(s) && key in s.timeouts
    ensures Inv(TimedOut(s, key))
  {
    assert Unfold(0);
    if Live(s, key) && !s.insts[s.sections[key]].published {
      assert At(s, s.sections[key]).key == key;
      DecideKeeps(s, s.sections[key], s.timeouts - multiset{key});
    } else {
      var t := s.(timeouts := s.timeouts - multiset{key});
      forall i: nat | i < |s.insts| ensures Alike(s, t, i) {
        assert Sound(s, i);
      }
      OneChanged(s, t, |s.insts|);
      SameLog(s, t);
      assert Keys(t) && AllSound(t);
    }
  }

  lemma {:induction false} SameLog(s: System, t: System)
    requires Logged(s) && t.log == s.log && s.insts <= t.insts && forall i :: i in t.publishing ==> i in s.publishing
    ensures Logged(t)
  {
    forall a: nat {:trigger Entry(t, a)} | a < |t.log|
      ensures Entry(t, a) == Entry(s, a) && Entry(s, a).id < |s.insts| && At(t, Entry(s, a).id) == At(s, Entry(s, a).id)
    {
    }
  }

  /** Logging the emission of a published instance that was still to be published. */
  lemma {:induction false} LogMore(s: System, t: System, em: Emission)
    requires Logged(s) && t.log == s.log + [em] && t.insts == s.insts
    requires em.id in s.publishing && em.id !in t.publishing && forall i :: i in t.publishing ==> i in s.publishing
    requires em.id < |s.insts| && s.insts[em.id].published
    requires em.key == s.insts[em.id].key && em.count == |s.insts[em.id].symbols|
    ensures Logged(t)
  {
    forall a: nat {:trigger Entry(t, a)} | a < |t.log|
      ensures Entry(t, a).id < |s.insts| && At(t, Entry(t, a).id) == At(s, Entry(t, a).id)
      ensures a < |s.log| ==> Entry(t, a) == Entry(s, a) && Entry(s, a).id != em.id
    {
      assert a < |s.log| ==> Entry(t, a) == Entry(s, a) && Entry(s, a).id !in s.publishing;
    }
  }

  lemma {:induction false} PublishKeeps(s: System, id: nat, outcome: Outcome)
    requires Inv(s) && Enabled(s, Publish(id, outcome))
    ensures Inv(Published(s, id, outcome))
  {
    assert Unfold(0);
    var t := Published(s, id, outcome);
    assert Sound(s, id);
    assert Sound(t, id);
    forall i: nat | i < |s.insts| && i != id ensures Alike(s, t, i) {
      assert Sound(s, i);
    }
    OneChanged(s, t, id);
    if s.closed {
      SameLog(s, t);
    } else {
      LogMore(s, t, Emission(id, s.insts[id].key, s.publishing[id], outcome));
    }
    assert Keys(t) && AllSound(t);
  }

  lemma {:induction false} RetireKeeps(s: System, id: nat)
    requires Inv(s) && Enabled(s, Retire(id))
    ensures Inv(Retired(s, id))
  {
    assert Unfold(0);
    var t := Retired(s, id);
    assert Sound(s, id);
    assert Sound(t, id);
    forall i: nat | i < |s.insts| && i != id ensures Alike(s, t, i) {
      assert Sound(s, i);
    }
    OneChanged(s, t, id);
    SameLog(s, t);
    assert Keys(t) && AllSound(t);
  }

  lemma {:induction false} EvictKeeps(s: System, key: Section)
    requires Inv(s) && Enabled(s, Evict(key))
    ensures Inv(Apply(s, Evict(key)))
  {
    assert Unfold(0);
    var t := Apply(s, Evict(key));
    var id := s.sections[key];
    assert At(s, id).key == key && Sound(s, id);
    forall i: nat | i < |t.insts| ensures Sound(t, i) {
      assert Sound(s, i);
      assert i != id ==> Current(t, i) == Current(s, i);
    }
    SameLog(s, t);
    assert Keys(t) && AllSound(t);
  }

  lemma {:induction false} OtherKeeps(s: System, e: Event)
    requires Inv(s) && Enabled(s, e) && (e.Push? || e.Close? || e.StopTimers?)
    ensures Inv(Apply(s, e))
  {
    assert Unfold(0);
    var t := Apply(s, e);
    forall i: nat | i < |s.insts| ensures Alike(s, t, i) { OtherAlike(s, e, i); }
    OneChanged(s, t, |s.insts|);
    SameLog(s, t);
    assert Keys(t) by { StaysKeyed(s, t); }
  }

  lemma {:induction false} OtherAlike(s: System, e: Event, i: nat)
    requires Enabled(s, e) && (e.Push? || e.Close? || e.StopTimers?) && i < |s.insts|
    ensures Alike(s, Apply(s, e), i)
  {
  }

  lemma {:induction false} StaysKeyed(s: System, t: System)
    requires Keys(s) && t.sections == s.sections && t.insts == s.insts && t.publishing == s.publishing && t.retiring == s.retiring
    requires forall key :: key in t.evicts ==> key in s.evicts
    ensures Keys(t)
  {
  }

  lemma {:induction false} NotedKeeps(s: System, symbol: string, key: Section)
    requires Inv(s)
    ensures Inv(Noted(s, symbol, key))
  {
    assert Unfold(0);
    var t := Noted(s, symbol, key);
    forall i: nat | i < |s.insts| ensures Alike(s, t, i) {
    }
    OneChanged(s, t, |s.insts|);
    SameLog(s, t);
    StaysKeyed(s, t);
  }

  lemma {:induction false} StepKeeps(s: System, e: Event)
    requires Inv(s) && Enabled(s, e)
    ensures Inv(Apply(s, e))
  {
    match e {
      case Mark(symbol, key, member, want, stopped) =>
        NotedKeeps(s, symbol, key);
        if member { MarkKeeps(Noted(s, symbol, key), symbol, key, want, stopped); }
      case OnTimeout(key) => TimedOutKeeps(s, key);
      case Publish(id, outcome) => PublishKeeps(s, id, outcome);
      case Retire(id) => RetireKeeps(s, id);
      case Evict(key) => EvictKeeps(s, key);
      case _ => OtherKeeps(s, e);
    }
  }

  // ---------------------------------------------------------------- nothing is forgotten

  ghost predicate Shown(s: System, i: nat) {
    exists a: nat {:trigger Entry(s, a)} :: a < |s.log| && Entry(s, a).id == i
  }

  /** Before shutdown every published instance is about to be shown or has been. */
  ghost predicate NoneForgotten(s: System) {
    s.closed || forall i: nat :: i < |s.insts| && s.insts[i].published && i !in s.publishing ==> Shown(s, i)
  }

  lemma {:induction false} ShownStays(s: System, t: System, i: nat)
    requires Shown(s, i) && s.log <= t.log
    ensures Shown(t, i)
  {
    var a: nat :| a < |s.log| && Entry(s, a).id == i;
    assert Entry(t, a) == Entry(s, a);
  }

  lemma {:induction false} NoneForgottenStep(s: System, e: Event)
    requires NoneForgotten(s) && Enabled(s, e)
    ensures NoneForgotten(Apply(s, e))
  {
    var t := Apply(s, e);
    if !t.closed {
      forall i: nat | i < |t.insts| && t.insts[i].published && i !in t.publishing ensures Shown(t, i) {
        ShownNext(s, e, i);
      }
    }
  }

  lemma {:induction false} ShownNext(s: System, e: Event, i: nat)
    requires Enabled(s, e) && !Apply(s, e).closed
    requires i < |Apply(s, e).insts| && Apply(s, e).insts[i].published && i !in Apply(s, e).publishing
    requires i < |s.insts| && s.insts[i].published && i !in s.publishing ==> Shown(s, i)
    ensures Shown(Apply(s, e), i)
  {
    LogGrows(s, e);
    if i < |s.insts| && s.insts[i].published && i !in s.publishing {
      ShownStays(s, Apply(s, e), i);
    } else {
      OnlyPublishEnds(s, e, i);
      assert Entry(Apply(s, e), |s.log|).id == i;
    }
  }

  lemma {:induction false} LogGrows(s: System, e: Event)
    requires Enabled(s, e)
    ensures s.log <= Apply(s, e).log && (s.closed ==> Apply(s, e).closed)
  {
    if e.Mark? && e.member {
      MarkIsSilent(Noted(s, e.symbol, e.key), e.symbol, e.key, e.want, e.stopped);
    }
  }

  lemma {:induction false} MarkIsSilent(s: System, symbol: string, key: Section, want: nat, stopped: bool)
    ensures var t := Marked(s, symbol, key, want, stopped); t.log == s.log && t.closed == s.closed
  {
    var o := Open(s, key);
    if Live(o, key) {
      CountedIsSilent(o, o.sections[key], symbol, want, stopped);
    }
  }

  lemma {:induction false} CountedIsSilent(s: System, id: nat, symbol: string, want: nat, stopped: bool)
    requires id < |s.insts|
    ensures var t := Counted(s, id, symbol, want, stopped); t.log == s.log && t.closed == s.closed
  {
  }

  lemma {:induction false} MarkPublishes(s: System, symbol: string, key: Section, want: nat, stopped: bool, i: nat)
    requires i < |Marked(s, symbol, key, want, stopped).insts| && Marked(s, symbol, key, want, stopped).insts[i].published
    requires i < |s.insts| && s.insts[i].published ==> i in s.publishing
    ensures i in Marked(s, symbol, key, want, stopped).publishing
  {
    var o := Open(s, key);
    OpenPublishesNothing(s, key, i);
    if Live(o, key) && i < |o.insts| {
      CountedPublishes(o, o.sections[key], symbol, want, stopped, i);
    }
  }

  lemma {:induction false} OpenPublishesNothing(s: System, key: Section, i: nat)
    ensures var o := Open(s, key);
            o.publishing == s.publishing && (i < |o.insts| && o.insts[i].published ==> i < |s.insts| && s.insts[i].published)
  {
  }

  lemma {:induction false} CountedPublishes(s: System, id: nat, symbol: string, want: nat, stopped: bool, i: nat)
    requires id < |s.insts| && i < |s.insts| && Counted(s, id, symbol, want, stopped).insts[i].published
    requires s.insts[i].published ==> i in s.publishing
    ensures i in Counted(s, id, symbol, want, stopped).publishing
  {
  }

  /** An instance leaves the publishing set only by its own publish call. */
  lemma {:induction false} OnlyPublishEnds(s: System, e: Event, i: nat)
    requires Enabled(s, e) && i < |Apply(s, e).insts| && Apply(s, e).insts[i].published
    requires i < |s.insts| && s.insts[i].published ==> i in s.publishing
    ensures i in Apply(s, e).publishing || e == Publish(i, if e.Publish? then e.outcome else Sent)
  {
    if e.Mark? && e.member {
      MarkPublishes(Noted(s, e.symbol, e.key), e.symbol, e.key, e.want, e.stopped, i);
    }
  }

  lemma {:induction false} RunKeeps(s: System, events: seq<Event>, t: System)
    requires Inv(s) && NoneForgotten(s) && Runs(s, events, t)
    ensures Inv(t) && NoneForgotten(t)
    decreases |events|
  {
    if events != [] {
      StepKeeps(s, events[0]);
      NoneForgottenStep(s, events[0]);
      RunKeeps(Apply(s, events[0]), events[1..], t);
    }
  }

  lemma {:induction false} ReachableInv(s: System)
    requires Reachable(s)
    ensures Inv(s) && NoneForgotten(s)
  {
    assert Unfold(0);
    var events :| Runs(Start(), events, s);
    RunKeeps(Start(), events, s);
  }

  // ---------------------------------------------------------------- what holds in every reachable state

  /** No section instance is published twice, however marks, timeouts, retention and eviction interleave. */
  lemma {:induction false} AtMostOnce(s: System, a: nat, b: nat)
    requires Reachable(s) && a < |s.log| && b < |s.log| && s.log[a].id == s.log[b].id
    ensures a == b
  {
    assert Unfold(0);
    ReachableInv(s);
    assert Entry(s, a).id == Entry(s, b).id;
  }

  /**
   The published count is the number of distinct symbols marked for that instance, and
   each of them had its window pushed before.
   */
  lemma {:induction false} CountedAreWritten(s: System, a: nat)
    requires Reachable(s) && a < |s.log|
    ensures var em := s.log[a];
            && em.id < |s.insts| && s.insts[em.id].key == em.key && em.count == |s.insts[em.id].symbols|
            && forall x :: x in s.insts[em.id].symbols ==> (x, em.key) in s.pushed
  {
    assert Unfold(0);
    ReachableInv(s);
    assert Entry(s, a).id < |s.insts| && Sound(s, Entry(s, a).id);
  }

  /** The event marks this bar. */
  predicate MarksBar(e: Event, symbol: string, key: Section) {
    e.Mark? && e.symbol == symbol && e.key == key
  }

  /**
   The guard of `Mark` is the order of a worker's calls: once its window push has returned
   it may mark the bar, whatever others do in between, until it does.
   */
  lemma {:induction false} PushedMayMark(s: System, symbol: string, key: Section, events: seq<Event>, t: System,
                                         member: bool, want: nat, stopped: bool)
    requires Runs(s, events, t) && (symbol, key) in s.pushed && (symbol, key) !in s.marked
    ensures Enabled(t, Mark(symbol, key, member, want, stopped)) <==> forall e :: e in events ==> !MarksBar(e, symbol, key)
    decreases |events|
  {
    if events != [] {
      BarsStay(s, events[0]);
      assert events == [events[0]] + events[1..];
      if MarksBar(events[0], symbol, key) {
        MarkedForGood(Apply(s, events[0]), symbol, key, events[1..], t);
      } else {
        PushedMayMark(Apply(s, events[0]), symbol, key, events[1..], t, member, want, stopped);
      }
    }
  }

  lemma {:induction false} MarkedForGood(s: System, symbol: string, key: Section, events: seq<Event>, t: System)
    requires Runs(s, events, t) && (symbol, key) in s.marked
    ensures (symbol, key) in t.marked
    decreases |events|
  {
    if events != [] {
      BarsStay(s, events[0]);
      MarkedForGood(Apply(s, events[0]), symbol, key, events[1..], t);
    }
  }

  /** Bars are pushed and marked for good, and only a mark marks. */
  lemma {:induction false} BarsStay(s: System, e: Event)
    requires Enabled(s, e)
    ensures s.pushed <= Apply(s, e).pushed
    ensures Apply(s, e).marked == s.marked + if e.Mark? then {(e.symbol, e.key)} else {}
  {
    if e.Mark? && e.member {
      MarkedKeepsBars(Noted(s, e.symbol, e.key), e.symbol, e.key, e.want, e.stopped);
    }
  }

  lemma {:induction false} MarkedKeepsBars(s: System, symbol: string, key: Section, want: nat, stopped: bool)
    ensures var t := Marked(s, symbol, key, want, stopped); t.pushed == s.pushed && t.marked == s.marked
  {
    var o := Open(s, key);
    if Live(o, key) {
      CountedKeepsBars(o, o.sections[key], symbol, want, stopped);
    }
  }

  lemma {:induction false} CountedKeepsBars(s: System, id: nat, symbol: string, want: nat, stopped: bool)
    requires id < |s.insts|
    ensures var t := Counted(s, id, symbol, want, stopped); t.pushed == s.pushed && t.marked == s.marked
  {
  }

  /**
   No section gets lost: until it is decided an instance stays the current one of its
   key, with a timeout that can still fire; once decided, it is published unless the
   process is shutting down.
   */
  lemma {:induction false} NoneLost(s: System, i: nat)
    requires Reachable(s) && !s.closed && i < |s.insts|
    ensures !s.insts[i].published ==> Current(s, i) && s.insts[i].key in s.timeouts
    ensures s.insts[i].published ==> i in s.publishing || Shown(s, i)
    ensures !Current(s, i) ==> Shown(s, i)
  {
    assert Unfold(0);
    ReachableInv(s);
    assert Sound(s, i);
  }

  lemma {:induction false} ClosedStep(s: System, e: Event)
    requires s.closed && Enabled(s, e)
    ensures Apply(s, e).closed && Apply(s, e).log == s.log
  {
    if e.Mark? && e.member {
      MarkIsSilent(Noted(s, e.symbol, e.key), e.symbol, e.key, e.want, e.stopped);
    }
  }

  lemma {:induction false} ClosedRun(s: System, events: seq<Event>, t: System)
    requires s.closed && Runs(s, events, t)
    ensures t.closed && t.log == s.log
    decreases |events|
  {
    if events != [] {
      ClosedStep(s, events[0]);
      ClosedRun(Apply(s, events[0]), events[1..], t);
    }
  }

  /** Once the process shuts down nothing more is published, whatever marks, timeouts and publish calls still come. */
  lemma {:induction false} NothingAfterClose(s: System, events: seq<Event>, t: System)
    requires Runs(Apply(s, Close), events, t)
    ensures t.log == s.log
  {
    ClosedRun(Apply(s, Close), events, t);
  }

  /** At shutdown every timer can be stopped, no timer before, and a stopped timer does not fire. */
  lemma {:induction false} StopTimersStops(s: System, key: Section)
    ensures Enabled(s, StopTimers(multiset{}, multiset{})) <==> s.closed
    ensures s.closed ==>
      var t := Apply(s, StopTimers(multiset{}, multiset{}));
      !Enabled(t, OnTimeout(key)) && !Enabled(t, Evict(key)) && t.insts == s.insts && t.log == s.log
  {
  }

  // ---------------------------------------------------------------- a section is published when it is complete

  /** The symbols of the instance that stands for the section; none when it is not open. */
  function SymbolsOf(s: System, key: Section): set<string> {
    if Live(s, key) then s.insts[s.sections[key]].symbols else {}
  }

  predicate IsDecided(s: System, key: Section) {
    Live(s, key) && s.insts[s.sections[key]].published
  }

  /** What counting a symbol in does to a section that is open and not decided. */
  lemma {:induction false} CountDecides(s: System, key: Section, symbol: string, want: nat, stopped: bool)
    requires Live(s, key) && !IsDecided(s, key) && s.insts[s.sections[key]].key == key
    ensures var id, t := s.sections[key], Counted(s, s.sections[key], symbol, want, stopped);
            var n := |SymbolsOf(s, key) + {symbol}|;
            && t.sections == s.sections && |t.insts| == |s.insts| && t.insts[id].key == key
            && SymbolsOf(t, key) == SymbolsOf(s, key) + {symbol} && (IsDecided(t, key) <==> 0 < want <= n)
            && t.publishing == (if 0 < want <= n then s.publishing[id := n] else s.publishing)
            && t.timeouts == (if 0 < want <= n && stopped then s.timeouts - multiset{key} else s.timeouts)
  {
  }

  /** Looking a section up opens it, empty and with a timer, exactly if there is none. */
  lemma {:induction false} OpenOpens(s: System, key: Section)
    requires Keys(s)
    ensures var o := Open(s, key);
            && Live(o, key) && o.insts[o.sections[key]].key == key && o.publishing == s.publishing
            && SymbolsOf(o, key) == SymbolsOf(s, key) && (IsDecided(o, key) <==> IsDecided(s, key))
            && o.insts == s.insts + (if Live(s, key) then [] else [Instance(key, {}, false)])
            && o.timeouts == s.timeouts + if Live(s, key) then multiset{} else multiset{key}
  {
    if Live(s, key) {
      assert At(s, s.sections[key]).key == key;
      assert s.insts + [] == s.insts && s.timeouts + multiset{} == s.timeouts;
    }
  }

  /** The timers of a section after a mark: a new section has one, and completion stops it if that is still possible. */
  function TimersAfter(s: System, key: Section, complete: bool, stopped: bool): multiset<Section> {
    var timers := s.timeouts + if Live(s, key) then multiset{} else multiset{key};
    if complete && stopped then timers - multiset{key} else timers
  }

  /**
   What the mark of a member does. It opens the section, with a timer, when there is none.
   A section that was decided before stays as it was. Any other one counts the symbol in,
   and is decided exactly if it then has `want` symbols; it is on its way to be published
   with that count, and its timer is stopped if that is still possible.
   */
  lemma {:induction false} MarkDecides(s: System, symbol: string, key: Section, want: nat, stopped: bool)
    requires Keys(s) && Enabled(s, Mark(symbol, key, true, want, stopped))
    ensures var t := Apply(s, Mark(symbol, key, true, want, stopped));
            && Live(t, key) && |t.insts| == |s.insts| + (if Live(s, key) then 0 else 1)
            && (IsDecided(s, key) ==> t.insts == s.insts && t.publishing == s.publishing && t.timeouts == s.timeouts)
            && (!IsDecided(s, key) ==>
                 var id, n := t.sections[key], |SymbolsOf(s, key) + {symbol}|;
                 && SymbolsOf(t, key) == SymbolsOf(s, key) + {symbol} && t.insts[id].key == key
                 && (IsDecided(t, key) <==> 0 < want <= n)
                 && (IsDecided(t, key) ==> id in t.publishing && t.publishing[id] == n)
                 && t.timeouts == TimersAfter(s, key, 0 < want <= n, stopped))
  {
    var m := Noted(s, symbol, key);
    OpenOpens(m, key);
    var o := Open(m, key);
    assert Apply(s, Mark(symbol, key, true, want, stopped)) == Counted(o, o.sections[key], symbol, want, stopped);
    if IsDecided(s, key) {
      assert o == m;
    } else {
      CountDecides(o, key, symbol, want, stopped);
    }
  }

  /** A timeout decides the section it finds open, with what it has. */
  lemma {:induction false} TimeoutDecides(s: System, key: Section)
    requires Keys(s) && Enabled(s, OnTimeout(key)) && Live(s, key)
    ensures var t := Apply(s, OnTimeout(key));
            && IsDecided(t, key) && SymbolsOf(t, key) == SymbolsOf(s, key)
            && (!IsDecided(s, key) ==> s.sections[key] in t.publishing && t.publishing[s.sections[key]] == |SymbolsOf(s, key)|)
            && (IsDecided(s, key) ==> t.publishing == s.publishing)
  {
  }

  /** The symbol that the event marks for the section, if it does. */
  function MarkedBy(e: Event, key: Section): set<string> {
    if e.Mark? && e.member && e.key == key then {e.symbol} else {}
  }

  /** The symbols that the events mark for the section. */
  function MarkedIn(events: seq<Event>, key: Section): set<string> {
    if events == [] then {} else MarkedBy(events[0], key) + MarkedIn(events[1..], key)
  }

  /** The universe has `want` symbols, the section is not evicted, and its timeout does not fire. */
  predicate Undisturbed(e: Event, key: Section, want: nat) {
    && e != OnTimeout(key) && e != Evict(key)
    && (e.Mark? && e.member && e.key == key ==> e.want == want)
  }

  /** The section as it is when the symbols `seen` have been marked. */
  ghost predicate Filled(s: System, key: Section, seen: set<string>, want: nat) {
    forall u {:trigger Unfold(u)} :: Unfold(u) ==>
      && (IsDecided(s, key) <==> |seen| >= want) && SymbolsOf(s, key) <= seen
      && (|seen| < want ==> SymbolsOf(s, key) == seen) && (|seen| >= want ==> |SymbolsOf(s, key)| == want)
      && (key in s.sections <==> seen != {})
      && (IsDecided(s, key) && s.sections[key] in s.publishing ==> s.publishing[s.sections[key]] == want)
  }

  /** The section is the same in both states, but that its publish call may have come. */
  ghost predicate Same(s: System, t: System, key: Section) {
    && (key in t.sections <==> key in s.sections) && (Live(s, key) <==> Live(t, key))
    && (Live(s, key) ==>
         && t.sections[key] == s.sections[key] && t.insts[t.sections[key]] == s.insts[s.sections[key]]
         && (s.sections[key] in t.publishing ==> s.sections[key] in s.publishing && t.publishing[s.sections[key]] == s.publishing[s.sections[key]]))
  }

  /** A mark of another section leaves this one alone. */
  lemma {:induction false} MarkElsewhere(s: System, e: Event, key: Section)
    requires Keys(s) && Enabled(s, e) && e.Mark? && e.member && e.key != key
    ensures Same(s, Apply(s, e), key)
  {
    var m := Noted(s, e.symbol, e.key);
    var o := Open(m, e.key);
    OpenOpens(m, e.key);
    assert Live(s, key) ==> At(s, s.sections[key]).key == key;
    assert Same(s, o, key);
    CountElsewhere(o, o.sections[e.key], e.symbol, e.want, e.stopped, key);
  }

  lemma {:induction false} CountElsewhere(s: System, id: nat, symbol: string, want: nat, stopped: bool, key: Section)
    requires id < |s.insts| && (Live(s, key) ==> s.sections[key] != id)
    ensures Same(s, Counted(s, id, symbol, want, stopped), key)
  {
  }

  /** Every event but a mark of the section, its timeout and its eviction leaves it alone. */
  lemma {:induction false} Elsewhere(s: System, e: Event, key: Section)
    requires Keys(s) && Enabled(s, e) && e != OnTimeout(key) && e != Evict(key)
    requires !(e.Mark? && e.member && e.key == key)
    ensures Same(s, Apply(s, e), key)
  {
    if e.Mark? && e.member {
      MarkElsewhere(s, e, key);
    } else if e.OnTimeout? {
      TimeoutElsewhere(s, e.key, key);
    } else if e.Evict? {
      EvictElsewhere(s, e.key, key);
    }
  }

  lemma {:induction false} TimeoutElsewhere(s: System, other: Section, key: Section)
    requires Keys(s) && other in s.timeouts && other != key
    ensures Same(s, TimedOut(s, other), key)
  {
    assert Live(s, key) ==> At(s, s.sections[key]).key == key;
    assert Live(s, other) ==> At(s, s.sections[other]).key == other;
  }

  lemma {:induction false} EvictElsewhere(s: System, other: Section, key: Section)
    requires Enabled(s, Evict(other)) && other != key
    ensures Same(s, Apply(s, Evict(other)), key)
  {
  }

  lemma {:induction false} FilledElsewhere(s: System, t: System, key: Section, seen: set<string>, want: nat)
    requires Same(s, t, key) && Filled(s, key, seen, want)
    ensures Filled(t, key, seen, want)
  {
    assert Unfold(0);
  }

  lemma {:induction false} FilledMark(s: System, symbol: string, key: Section, seen: set<string>, want: nat, stopped: bool)
    requires Keys(s) && Enabled(s, Mark(symbol, key, true, want, stopped)) && want > 0 && Filled(s, key, seen, want)
    ensures Filled(Apply(s, Mark(symbol, key, true, want, stopped)), key, seen + {symbol}, want)
  {
    assert Unfold(0);
    MarkDecides(s, symbol, key, want, stopped);
    SubsetSize(seen, seen + {symbol});
    OneMember(seen, symbol);
  }

  lemma {:induction false} OneMember(seen: set<string>, symbol: string)
    ensures |seen + {symbol}| == |seen| + if symbol in seen then 0 else 1
  {
    if symbol in seen {
      assert seen + {symbol} == seen;
    }
  }

  lemma {:induction false} FilledStep(s: System, e: Event, key: Section, seen: set<string>, want: nat)
    requires Keys(s) && Enabled(s, e) && want > 0 && Undisturbed(e, key, want) && Filled(s, key, seen, want)
    ensures Filled(Apply(s, e), key, seen + MarkedBy(e, key), want)
  {
    if e.Mark? && e.member && e.key == key {
      FilledMark(s, e.symbol, key, seen, want, e.stopped);
    } else {
      Elsewhere(s, e, key);
      FilledElsewhere(s, Apply(s, e), key, seen, want);
      assert seen + MarkedBy(e, key) == seen;
    }
  }

  lemma {:induction false} FilledRun(s: System, events: seq<Event>, t: System, key: Section, seen: set<string>, want: nat)
    requires Inv(s) && Runs(s, events, t) && want > 0 && Filled(s, key, seen, want)
    requires forall i :: 0 <= i < |events| ==> Undisturbed(events[i], key, want)
    ensures Filled(t, key, seen + MarkedIn(events, key), want)
    decreases |events|
  {
    if events == [] {
      assert seen + {} == seen;
    } else {
      var n, more := Apply(s, events[0]), seen + MarkedBy(events[0], key);
      assert Keys(s) by { assert Unfold(0); }
      FilledStep(s, events[0], key, seen, want);
      StepKeeps(s, events[0]);
      FilledRun(n, events[1..], t, key, more, want);
      assert more + MarkedIn(events[1..], key) == seen + MarkedIn(events, key);
    }
  }

  /** The instance has been published with this count. */
  ghost predicate ShownWith(s: System, id: nat, key: Section, count: nat) {
    exists a: nat {:trigger Entry(s, a)} :: a < |s.log| && Entry(s, a).id == id && Entry(s, a).key == key && Entry(s, a).count == count
  }

  /**
   A section is published on completion, without its timeout: from a state in which it is not
   open, whatever happens to others, it is decided exactly when `want` distinct members have
   marked it, and until the process shuts down it is then about to be published, or has been,
   with that count.
   */
  lemma {:induction false} CompleteIsPublished(s: System, events: seq<Event>, t: System, key: Section, want: nat)
    requires Reachable(s) && Runs(s, events, t) && key !in s.sections && want > 0
    requires forall i :: 0 <= i < |events| ==> Undisturbed(events[i], key, want)
    ensures IsDecided(t, key) <==> |MarkedIn(events, key)| >= want
    ensures !IsDecided(t, key) ==> SymbolsOf(t, key) == MarkedIn(events, key)
    ensures IsDecided(t, key) ==>
      var id := t.sections[key];
      (id in t.publishing && t.publishing[id] == want) || t.closed || ShownWith(t, id, key, want)
  {
    ReachableInv(s);
    RunKeeps(s, events, t);
    assert Filled(s, key, {}, want);
    FilledRun(s, events, t, key, {}, want);
    assert {} + MarkedIn(events, key) == MarkedIn(events, key);
    assert Unfold(0);
    if IsDecided(t, key) && t.sections[key] !in t.publishing && !t.closed {
      var id := t.sections[key];
      assert Shown(t, id) && At(t, id).key == key;
    }
  }
}
