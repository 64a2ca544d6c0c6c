/**
 Who owns which key, in every interleaving of submitters and the one runner
 (Submit, run, drainRelease, process and releaseKeys in internal/backfill/backfill.go).
 Every event is one atomic action: a locked section, one gate call, one channel operation.
 */
module Ownership {
  import opened Options
  import opened RepairJobs
  import opened WindowGate

  datatype Reply = Reply(outcomes: seq<Job>, skipped: int)

  /**
   How far a request has come. `Holding(n)` and `Releasing(n)` have held, respectively
   released, the first `n` of its keys; `Leaving` is about to give its keys up.
   */
  datatype Stage = Arrived | Holding(n: nat) | Queued | Working | Leaving | Releasing(n: nat) | Done

  /**
   `jobs` is planned when the runner takes the request up; the first `next` of them have
   been looked at, those in `running` have been started and not finished. `cut` is set when
   a job was left out because the context had ended, `taken` when the runner took the
   request off the queue.
   */
  datatype Request = Request(
    keys: seq<Key>,
    ranges: map<Key, nat>,
    repair: bool,
    own: seq<Key>,
    stage: Stage,
    taken: bool,
    worked: bool,
    jobs: seq<Job>,
    next: nat,
    running: set<Job>,
    cut: bool,
    outcomes: seq<Job>,
    replies: seq<Reply>)

  datatype Runner = Idle | Busy(id: nat) | Draining | Emptying(id: nat) | Exited

  /**
   The shared state. The in-flight set records with every key the request it is
   reserved for; `late` lists the requests queued after the runner was gone.
   */
  datatype System = System(
    inflight: map<Key, nat>,
    gate: map<Key, int>,
    reqs: seq<Request>,
    queue: seq<nat>,
    capacity: nat,
    closed: bool,
    runner: Runner,
    late: set<nat>)

  datatype Event =
    | Submit(keys: seq<Key>, ranges: map<Key, nat>, repair: bool)
    | Admit(id: nat)
    | HoldNext(id: nat)
    | Enqueue(id: nat)
    | Overflow(id: nat)
    | Dequeue(jobs: seq<Job>)
    | StartJob
    | SkipJob
    | Record(job: Job)
    | Finish
    | Unlock(id: nat)
    | ReleaseNext(id: nat)
    | Leave(id: nat)
    | Close
    | StopRunner
    | DrainNext
    | Exit

  // ---------------------------------------------------------------- admission

  predicate Nameless(k: Key) {
    k.symbol == "" || k.interval == ""
  }

  /** The keys a request may own: named, not in flight, each once. */
  function Fresh(keys: seq<Key>, inflight: set<Key>, n: nat): seq<Key>
    requires n <= |keys|
  {
    if n == 0 then []
    else
      var f, k := Fresh(keys, inflight, n - 1), Norm(keys[n - 1]);
      if Nameless(k) || k in inflight || k in f then f else f + [k]
  }

  lemma {:induction false} FreshKeys(keys: seq<Key>, inflight: set<Key>, n: nat)
    requires n <= |keys|
    ensures |Fresh(keys, inflight, n)| <= n && Distinct(Fresh(keys, inflight, n))
    ensures forall k :: k in Fresh(keys, inflight, n) <==>
      k.symbol != "" && k.interval != "" && k !in inflight && exists i :: 0 <= i < n && Norm(keys[i]) == k
  {
    if n > 0 {
      FreshKeys(keys, inflight, n - 1);
      var f, out := Fresh(keys, inflight, n - 1), Fresh(keys, inflight, n);
      forall i: nat, j: nat {:trigger KeyAt(out, i), KeyAt(out, j)} | i < j < |out| ensures KeyAt(out, i) != KeyAt(out, j) {
        if j < |f| {
          assert KeyAt(f, i) != KeyAt(f, j);
        } else {
          assert f[i] in f;
        }
      }
    }
  }

  /** The locked section of Submit: reserves what is free. */
  method Reserve(keys: seq<Key>, inflight: set<Key>) returns (own: seq<Key>, inflight': set<Key>)
    ensures own == Fresh(keys, inflight, |keys|)
    ensures Distinct(own) && forall k :: k in own <==>
      k.symbol != "" && k.interval != "" && k !in inflight && exists i :: 0 <= i < |keys| && Norm(keys[i]) == k
    ensures forall k :: k in inflight' <==> k in inflight || k in own
  {
    own, inflight' := [], inflight;
    for n := 0 to |keys|
      invariant own == Fresh(keys, inflight, n)
      invariant forall k :: k in inflight' <==> k in inflight || k in own
    {
      var k := Norm(keys[n]);
      if Nameless(k) {
        continue;
      }
      if k in inflight' {
        continue;
      }
      inflight' := inflight' + {k};
      own := own + [k];
    }
    FreshKeys(keys, inflight, |keys|);
  }

  // ---------------------------------------------------------------- steps

  /** The reply of a request none of whose keys was worked on. */
  function AllSkipped(r: Request): Reply {
    Reply([], |r.keys|)
  }

  predicate Has(s: System, id: nat, stage: Stage) {
    id < |s.reqs| && s.reqs[id].stage == stage
  }

  /** The runner is at work on a request. */
  predicate AtWork(s: System) {
    s.runner.Busy? && Has(s, s.runner.id, Working)
  }

  /** What the runner plans: a request that is no repair reports no outcomes. */
  ghost predicate Plans(r: Request, jobs: seq<Job>) {
    if r.repair then Lists(jobs, r.own, r.ranges) else jobs == []
  }

  ghost predicate Enabled(s: System, e: Event) {
    match e
    case Submit(_, _, _) => true
    case Admit(id) => Has(s, id, Arrived)
    case HoldNext(id) => id < |s.reqs| && s.reqs[id].stage.Holding? && s.reqs[id].stage.n < |s.reqs[id].own|
    case Enqueue(id) => id < |s.reqs| && Has(s, id, Holding(|s.reqs[id].own|)) && |s.queue| < s.capacity
    case Overflow(id) => id < |s.reqs| && Has(s, id, Holding(|s.reqs[id].own|)) && |s.queue| >= s.capacity
    case Dequeue(jobs) => s.runner.Idle? && s.queue != [] && s.queue[0] < |s.reqs| && Plans(s.reqs[s.queue[0]], jobs)
    case StartJob => AtWork(s) && s.reqs[s.runner.id].next < |s.reqs[s.runner.id].jobs|
    case SkipJob => AtWork(s) && s.reqs[s.runner.id].next < |s.reqs[s.runner.id].jobs|
    case Record(job) => AtWork(s) && job in s.reqs[s.runner.id].running
    case Finish => AtWork(s) && s.reqs[s.runner.id].next == |s.reqs[s.runner.id].jobs| && s.reqs[s.runner.id].running == {}
    case Unlock(id) => Has(s, id, Leaving)
    case ReleaseNext(id) => id < |s.reqs| && s.reqs[id].stage.Releasing? && s.reqs[id].stage.n < |s.reqs[id].own|
    case Leave(id) => id < |s.reqs| && Has(s, id, Releasing(|s.reqs[id].own|))
    case Close => true
    case StopRunner => s.runner.Idle?
    case DrainNext => s.runner.Draining? && s.queue != [] && s.queue[0] < |s.reqs|
    case Exit => s.runner.Draining? && s.queue == []
  }

  /** The events that are about one request already submitted. */
  predicate Moves(e: Event) {
    !e.Submit? && !e.Close? && !e.StopRunner? && !e.Exit?
  }

  /** The events of the request the runner is at work on. */
  predicate OfRunner(e: Event) {
    e.StartJob? || e.SkipJob? || e.Record? || e.Finish?
  }

  /** The request an event is about. */
  function Subject(s: System, e: Event): (id: nat)
    requires Enabled(s, e) && Moves(e)
    ensures id < |s.reqs|
  {
    if e.Dequeue? || e.DrainNext? then s.queue[0]
    else if OfRunner(e) then s.runner.id
    else e.id
  }

  /** The request is out of the gate and of the in-flight set: a reply still owed is given now. */
  function Leaves(r: Request): Request {
    r.(stage := Done, replies := if r.worked then r.replies else r.replies + [AllSkipped(r)])
  }

  function Finished(r: Request): Request {
    r.(stage := Leaving, worked := true,
       replies := if r.repair then r.replies + [Reply(r.outcomes, |r.keys| - |r.own|)] else r.replies)
  }

  function Admitted(r: Request, own: seq<Key>): Request {
    if own == [] then Leaves(r) else r.(own := own, stage := Holding(0))
  }

  /** What becomes of the request. */
  function Next(s: System, e: Event): Request
    requires Enabled(s, e) && Moves(e)
  {
    var r := s.reqs[Subject(s, e)];
    match e
    case Admit(id) => Admitted(r, Fresh(r.keys, s.inflight.Keys, |r.keys|))
    case HoldNext(id) => r.(stage := Holding(r.stage.n + 1))
    case Enqueue(id) => r.(stage := Queued)
    case Overflow(id) => r.(stage := Leaving)
    case Dequeue(jobs) => r.(stage := Working, taken := true, jobs := jobs)
    case StartJob => r.(next := r.next + 1, running := r.running + {r.jobs[r.next]})
    case SkipJob => r.(next := r.next + 1, cut := true)
    case Record(job) => r.(running := r.running - {job}, outcomes := r.outcomes + [job])
    case Finish => Finished(r)
    case Unlock(id) => r.(stage := Releasing(0))
    case ReleaseNext(id) => r.(stage := Releasing(r.stage.n + 1))
    case Leave(id) => Leaves(r)
    case DrainNext => r.(stage := Leaving, taken := true)
  }

  function Own(inflight: map<Key, nat>, keys: seq<Key>, id: nat): map<Key, nat> {
    map k | k in inflight.Keys + (set x | x in keys) :: if k in keys then id else inflight[k]
  }

  function Disown(inflight: map<Key, nat>, keys: seq<Key>): map<Key, nat> {
    inflight - set x | x in keys
  }

  function NextInflight(s: System, e: Event): map<Key, nat>
    requires Enabled(s, e)
  {
    if e.Admit? then Own(s.inflight, Fresh(s.reqs[e.id].keys, s.inflight.Keys, |s.reqs[e.id].keys|), e.id)
    else if e.Unlock? then Disown(s.inflight, s.reqs[e.id].own)
    else s.inflight
  }

  function NextGate(s: System, e: Event): map<Key, int>
    requires Enabled(s, e)
  {
    if e.HoldNext? then
      var k := s.reqs[e.id].own[s.reqs[e.id].stage.n];
      s.gate[k := CountOf(s.gate, k) + 1]
    else if e.ReleaseNext? then
      var k := s.reqs[e.id].own[s.reqs[e.id].stage.n];
      s.gate[k := CountOf(s.gate, k) - 1]
    else s.gate
  }

  function NextQueue(s: System, e: Event): seq<nat>
    requires Enabled(s, e)
  {
    if e.Enqueue? then s.queue + [e.id] else if e.Dequeue? || e.DrainNext? then s.queue[1..] else s.queue
  }

  function NextRunner(s: System, e: Event): Runner
    requires Enabled(s, e)
  {
    match e
    case Dequeue(_) => Busy(s.queue[0])
    case DrainNext => Emptying(s.queue[0])
    case Leave(id) => if s.runner == Busy(id) then Idle else if s.runner == Emptying(id) then Draining else s.runner
    case StopRunner => Draining
    case Exit => Exited
    case _ => s.runner
  }

  function Submitted(keys: seq<Key>, ranges: map<Key, nat>, repair: bool, closed: bool): Request {
    var r := Request(keys, ranges, repair, [], Arrived, false, false, [], 0, {}, false, [], []);
    if closed then Leaves(r) else r
  }

  function Apply(s: System, e: Event): System
    requires Enabled(s, e)
  {
    var reqs :=
      if e.Submit? then s.reqs + [Submitted(e.keys, e.ranges, e.repair, s.closed)]
      else if Moves(e) then s.reqs[Subject(s, e) := Next(s, e)]
      else s.reqs;
    System(NextInflight(s, e), NextGate(s, e), reqs, NextQueue(s, e), s.capacity, s.closed || e.Close?, NextRunner(s, e),
           if e.Enqueue? && s.runner.Exited? then s.late + {e.id} else s.late)
  }

  ghost predicate Step(s: System, e: Event, t: System) {
    forall u {:trigger Unfold(u)} :: Unfold(u) ==> Enabled(s, e) && t == Apply(s, e)
  }

  ghost predicate Runs(s: System, events: seq<Event>, t: System)
    decreases |events|
  {
    if events == [] then s == t
    else exists m :: Step(s, events[0], m) && Runs(m, events[1..], t)
  }

  function Start(capacity: nat): System {
    System(map[], map[], [], [], capacity, false, Idle, {})
  }

  // ---------------------------------------------------------------- one request

  function At(s: System, i: nat): Request
    requires i < |s.reqs|
  {
    s.reqs[i]
  }

  /** Its keys are in the in-flight set. */
  predicate Reserved(r: Request) {
    r.stage.Holding? || r.stage.Queued? || r.stage.Working? || r.stage.Leaving?
  }

  /** It has held the key on the gate and not released it. */
  predicate HoldsKey(r: Request, k: Key) {
    match r.stage
    case Holding(n) => n <= |r.own| && k in r.own[..n]
    case Queued => k in r.own
    case Working => k in r.own
    case Leaving => k in r.own
    case Releasing(n) => n <= |r.own| && k in r.own[n..]
    case Arrived => false
    case Done => false
  }

  /**
   The work on a request: every job looked at is running or recorded, unless the context
   had ended; no job is recorded twice, and none that is not planned.
   */
  ghost predicate Work(r: Request) {
    && NoRepeats(r.jobs) && NoRepeats(r.outcomes) && r.next <= |r.jobs|
    && (forall j :: j in r.running ==> j in r.jobs[..r.next] && j !in r.outcomes)
    && (forall j :: j in r.outcomes ==> j in r.jobs[..r.next])
    && (!r.cut ==> forall j :: j in r.jobs[..r.next] ==> j in r.running || j in r.outcomes)
    && (if r.stage.Working? || r.worked then Plans(r, r.jobs) else r.jobs == [])
    && (r.worked ==> r.running == {} && r.next == |r.jobs|)
  }

  /** What a request looks like at each stage, its replies included. */
  ghost predicate Form(r: Request) {
    && Distinct(r.own) && |r.own| <= |r.keys|
    && (r.stage.Arrived? ==> r.own == [])
    && (r.stage.Holding? || r.stage.Queued? ==> r.own != [])
    && (r.stage.Holding? || r.stage.Releasing? ==> r.stage.n <= |r.own|)
    && (r.worked ==> r.stage.Leaving? || r.stage.Releasing? || r.stage.Done?)
    && r.replies == (if r.worked then if r.repair then [Reply(r.outcomes, |r.keys| - |r.own|)] else []
                     else if r.stage.Done? then [AllSkipped(r)] else [])
  }

  ghost predicate Shape(r: Request) {
    Form(r) && Work(r)
  }

  // ---------------------------------------------------------------- the invariants

  ghost predicate Shapes(s: System) {
    forall i: nat {:trigger At(s, i)} :: i < |s.reqs| ==> Shape(At(s, i))
  }

  /** The in-flight set holds exactly the keys of the reserving requests, each for one of them. */
  ghost predicate Owners(s: System) {
    && (forall k :: k in s.inflight ==>
         s.inflight[k] < |s.reqs| && Reserved(At(s, s.inflight[k])) && k in At(s, s.inflight[k]).own)
    && (forall i: nat {:trigger At(s, i)} :: i < |s.reqs| && Reserved(At(s, i)) ==> OwnsAll(s.inflight, At(s, i).own, i))
  }

  ghost predicate OwnsAll(inflight: map<Key, nat>, keys: seq<Key>, i: nat) {
    forall k :: k in keys ==> k in inflight && inflight[k] == i
  }

  /** How many of the first `n` requests hold the key. */
  function Holders(reqs: seq<Request>, n: nat, k: Key): nat
    requires n <= |reqs|
  {
    if n == 0 then 0 else Holders(reqs, n - 1, k) + if HoldsKey(reqs[n - 1], k) then 1 else 0
  }

  ghost predicate GateCounts(s: System) {
    forall k :: CountOf(s.gate, k) == Holders(s.reqs, |s.reqs|, k)
  }

  function Slot(queue: seq<nat>, p: nat): nat
    requires p < |queue|
  {
    queue[p]
  }

  /** Every entry of the queue is a queued request, listed once. */
  ghost predicate QueueSound(s: System) {
    && (forall p: nat {:trigger Slot(s.queue, p)} :: p < |s.queue| ==> Has(s, Slot(s.queue, p), Queued))
    && (forall p: nat, q: nat {:trigger Slot(s.queue, p), Slot(s.queue, q)} :: p < q < |s.queue| ==> Slot(s.queue, p) != Slot(s.queue, q))
  }

  /** The queue lists the queued requests, and the runner has at most one request in hand. */
  ghost predicate Flow(s: System) {
    && QueueSound(s)
    && (forall i: nat {:trigger At(s, i)} :: i < |s.reqs| ==>
         && (At(s, i).stage.Queued? ==> i in s.queue)
         && (At(s, i).stage.Working? ==> s.runner == Busy(i)))
    && (s.runner.Exited? ==> forall i :: i in s.queue ==> i in s.late)
  }

  /** A request that the runner took off the queue is in its hands until it is done. */
  ghost predicate InHand(s: System) {
    forall i: nat {:trigger At(s, i)} :: i < |s.reqs| && At(s, i).taken ==>
      s.runner == Busy(i) || s.runner == Emptying(i) || At(s, i).stage.Done?
  }

  /** A request queued after the runner was gone is still queued. */
  ghost predicate LateOnes(s: System) {
    forall i: nat :: i in s.late ==> s.runner.Exited? && Has(s, i, Queued)
  }

  ghost predicate Inv(s: System) {
    forall u {:trigger Unfold(u)} :: Unfold(u) ==>
      Shapes(s) && Owners(s) && GateCounts(s) && Flow(s) && InHand(s) && LateOnes(s)
  }

  // ---------------------------------------------------------------- what each step keeps

  lemma {:induction false} HoldersUpdate(reqs: seq<Request>, id: nat, r: Request, n: nat, k: Key)
    requires id < |reqs| && n <= |reqs|
    ensures Holders(reqs[id := r], n, k) == Holders(reqs, n, k)
      + if id < n then (if HoldsKey(r, k) then 1 else 0) - (if HoldsKey(reqs[id], k) then 1 else 0) else 0
  {
    if n > 0 {
      HoldersUpdate(reqs, id, r, n - 1, k);
    }
  }

  lemma {:induction false} HoldersAppend(reqs: seq<Request>, r: Request, n: nat, k: Key)
    requires n <= |reqs|
    ensures Holders(reqs + [r], n, k) == Holders(reqs, n, k)
  {
    if n > 0 {
      HoldersAppend(reqs, r, n - 1, k);
    }
  }

  /** A step that leaves every hold of the request as it was. */
  lemma {:induction false} SameHolds(s: System, id: nat, r: Request)
    requires GateCounts(s) && id < |s.reqs| && forall k :: HoldsKey(r, k) <==> HoldsKey(s.reqs[id], k)
    ensures GateCounts(s.(reqs := s.reqs[id := r]))
  {
    forall k ensures CountOf(s.gate, k) == Holders(s.reqs[id := r], |s.reqs|, k) {
      HoldersUpdate(s.reqs, id, r, |s.reqs|, k);
    }
  }

  /** A step that takes or returns one hold, on the gate and in the request alike. */
  lemma {:induction false} OneHold(s: System, id: nat, r: Request, k: Key, d: int)
    requires GateCounts(s) && id < |s.reqs|
    requires forall x :: x != k ==> (HoldsKey(r, x) <==> HoldsKey(s.reqs[id], x))
    requires d == (if HoldsKey(r, k) then 1 else 0) - if HoldsKey(s.reqs[id], k) then 1 else 0
    ensures GateCounts(s.(reqs := s.reqs[id := r], gate := s.gate[k := CountOf(s.gate, k) + d]))
  {
    var gate := s.gate[k := CountOf(s.gate, k) + d];
    forall x ensures CountOf(gate, x) == Holders(s.reqs[id := r], |s.reqs|, x) {
      HoldersUpdate(s.reqs, id, r, |s.reqs|, x);
    }
  }

  lemma {:induction false} NextKey(own: seq<Key>, n: nat)
    requires Distinct(own) && n < |own|
    ensures forall k :: k in own[..n + 1] <==> k in own[..n] || k == own[n]
    ensures forall k :: k in own[n..] <==> k in own[n + 1..] || k == own[n]
    ensures own[n] !in own[..n] && own[n] !in own[n + 1..]
  {
    assert own[..n + 1] == own[..n] + [own[n]] && own[n..] == [own[n]] + own[n + 1..];
    forall i: nat | i < n ensures own[i] != own[n] { assert KeyAt(own, i) != KeyAt(own, n); }
    forall i: nat | n < i < |own| ensures own[i] != own[n] { assert KeyAt(own, n) != KeyAt(own, i); }
  }

  /** The request holds all of its keys. */
  predicate HoldsAll(r: Request) {
    r.stage == Holding(|r.own|) || r.stage.Queued? || r.stage.Working? || r.stage.Leaving? || r.stage == Releasing(0)
  }

  lemma {:induction false} HoldsAllOfThem(r: Request, k: Key)
    requires HoldsAll(r)
    ensures HoldsKey(r, k) <==> k in r.own
  {
  }

  /** Between two stages at which all keys are held, no hold changes. */
  lemma {:induction false} StillAll(s: System, id: nat, r: Request)
    requires GateCounts(s) && id < |s.reqs|
    requires HoldsAll(s.reqs[id]) && HoldsAll(r) && r.own == s.reqs[id].own
    ensures GateCounts(s.(reqs := s.reqs[id := r]))
  {
    forall k ensures HoldsKey(r, k) <==> HoldsKey(s.reqs[id], k) {
      HoldsAllOfThem(r, k);
      HoldsAllOfThem(s.reqs[id], k);
    }
    SameHolds(s, id, r);
  }

  lemma {:induction false} SubmitCounts(s: System, r: Request)
    requires GateCounts(s) && (r.stage.Arrived? || r.stage.Done?)
    ensures GateCounts(s.(reqs := s.reqs + [r]))
  {
    forall k ensures CountOf(s.gate, k) == Holders(s.reqs + [r], |s.reqs| + 1, k) {
      HoldersAppend(s.reqs, r, |s.reqs|, k);
    }
  }

  /** Only the gate and the list of requests matter to the counts. */
  lemma {:induction false} SameCounts(s: System, t: System)
    requires GateCounts(s) && t.gate == s.gate && t.reqs == s.reqs
    ensures GateCounts(t)
  {
  }

  lemma {:induction false} HoldNextCounts(s: System, id: nat)
    requires GateCounts(s) && Enabled(s, HoldNext(id)) && Form(s.reqs[id])
    ensures GateCounts(s.(reqs := s.reqs[id := Next(s, HoldNext(id))], gate := NextGate(s, HoldNext(id))))
  {
    var r := s.reqs[id];
    HoldsOneMore(r);
    OneHold(s, id, r.(stage := Holding(r.stage.n + 1)), r.own[r.stage.n], 1);
  }

  lemma {:induction false} HoldsOneMore(r: Request)
    requires Distinct(r.own) && r.stage.Holding? && r.stage.n < |r.own|
    ensures var k, r' := r.own[r.stage.n], r.(stage := Holding(r.stage.n + 1));
            && !HoldsKey(r, k) && HoldsKey(r', k)
            && forall x :: x != k ==> (HoldsKey(r', x) <==> HoldsKey(r, x))
  {
    NextKey(r.own, r.stage.n);
  }

  lemma {:induction false} HoldsOneLess(r: Request)
    requires Distinct(r.own) && r.stage.Releasing? && r.stage.n < |r.own|
    ensures var k, r' := r.own[r.stage.n], r.(stage := Releasing(r.stage.n + 1));
            && HoldsKey(r, k) && !HoldsKey(r', k)
            && forall x :: x != k ==> (HoldsKey(r', x) <==> HoldsKey(r, x))
  {
    NextKey(r.own, r.stage.n);
  }

  lemma {:induction false} ReleaseNextCounts(s: System, id: nat)
    requires GateCounts(s) && Enabled(s, ReleaseNext(id)) && Form(s.reqs[id])
    ensures GateCounts(s.(reqs := s.reqs[id := Next(s, ReleaseNext(id))], gate := NextGate(s, ReleaseNext(id))))
  {
    var r := s.reqs[id];
    HoldsOneLess(r);
    OneHold(s, id, r.(stage := Releasing(r.stage.n + 1)), r.own[r.stage.n], -1);
  }

  /** The events of a request that already holds all its keys. */
  predicate KeepsAll(e: Event) {
    Moves(e) && !e.Admit? && !e.HoldNext? && !e.ReleaseNext? && !e.Leave?
  }

  lemma {:induction false} Head(s: System, e: Event)
    requires Flow(s) && Enabled(s, e) && (e.Dequeue? || e.DrainNext?)
    ensures s.reqs[s.queue[0]].stage.Queued?
  {
    assert Has(s, Slot(s.queue, 0), Queued);
  }

  lemma {:induction false} KeepsAllStages(s: System, e: Event)
    requires Flow(s) && Enabled(s, e) && KeepsAll(e)
    ensures HoldsAll(s.reqs[Subject(s, e)]) && HoldsAll(Next(s, e)) && Next(s, e).own == s.reqs[Subject(s, e)].own
  {
    if e.Dequeue? || e.DrainNext? {
      Head(s, e);
    }
  }

  /** A request that gets in or out without a hold. */
  lemma {:induction false} NoHolds(s: System, e: Event)
    requires Enabled(s, e) && (e.Admit? || e.Leave?) && Form(s.reqs[e.id])
    ensures forall k :: HoldsKey(Next(s, e), k) <==> HoldsKey(s.reqs[e.id], k)
  {
  }

  /** No other event touches the gate. */
  lemma {:induction false} NoCountsMove(s: System, e: Event)
    requires GateCounts(s) && Shapes(s) && Flow(s) && Enabled(s, e) && Moves(e) && !e.HoldNext? && !e.ReleaseNext?
    ensures GateCounts(s.(reqs := s.reqs[Subject(s, e) := Next(s, e)]))
  {
    if KeepsAll(e) {
      KeepsAllStages(s, e);
      StillAll(s, Subject(s, e), Next(s, e));
    } else {
      assert Shape(At(s, e.id));
      NoHolds(s, e);
      SameHolds(s, e.id, Next(s, e));
    }
  }

  /** The gate and the requests after an event, whatever else it does. */
  lemma {:induction false} CountsMove(s: System, e: Event)
    requires GateCounts(s) && Shapes(s) && Flow(s) && Enabled(s, e) && Moves(e)
    ensures GateCounts(s.(reqs := s.reqs[Subject(s, e) := Next(s, e)], gate := NextGate(s, e)))
  {
    if e.HoldNext? {
      assert Shape(At(s, e.id));
      HoldNextCounts(s, e.id);
    } else if e.ReleaseNext? {
      assert Shape(At(s, e.id));
      ReleaseNextCounts(s, e.id);
    } else {
      NoCountsMove(s, e);
      SameCounts(s.(reqs := s.reqs[Subject(s, e) := Next(s, e)]),
                 s.(reqs := s.reqs[Subject(s, e) := Next(s, e)], gate := NextGate(s, e)));
    }
  }

  lemma {:induction false} GateStep(s: System, e: Event)
    requires GateCounts(s) && Shapes(s) && Flow(s) && Enabled(s, e)
    ensures GateCounts(Apply(s, e))
  {
    var t := Apply(s, e);
    if Moves(e) {
      CountsMove(s, e);
      SameCounts(s.(reqs := s.reqs[Subject(s, e) := Next(s, e)], gate := NextGate(s, e)), t);
    } else if e.Submit? {
      SubmitCounts(s, Submitted(e.keys, e.ranges, e.repair, s.closed));
      SameCounts(s.(reqs := s.reqs + [Submitted(e.keys, e.ranges, e.repair, s.closed)]), t);
    } else {
      SameCounts(s, t);
    }
  }

  // ---------------------------------------------------------------- shapes

  lemma {:induction false} NextShape(s: System, e: Event)
    requires Inv(s) && Enabled(s, e) && Moves(e)
    ensures Shape(Next(s, e))
  {
    assert Unfold(0);
    assert Shape(At(s, Subject(s, e)));
    if e.Dequeue? || e.DrainNext? {
      Head(s, e);
    }
    NextForm(s, e);
    NextWork(s, e);
  }

  lemma {:induction false} NextForm(s: System, e: Event)
    requires Enabled(s, e) && Moves(e) && Form(At(s, Subject(s, e)))
    requires e.Dequeue? || e.DrainNext? ==> At(s, Subject(s, e)).stage.Queued?
    ensures Form(Next(s, e))
  {
    if e.Admit? {
      AdmittedForm(At(s, e.id), s.inflight.Keys);
    } else if OfRunner(e) || e.Dequeue? || e.DrainNext? {
      RunnerForm(s, e);
    } else {
      SubmitterForm(s, e);
    }
  }

  lemma {:induction false} RunnerForm(s: System, e: Event)
    requires Enabled(s, e) && Moves(e) && Form(At(s, Subject(s, e))) && (OfRunner(e) || e.Dequeue? || e.DrainNext?)
    requires e.Dequeue? || e.DrainNext? ==> At(s, Subject(s, e)).stage.Queued?
    ensures Form(Next(s, e))
  {
  }

  lemma {:induction false} SubmitterForm(s: System, e: Event)
    requires Enabled(s, e) && Moves(e) && Form(At(s, Subject(s, e)))
    requires !e.Admit? && !OfRunner(e) && !e.Dequeue? && !e.DrainNext?
    ensures Form(Next(s, e))
  {
  }

  lemma {:induction false} AdmittedForm(r: Request, inflight: set<Key>)
    requires Form(r) && r.stage.Arrived?
    ensures Form(Admitted(r, Fresh(r.keys, inflight, |r.keys|)))
  {
    FreshKeys(r.keys, inflight, |r.keys|);
  }

  lemma {:induction false} NextWork(s: System, e: Event)
    requires Enabled(s, e) && Moves(e) && Form(At(s, Subject(s, e))) && Work(At(s, Subject(s, e)))
    requires e.Dequeue? || e.DrainNext? ==> At(s, Subject(s, e)).stage.Queued?
    ensures Work(Next(s, e))
  {
    var r := At(s, Subject(s, e));
    if e.StartJob? {
      JobStarts(r);
    } else if e.SkipJob? {
      JobSkipped(r);
    } else if e.Record? {
      JobEnds(r, e.job);
    } else if e.Finish? {
      WorkEnds(r);
    } else if !e.Dequeue? {
      NotAtWork(s, e);
    }
  }

  lemma {:induction false} WorkEnds(r: Request)
    requires Work(r) && r.stage.Working? && !r.worked && r.next == |r.jobs| && r.running == {}
    ensures Work(Finished(r))
  {
  }

  /** Every other step leaves the work alone. */
  lemma {:induction false} NotAtWork(s: System, e: Event)
    requires Enabled(s, e) && Moves(e) && !OfRunner(e) && !e.Dequeue? && Work(At(s, Subject(s, e)))
    requires Form(At(s, Subject(s, e))) && (e.DrainNext? ==> At(s, Subject(s, e)).stage.Queued?)
    ensures Work(Next(s, e))
  {
    SameFields(s, e);
    SameWork(At(s, Subject(s, e)), Next(s, e));
  }

  predicate Untouched(r: Request, r': Request) {
    && r'.jobs == r.jobs && r'.next == r.next && r'.running == r.running && r'.cut == r.cut && r'.outcomes == r.outcomes
    && r'.worked == r.worked && r'.repair == r.repair && r'.ranges == r.ranges && !r.stage.Working? && !r'.stage.Working?
    && (r.worked ==> r'.own == r.own)
  }

  lemma {:induction false} SameFields(s: System, e: Event)
    requires Enabled(s, e) && Moves(e) && !OfRunner(e) && !e.Dequeue?
    requires Form(At(s, Subject(s, e))) && (e.DrainNext? ==> At(s, Subject(s, e)).stage.Queued?)
    ensures Untouched(At(s, Subject(s, e)), Next(s, e))
  {
  }

  lemma {:induction false} SameWork(r: Request, r': Request)
    requires Work(r) && Untouched(r, r')
    ensures Work(r')
  {
  }

  lemma {:induction false} NextJob(jobs: seq<Job>, n: nat)
    requires NoRepeats(jobs) && n < |jobs|
    ensures jobs[n] !in jobs[..n] && forall j :: j in jobs[..n + 1] <==> j in jobs[..n] || j == jobs[n]
  {
    assert jobs[..n + 1] == jobs[..n] + [jobs[n]];
    forall a: nat | a < n ensures jobs[a] != jobs[n] {
      assert JobAt(jobs, a) != JobAt(jobs, n);
    }
  }

  lemma {:induction false} JobStarts(r: Request)
    requires Work(r) && r.stage.Working? && !r.worked && r.next < |r.jobs|
    ensures Work(r.(next := r.next + 1, running := r.running + {r.jobs[r.next]}))
  {
    NextJob(r.jobs, r.next);
  }

  lemma {:induction false} JobSkipped(r: Request)
    requires Work(r) && r.stage.Working? && !r.worked && r.next < |r.jobs|
    ensures Work(r.(next := r.next + 1, cut := true))
  {
    NextJob(r.jobs, r.next);
  }

  lemma {:induction false} JobEnds(r: Request, job: Job)
    requires Work(r) && r.stage.Working? && !r.worked && job in r.running
    ensures Work(r.(running := r.running - {job}, outcomes := r.outcomes + [job]))
  {
    OneMoreJob(r.outcomes, job);
  }

  lemma {:induction false} ShapesWith(s: System, t: System, id: nat, r: Request)
    requires Shapes(s) && Shape(r)
    requires t.reqs == s.reqs || t.reqs == s.reqs + [r] || (id < |s.reqs| && t.reqs == s.reqs[id := r])
    ensures Shapes(t)
  {
    forall i: nat {:trigger At(t, i)} | i < |t.reqs| ensures Shape(At(t, i)) {
      assert i < |s.reqs| ==> Shape(At(s, i));
    }
  }

  lemma {:induction false} ShapeStep(s: System, e: Event)
    requires Inv(s) && Enabled(s, e)
    ensures Shapes(Apply(s, e))
  {
    assert Unfold(0);
    var r := Submitted([], map[], false, false);
    if Moves(e) {
      NextShape(s, e);
      r := Next(s, e);
    } else if e.Submit? {
      r := Submitted(e.keys, e.ranges, e.repair, s.closed);
    }
    ShapesWith(s, Apply(s, e), if Moves(e) then Subject(s, e) else 0, r);
  }

  // ---------------------------------------------------------------- owners

  /** The key is reserved for a request that lists it. */
  ghost predicate OwnedBy(s: System, k: Key) {
    k in s.inflight && s.inflight[k] < |s.reqs| && Reserved(At(s, s.inflight[k])) && k in At(s, s.inflight[k]).own
  }

  /** A step that changes neither who reserves nor what. */
  lemma {:induction false} SameOwners(s: System, id: nat, r: Request)
    requires Owners(s) && id < |s.reqs|
    requires Reserved(r) == Reserved(s.reqs[id]) && (Reserved(r) ==> r.own == s.reqs[id].own)
    ensures Owners(s.(reqs := s.reqs[id := r]))
  {
    var t := s.(reqs := s.reqs[id := r]);
    forall k | k in t.inflight ensures OwnedBy(t, k) {
      assert OwnedBy(s, k);
    }
    forall i: nat {:trigger At(t, i)} | i < |t.reqs| && Reserved(At(t, i)) ensures OwnsAll(t.inflight, At(t, i).own, i) {
      assert Reserved(At(s, i)) && At(t, i).own == At(s, i).own;
    }
  }

  lemma {:induction false} SameOwnersOf(s: System, t: System)
    requires Owners(s) && t.inflight == s.inflight && t.reqs == s.reqs
    ensures Owners(t)
  {
    forall k | k in t.inflight ensures OwnedBy(t, k) { assert OwnedBy(s, k); }
    forall i: nat {:trigger At(t, i)} | i < |t.reqs| && Reserved(At(t, i)) ensures OwnsAll(t.inflight, At(t, i).own, i) {
      assert Reserved(At(s, i));
    }
  }

  lemma {:induction false} ReserveOwns(s: System, id: nat, r: Request)
    requires Owners(s) && id < |s.reqs| && !Reserved(s.reqs[id]) && Reserved(r)
    requires forall k :: k in r.own ==> k !in s.inflight
    ensures Owners(s.(reqs := s.reqs[id := r], inflight := Own(s.inflight, r.own, id)))
  {
    var t := s.(reqs := s.reqs[id := r], inflight := Own(s.inflight, r.own, id));
    forall k | k in t.inflight ensures OwnedBy(t, k) {
      assert k !in r.own ==> OwnedBy(s, k);
    }
    forall i: nat {:trigger At(t, i)} | i < |t.reqs| && Reserved(At(t, i)) ensures OwnsAll(t.inflight, At(t, i).own, i) {
      assert i != id ==> Reserved(At(s, i)) && OwnsAll(s.inflight, At(s, i).own, i);
    }
  }

  lemma {:induction false} UnlockOwns(s: System, id: nat, r: Request)
    requires Owners(s) && id < |s.reqs| && Reserved(s.reqs[id]) && !Reserved(r)
    ensures Owners(s.(reqs := s.reqs[id := r], inflight := Disown(s.inflight, s.reqs[id].own)))
  {
    var t := s.(reqs := s.reqs[id := r], inflight := Disown(s.inflight, s.reqs[id].own));
    assert OwnsAll(s.inflight, At(s, id).own, id);
    forall k | k in t.inflight ensures OwnedBy(t, k) {
      assert OwnedBy(s, k);
    }
    forall i: nat {:trigger At(t, i)} | i < |t.reqs| && Reserved(At(t, i)) ensures OwnsAll(t.inflight, At(t, i).own, i) {
      assert OwnsAll(s.inflight, At(s, i).own, i);
    }
  }

  lemma {:induction false} SubmitOwns(s: System, r: Request)
    requires Owners(s) && !Reserved(r)
    ensures Owners(s.(reqs := s.reqs + [r]))
  {
    var t := s.(reqs := s.reqs + [r]);
    forall k | k in t.inflight ensures OwnedBy(t, k) { assert OwnedBy(s, k); }
    forall i: nat {:trigger At(t, i)} | i < |t.reqs| && Reserved(At(t, i)) ensures OwnsAll(t.inflight, At(t, i).own, i) {
      assert Reserved(At(s, i));
    }
  }

  lemma {:induction false} AdmitOwns(s: System, id: nat)
    requires Owners(s) && Enabled(s, Admit(id))
    ensures Owners(Apply(s, Admit(id)))
  {
    var t, r, r' := Apply(s, Admit(id)), s.reqs[id], Next(s, Admit(id));
    FreshKeys(r.keys, s.inflight.Keys, |r.keys|);
    if Fresh(r.keys, s.inflight.Keys, |r.keys|) == [] {
      assert t.inflight == s.inflight;
      SameOwners(s, id, r');
      SameOwnersOf(s.(reqs := t.reqs), t);
    } else {
      ReserveOwns(s, id, r');
      SameOwnersOf(s.(reqs := t.reqs, inflight := t.inflight), t);
    }
  }

  lemma {:induction false} OwnerStep(s: System, e: Event)
    requires Inv(s) && Enabled(s, e)
    ensures Owners(Apply(s, e))
  {
    assert Unfold(0);
    var t := Apply(s, e);
    if e.Admit? {
      AdmitOwns(s, e.id);
    } else if e.Unlock? {
      UnlockOwns(s, e.id, Next(s, e));
      assert t == s.(reqs := t.reqs, inflight := t.inflight);
    } else {
      if Moves(e) {
        StillReserved(s, e);
        SameOwners(s, Subject(s, e), Next(s, e));
      } else if e.Submit? {
        SubmitOwns(s, Submitted(e.keys, e.ranges, e.repair, s.closed));
      }
      SameOwnersOf(s.(reqs := t.reqs), t);
    }
  }

  lemma {:induction false} StillReserved(s: System, e: Event)
    requires Flow(s) && Enabled(s, e) && Moves(e) && !e.Admit? && !e.Unlock?
    ensures var r, r' := s.reqs[Subject(s, e)], Next(s, e); Reserved(r') == Reserved(r) && r'.own == r.own
  {
    if e.Dequeue? || e.DrainNext? {
      Head(s, e);
    }
  }

  // ---------------------------------------------------------------- the queue and the runner

  /** What a step does to the queue: one entry leaves at the front, or one is added at the end. */
  predicate Shifts(q: seq<nat>, q': seq<nat>, d: nat, id: nat) {
    d <= |q| && (q' == q[d..] || (d == 0 && q' == q + [id]))
  }

  lemma {:induction false} StaysDistinct(s: System, q': seq<nat>, d: nat, id: nat)
    requires QueueSound(s) && Shifts(s.queue, q', d, id) && !Has(s, id, Queued)
    ensures forall p: nat, r: nat {:trigger Slot(q', p), Slot(q', r)} :: p < r < |q'| ==> Slot(q', p) != Slot(q', r)
  {
    forall p: nat, r: nat {:trigger Slot(q', p), Slot(q', r)} | p < r < |q'| ensures Slot(q', p) != Slot(q', r) {
      if r + d < |s.queue| {
        assert Slot(s.queue, p + d) != Slot(s.queue, r + d);
      } else {
        assert Has(s, Slot(s.queue, p), Queued);
      }
    }
  }

  /** Entries that stay are still queued: only the head is moved. */
  lemma {:induction false} StaysEntry(s: System, e: Event, p: nat)
    requires QueueSound(s) && Enabled(s, e) && p < |s.queue| && (e.Dequeue? || e.DrainNext? ==> p > 0)
    ensures Has(Apply(s, e), s.queue[p], Queued)
  {
    assert Has(s, Slot(s.queue, p), Queued);
    assert p > 0 ==> Slot(s.queue, 0) != Slot(s.queue, p);
  }

  lemma {:induction false} QueueStep(s: System, e: Event)
    requires Flow(s) && Enabled(s, e)
    ensures QueueSound(Apply(s, e))
  {
    var t, d := Apply(s, e), if e.Dequeue? || e.DrainNext? then 1 else 0;
    forall p: nat {:trigger Slot(t.queue, p)} | p < |t.queue| ensures Has(t, Slot(t.queue, p), Queued) {
      if p + d < |s.queue| {
        StaysEntry(s, e, p + d);
      }
    }
    StaysDistinct(s, t.queue, d, if e.Enqueue? then e.id else |s.reqs|);
  }

  lemma {:induction false} FlowStep(s: System, e: Event)
    requires Flow(s) && Enabled(s, e)
    ensures Flow(Apply(s, e))
  {
    var t := Apply(s, e);
    QueueStep(s, e);
    forall i: nat {:trigger At(t, i)} | i < |t.reqs|
      ensures At(t, i).stage.Queued? ==> i in t.queue
      ensures At(t, i).stage.Working? ==> t.runner == Busy(i)
    {
      StaysListed(s, e, i);
      StaysInHand(s, e, i);
    }
    LaterStep(s, e);
  }

  lemma {:induction false} StaysListed(s: System, e: Event, i: nat)
    requires Flow(s) && Enabled(s, e) && i < |Apply(s, e).reqs|
    ensures Apply(s, e).reqs[i].stage.Queued? ==> i in NextQueue(s, e)
  {
    if Moves(e) && i == Subject(s, e) {
      if Next(s, e).stage.Queued? {
        OnlyEnqueues(s, e);
        assert (s.queue + [i])[|s.queue|] == i;
      }
    } else if i < |s.reqs| && At(s, i).stage.Queued? {
      OtherEntries(s.queue, i, if e.Enqueue? then e.id else i);
    }
  }

  lemma {:induction false} OnlyEnqueues(s: System, e: Event)
    requires Enabled(s, e) && Moves(e) && Next(s, e).stage.Queued?
    ensures e.Enqueue?
  {
  }

  lemma {:induction false} OtherEntries(q: seq<nat>, i: nat, id: nat)
    requires i in q
    ensures i in q + [id] && (i != q[0] ==> i in q[1..])
  {
    var p: nat :| p < |q| && q[p] == i;
    assert p > 0 ==> q[1..][p - 1] == i;
    assert (q + [id])[p] == i;
  }

  lemma {:induction false} StaysInHand(s: System, e: Event, i: nat)
    requires Flow(s) && Enabled(s, e) && i < |Apply(s, e).reqs|
    ensures Apply(s, e).reqs[i].stage.Working? ==> NextRunner(s, e) == Busy(i)
  {
    if Moves(e) && i == Subject(s, e) {
      if Next(s, e).stage.Working? {
        NextAtWork(s, e);
      }
    } else if i < |s.reqs| && At(s, i).stage.Working? {
      assert s.runner == Busy(i);
    }
  }

  lemma {:induction false} NextAtWork(s: System, e: Event)
    requires Enabled(s, e) && Moves(e) && Next(s, e).stage.Working?
    ensures NextRunner(s, e) == Busy(Subject(s, e))
  {
    assert OfRunner(e) || e.Dequeue?;
  }

  lemma {:induction false} LaterStep(s: System, e: Event)
    requires Flow(s) && Enabled(s, e)
    ensures var t := Apply(s, e); t.runner.Exited? ==> forall i :: i in t.queue ==> i in t.late
  {
  }

  lemma {:induction false} HandStep(s: System, e: Event)
    requires Flow(s) && InHand(s) && Enabled(s, e)
    ensures InHand(Apply(s, e))
  {
    var t := Apply(s, e);
    forall i: nat {:trigger At(t, i)} | i < |t.reqs| && At(t, i).taken
      ensures t.runner == Busy(i) || t.runner == Emptying(i) || At(t, i).stage.Done?
    {
      if Moves(e) && i == Subject(s, e) {
        NextInHand(s, e);
      } else if i < |s.reqs| {
        assert At(s, i).taken;
        OthersInHand(s, e, i);
      }
    }
  }

  lemma {:induction false} NextInHand(s: System, e: Event)
    requires Flow(s) && InHand(s) && Enabled(s, e) && Moves(e) && Next(s, e).taken
    ensures var i := Subject(s, e);
            NextRunner(s, e) == Busy(i) || NextRunner(s, e) == Emptying(i) || Next(s, e).stage.Done?
  {
    var i := Subject(s, e);
    assert At(s, i).taken ==> s.runner == Busy(i) || s.runner == Emptying(i) || At(s, i).stage.Done?;
  }

  lemma {:induction false} OthersInHand(s: System, e: Event, i: nat)
    requires Enabled(s, e) && i < |s.reqs| && (Moves(e) ==> i != Subject(s, e))
    requires s.runner == Busy(i) || s.runner == Emptying(i) || s.reqs[i].stage.Done?
    ensures NextRunner(s, e) == Busy(i) || NextRunner(s, e) == Emptying(i) || s.reqs[i].stage.Done?
  {
  }

  lemma {:induction false} LatesStep(s: System, e: Event)
    requires LateOnes(s) && Enabled(s, e)
    ensures LateOnes(Apply(s, e))
  {
    forall i: nat | i in Apply(s, e).late ensures Apply(s, e).runner.Exited? && Has(Apply(s, e), i, Queued) {
      if i in s.late {
        StaysLate(s, e, i);
      }
    }
  }

  /** Once the runner is gone nothing takes a request off the queue. */
  lemma {:induction false} StaysLate(s: System, e: Event, i: nat)
    requires Enabled(s, e) && s.runner.Exited? && Has(s, i, Queued)
    ensures Apply(s, e).runner.Exited? && Has(Apply(s, e), i, Queued) && Apply(s, e).reqs[i].own == s.reqs[i].own
  {
    if Moves(e) {
      NotSubject(s, e, i);
    }
  }

  lemma {:induction false} NotSubject(s: System, e: Event, i: nat)
    requires Enabled(s, e) && Moves(e) && s.runner.Exited? && Has(s, i, Queued)
    ensures Subject(s, e) != i && NextRunner(s, e) == Exited
  {
  }

  lemma {:induction false} StepKeeps(s: System, e: Event, t: System)
    requires Inv(s) && Step(s, e, t)
    ensures Inv(t)
  {
    assert Unfold(0);
    ShapeStep(s, e);
    OwnerStep(s, e);
    GateStep(s, e);
    FlowStep(s, e);
    HandStep(s, e);
    LatesStep(s, e);
  }

  lemma {:induction false} RunKeeps(s: System, events: seq<Event>, t: System)
    requires Inv(s) && Runs(s, events, t)
    ensures Inv(t)
    decreases |events|
  {
    if events != [] {
      var m :| Step(s, events[0], m) && Runs(m, events[1..], t);
      StepKeeps(s, events[0], m);
      RunKeeps(m, events[1..], t);
    }
  }

  // ---------------------------------------------------------------- what holds in every reachable state

  ghost predicate Reachable(s: System) {
    exists capacity: nat, events :: Runs(Start(capacity), events, s)
  }

  lemma {:induction false} ReachableInv(s: System)
    requires Reachable(s)
    ensures Inv(s)
  {
    var capacity: nat, events :| Runs(Start(capacity), events, s);
    StartIsSound(capacity);
    RunKeeps(Start(capacity), events, s);
  }

  lemma {:induction false} StartIsSound(capacity: nat)
    ensures Inv(Start(capacity))
  {
    assert Unfold(0);
  }

  /** A key is in flight for at most one request. */
  lemma {:induction false} Exclusive(s: System, i: nat, j: nat, k: Key)
    requires Reachable(s) && i < |s.reqs| && j < |s.reqs|
    requires Reserved(s.reqs[i]) && Reserved(s.reqs[j]) && k in s.reqs[i].own && k in s.reqs[j].own
    ensures i == j && k in s.inflight
  {
    assert Unfold(0);
    ReachableInv(s);
    assert OwnsAll(s.inflight, At(s, i).own, i) && OwnsAll(s.inflight, At(s, j).own, j);
  }

  lemma {:induction false} OneHolderAtLeast(reqs: seq<Request>, n: nat, i: nat, k: Key)
    requires i < n <= |reqs| && HoldsKey(reqs[i], k)
    ensures Holders(reqs, n, k) >= 1
  {
    if i < n - 1 {
      OneHolderAtLeast(reqs, n - 1, i, k);
    }
  }

  /**
   The gate counts, for every key, the requests that have held and not yet released it;
   so every key of a request stays held for as long as the request is worked on.
   */
  lemma {:induction false} HeldThroughout(s: System, id: nat, k: Key)
    requires Reachable(s)
    ensures CountOf(s.gate, k) == Holders(s.reqs, |s.reqs|, k)
    ensures id < |s.reqs| && HoldsAll(s.reqs[id]) && k in s.reqs[id].own ==> CountOf(s.gate, k) >= 1
    ensures id < |s.reqs| && s.reqs[id].stage.Working? ==> s.runner == Busy(id) && (k in s.reqs[id].own ==> k in s.inflight)
  {
    assert Unfold(0);
    ReachableInv(s);
    if id < |s.reqs| {
      assert At(s, id).stage.Working? ==> s.runner == Busy(id) && OwnsAll(s.inflight, At(s, id).own, id);
      if HoldsAll(s.reqs[id]) && k in s.reqs[id].own {
        HoldsAllOfThem(s.reqs[id], k);
        OneHolderAtLeast(s.reqs, |s.reqs|, id, k);
      }
    }
  }

  lemma {:induction false} NoHolders(reqs: seq<Request>, n: nat, k: Key)
    requires n <= |reqs| && forall i :: 0 <= i < n ==> reqs[i].stage.Done?
    ensures Holders(reqs, n, k) == 0
  {
    if n > 0 {
      NoHolders(reqs, n - 1, k);
    }
  }

  lemma {:induction false} InflightIsOpen(s: System)
    requires Owners(s)
    ensures forall x :: x in s.inflight ==> s.inflight[x] < |s.reqs| && !s.reqs[s.inflight[x]].stage.Done?
  {
  }

  /** When every request is done, nothing is in flight and nothing is held. */
  lemma {:induction false} QuietIsClean(s: System, k: Key)
    requires Reachable(s) && forall i :: 0 <= i < |s.reqs| ==> s.reqs[i].stage.Done?
    ensures s.inflight == map[] && CountOf(s.gate, k) == 0
  {
    assert Unfold(0);
    ReachableInv(s);
    NoHolders(s.reqs, |s.reqs|, k);
    InflightIsOpen(s);
    assert s.inflight.Keys == {};
  }

  /**
   A repair request gets one reply and never two, on whichever path it takes: closed,
   nothing to own, queue full, worked on, or drained. The keys skipped and the keys
   worked on add up. Every outcome is of a range asked for on a key worked on, no range
   is reported twice, and every range is reported unless the context ended.
   */
  lemma {:induction false} OneReply(s: System, id: nat)
    requires Reachable(s) && id < |s.reqs| && s.reqs[id].repair
    ensures var r := s.reqs[id];
            && |r.replies| <= 1 && (r.stage.Done? ==> |r.replies| == 1)
            && (r.replies != [] ==>
                 && r.replies[0].skipped + (if r.worked then |r.own| else 0) == |r.keys|
                 && (r.replies[0].outcomes != [] ==> r.worked) && NoRepeats(r.replies[0].outcomes)
                 && (forall j :: j in r.replies[0].outcomes ==> j.key in r.own && j.key in r.ranges && j.i < r.ranges[j.key])
                 && (r.worked && !r.cut ==> Lists(r.replies[0].outcomes, r.own, r.ranges)))
  {
    assert Unfold(0);
    ReachableInv(s);
    assert Shape(At(s, id));
    var r := s.reqs[id];
    assert r.jobs[..|r.jobs|] == r.jobs;
  }

  // ---------------------------------------------------------------- shutdown

  /** When the runner has gone, it has finished with every request it ever took off the queue. */
  lemma {:induction false} RunnerLeavesNothing(s: System, id: nat)
    requires Reachable(s) && s.runner.Exited? && id < |s.reqs| && s.reqs[id].taken
    ensures s.reqs[id].stage.Done?
  {
    assert Unfold(0);
    ReachableInv(s);
    assert At(s, id).taken;
  }

  lemma {:induction false} QueuedIsLate(s: System)
    requires Reachable(s) && s.runner.Exited?
    ensures forall i: nat :: i < |s.reqs| ==> (s.reqs[i].stage.Queued? <==> i in s.late)
    ensures forall i: nat :: i in s.late ==> Has(s, i, Queued)
  {
    assert Unfold(0);
    ReachableInv(s);
    forall i: nat | i < |s.reqs| ensures s.reqs[i].stage.Queued? <==> i in s.late {
      assert At(s, i).stage.Queued? ==> i in s.queue;
    }
  }

  /** The keys of a queued request are in flight and held. */
  lemma {:induction false} QueuedHolds(s: System, id: nat)
    requires Reachable(s) && Has(s, id, Queued)
    ensures s.reqs[id].own != []
    ensures forall k :: k in s.reqs[id].own ==> k in s.inflight && s.inflight[k] == id && CountOf(s.gate, k) >= 1
  {
    assert Unfold(0);
    ReachableInv(s);
    assert Shape(At(s, id)) && OwnsAll(s.inflight, At(s, id).own, id);
    forall k | k in s.reqs[id].own ensures CountOf(s.gate, k) >= 1 {
      OneHolderAtLeast(s.reqs, |s.reqs|, id, k);
    }
  }

  ghost predicate AllFree(s: System) {
    s.inflight == map[] && forall k :: CountOf(s.gate, k) == 0
  }

  /**
   What shutdown leaves behind: once the runner is gone and every submitter has returned,
   all keys are free if and only if no request was queued behind the runner's back.
   */
  lemma {:induction false} ShutdownLeaksOnlyLate(s: System)
    requires Reachable(s) && s.runner.Exited?
    requires forall i: nat :: i < |s.reqs| ==> s.reqs[i].stage.Done? || s.reqs[i].stage.Queued?
    ensures AllFree(s) <==> s.late == {}
  {
    QueuedIsLate(s);
    if s.late == {} {
      forall k ensures s.inflight == map[] && CountOf(s.gate, k) == 0 { QuietIsClean(s, k); }
      QuietIsClean(s, Key("", ""));
    } else {
      var id := Pick(s.late);
      QueuedHolds(s, id);
      assert s.reqs[id].own[0] in s.inflight;
    }
  }

  lemma {:induction false} StaysQueued(s: System, id: nat, events: seq<Event>, t: System)
    requires s.runner.Exited? && Has(s, id, Queued) && Runs(s, events, t)
    ensures t.runner.Exited? && Has(t, id, Queued) && t.reqs[id].own == s.reqs[id].own
    decreases |events|
  {
    if events != [] {
      var m :| Step(s, events[0], m) && Runs(m, events[1..], t);
      LateStep(s, events[0], m, id);
      StaysQueued(m, id, events[1..], t);
    }
  }

  lemma {:induction false} LateStep(s: System, e: Event, t: System, id: nat)
    requires s.runner.Exited? && Has(s, id, Queued) && Step(s, e, t)
    ensures t.runner.Exited? && Has(t, id, Queued) && t.reqs[id].own == s.reqs[id].own
  {
    assert Unfold(0);
    StaysLate(s, e, id);
  }

  lemma {:induction false} Before(s: System, e: Event, m: System, events: seq<Event>, t: System)
    requires Step(s, e, m) && Runs(m, events, t)
    ensures Runs(s, [e] + events, t)
  {
    assert ([e] + events)[1..] == events;
  }

  lemma {:induction false} RunsOn(s: System, a: seq<Event>, m: System, b: seq<Event>, t: System)
    requires Runs(s, a, m) && Runs(m, b, t)
    ensures Runs(s, a + b, t)
    decreases |a|
  {
    if a == [] {
      assert a + b == b;
    } else {
      var s1 :| Step(s, a[0], s1) && Runs(s1, a[1..], m);
      RunsOn(s1, a[1..], m, b, t);
      Before(s, a[0], s1, a[1..] + b, t);
      assert a + b == [a[0]] + (a[1..] + b);
    }
  }

  /** One step more. */
  lemma {:induction false} ReachableStep(s: System, e: Event, t: System)
    requires Reachable(s) && Step(s, e, t)
    ensures Reachable(t)
  {
    assert Runs(t, [], t);
    Before(s, e, t, [], t);
    ReachableOn(s, [e] + [], t);
  }

  lemma {:induction false} ReachableOn(s: System, events: seq<Event>, t: System)
    requires Reachable(s) && Runs(s, events, t)
    ensures Reachable(t)
  {
    var capacity: nat, before :| Runs(Start(capacity), before, s);
    RunsOn(Start(capacity), before, s, events, t);
  }

  /**
   Such a request is stuck: a submitter that has passed its closed check can still queue
   it once the runner is gone, and then in every later state it is queued, and its keys
   are in flight and held.
   */
  lemma {:induction false} LateSubmitIsStuck(s: System, id: nat, events: seq<Event>, t: System)
    requires Reachable(s) && s.runner.Exited? && id < |s.reqs| && |s.queue| < s.capacity
    requires s.reqs[id].stage == Holding(|s.reqs[id].own|)
    requires Runs(Apply(s, Enqueue(id)), events, t)
    ensures Enabled(s, Enqueue(id)) && Has(t, id, Queued) && t.reqs[id].own == s.reqs[id].own != []
    ensures forall k :: k in s.reqs[id].own ==> k in t.inflight && t.inflight[k] == id && CountOf(t.gate, k) >= 1
  {
    var q := Apply(s, Enqueue(id));
    StaysQueued(q, id, events, t);
    ReachableStep(s, Enqueue(id), q);
    ReachableOn(q, events, t);
    QueuedHolds(t, id);
  }

  /** The one request of the run below. */
  function Holder(k: Key, own: seq<Key>, stage: Stage): Request {
    Request([k], map[], false, own, stage, false, false, [], 0, {}, false, [], [])
  }

  /** Its submitter has passed the closed check, has reserved its key, has held it. */
  function Arrival(k: Key): System {
    System(map[], map[], [Holder(k, [], Arrived)], [], 1, false, Idle, {})
  }

  function Admission(k: Key): System {
    System(map[k := 0], map[], [Holder(k, [k], Holding(0))], [], 1, false, Idle, {})
  }

  function HasHeld(k: Key): System {
    System(map[k := 0], map[k := 1], [Holder(k, [k], Holding(1))], [], 1, false, Idle, {})
  }

  /** The process has been closed and the runner has gone. */
  function AfterExit(k: Key): System {
    HasHeld(k).(closed := true, runner := Exited)
  }

  lemma {:induction false} Arrives(k: Key)
    ensures Step(Start(1), Submit([k], map[], false), Arrival(k))
  {
  }

  lemma {:induction false} OneFresh(k: Key)
    requires k.symbol != "" && k.interval != "" && Norm(k) == k
    ensures Fresh([k], {}, 1) == [k]
  {
    assert Fresh([k], {}, 0) == [];
  }

  lemma {:induction false} IsAdmitted(k: Key)
    requires k.symbol != "" && k.interval != "" && Norm(k) == k
    ensures Step(Arrival(k), Admit(0), Admission(k))
  {
    OneFresh(k);
    assert Arrival(k).inflight.Keys == {};
    assert Own(map[], [k], 0) == map[k := 0];
  }

  lemma {:induction false} Holds(k: Key)
    ensures Step(Admission(k), HoldNext(0), HasHeld(k))
  {
  }

  lemma {:induction false} RunnerGoes(k: Key)
    ensures Step(HasHeld(k), Close, HasHeld(k).(closed := true))
    ensures Step(HasHeld(k).(closed := true), StopRunner, HasHeld(k).(closed := true, runner := Draining))
    ensures Step(HasHeld(k).(closed := true, runner := Draining), Exit, AfterExit(k))
  {
  }

  lemma {:induction false} QueuesLate(k: Key)
    ensures Enabled(AfterExit(k), Enqueue(0))
    ensures var t := Apply(AfterExit(k), Enqueue(0));
            t.reqs[0].stage.Queued? && t.inflight == map[k := 0] && CountOf(t.gate, k) == 1
  {
  }

  /**
   Such a run: the submitter passes the closed check and holds its key, the process closes,
   the runner stops and goes. Queued now, the request is stuck.
   */
  lemma {:induction false} LateSubmitHappens(k: Key)
    requires k.symbol != "" && k.interval != "" && Norm(k) == k
    ensures Reachable(AfterExit(k)) && Enabled(AfterExit(k), Enqueue(0))
    ensures var t := Apply(AfterExit(k), Enqueue(0));
            t.reqs[0].stage.Queued? && t.inflight == map[k := 0] && CountOf(t.gate, k) == 1
  {
    assert Runs(Start(1), [], Start(1));
    Arrives(k);
    ReachableStep(Start(1), Submit([k], map[], false), Arrival(k));
    IsAdmitted(k);
    ReachableStep(Arrival(k), Admit(0), Admission(k));
    Holds(k);
    ReachableStep(Admission(k), HoldNext(0), HasHeld(k));
    RunnerGoes(k);
    ReachableStep(HasHeld(k), Close, HasHeld(k).(closed := true));
    ReachableStep(HasHeld(k).(closed := true), StopRunner, HasHeld(k).(closed := true, runner := Draining));
    ReachableStep(HasHeld(k).(closed := true, runner := Draining), Exit, AfterExit(k));
    QueuesLate(k);
  }
}
