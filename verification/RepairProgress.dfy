/**
 Every repair request comes to an end (Submit, Run and process in
 internal/backfill/backfill.go): a bound on the steps that are left, and a step that can
 be taken as long as some request is not done.
 */
module RepairProgress {
  import opened Options
  import opened Ownership
  import opened RepairJobs
  import opened WindowGate

  // ---------------------------------------------------------------- the jobs of a request

  /** Every range asked for on one of these keys. */
  function RangesAsked(keys: set<Key>, ranges: map<Key, nat>): set<Job> {
    set k, i | k in keys && k in ranges && 0 <= i < ranges[k] :: Job(k, i)
  }

  function KeySet(keys: seq<Key>): set<Key> {
    set k | k in keys
  }

  function Normed(keys: seq<Key>): set<Key> {
    set k | k in keys :: Norm(k)
  }

  lemma {:induction false} NoRepeatsSize(jobs: seq<Job>, all: set<Job>)
    requires NoRepeats(jobs) && forall j :: j in jobs <==> j in all
    ensures |jobs| == |all|
    decreases |jobs|
  {
    if jobs != [] {
      var n := |jobs| - 1;
      var last := JobAt(jobs, n);
      forall j ensures j in jobs[..n] <==> j in all - {last} {
        if j in jobs[..n] {
          var a: nat :| a < n && jobs[a] == j;
          assert JobAt(jobs, a) != JobAt(jobs, n);
        }
      }
      forall a: nat, b: nat {:trigger JobAt(jobs[..n], a), JobAt(jobs[..n], b)} | a < b < n ensures JobAt(jobs[..n], a) != JobAt(jobs[..n], b) {
        assert JobAt(jobs, a) != JobAt(jobs, b);
      }
      NoRepeatsSize(jobs[..n], all - {last});
    } else {
      assert all == {};
    }
  }

  /** The jobs of a set of ranges, in some order. */
  lemma {:induction false} SomeOrder(all: set<Job>) returns (jobs: seq<Job>)
    ensures NoRepeats(jobs) && forall j :: j in jobs <==> j in all
    decreases |all|
  {
    jobs := [];
    if all != {} {
      var j := Pick(all);
      jobs := SomeOrder(all - {j});
      OneMoreJob(jobs, j);
      jobs := jobs + [j];
    }
  }

  /** A request can be planned, and its plan has one job for each range asked for. */
  lemma {:induction false} CanPlan(r: Request) returns (jobs: seq<Job>)
    ensures Plans(r, jobs)
  {
    jobs := [];
    if r.repair {
      jobs := SomeOrder(RangesAsked(KeySet(r.own), r.ranges));
    }
  }

  lemma {:induction false} PlanSize(r: Request, jobs: seq<Job>)
    requires Plans(r, jobs)
    ensures |jobs| <= |RangesAsked(KeySet(r.own), r.ranges)|
  {
    if r.repair {
      NoRepeatsSize(jobs, RangesAsked(KeySet(r.own), r.ranges));
    }
  }

  // ---------------------------------------------------------------- the steps left

  /** A bound on the steps a request has still to go. */
  function Left(r: Request): int {
    match r.stage
    case Arrived => 2 * |RangesAsked(Normed(r.keys), r.ranges)| + 2 * |r.keys| + 8
    case Holding(n) => 2 * |RangesAsked(KeySet(r.own), r.ranges)| + 2 * |r.own| - n + 7
    case Queued => 2 * |RangesAsked(KeySet(r.own), r.ranges)| + |r.own| + 5
    case Working => 2 * (|r.jobs| - r.next) + |r.running| + |r.own| + 4
    case Leaving => |r.own| + 3
    case Releasing(n) => |r.own| - n + 1
    case Done => 0
  }

  lemma {:induction false} AdmittedLeft(r: Request, inflight: set<Key>)
    requires r.stage.Arrived?
    ensures Left(Admitted(r, Fresh(r.keys, inflight, |r.keys|))) < Left(r)
  {
    var own := Fresh(r.keys, inflight, |r.keys|);
    FreshIsNormed(r.keys, inflight);
    FewerRanges(KeySet(own), Normed(r.keys), r.ranges);
  }

  lemma {:induction false} FreshIsNormed(keys: seq<Key>, inflight: set<Key>)
    ensures var own := Fresh(keys, inflight, |keys|); |own| <= |keys| && forall k :: k in KeySet(own) ==> k in Normed(keys)
  {
    FreshKeys(keys, inflight, |keys|);
  }

  lemma {:induction false} FewerRanges(a: set<Key>, b: set<Key>, ranges: map<Key, nat>)
    requires forall k :: k in a ==> k in b
    ensures |RangesAsked(a, ranges)| <= |RangesAsked(b, ranges)|
  {
    SubsetSize(RangesAsked(a, ranges), RangesAsked(b, ranges));
  }

  lemma {:induction false} SubmitterLeft(s: System, e: Event)
    requires Enabled(s, e) && Moves(e) && Shape(At(s, Subject(s, e))) && !e.Admit? && !OfRunner(e) && !e.Dequeue?
    requires e.DrainNext? ==> At(s, Subject(s, e)).stage.Queued?
    ensures Left(Next(s, e)) < Left(At(s, Subject(s, e)))
  {
  }

  lemma {:induction false} RunnerLeft(s: System, e: Event)
    requires Enabled(s, e) && (OfRunner(e) || e.Dequeue?) && Shape(At(s, Subject(s, e)))
    requires e.Dequeue? ==> At(s, Subject(s, e)).stage.Queued?
    ensures Left(Next(s, e)) < Left(At(s, Subject(s, e)))
  {
    var r := At(s, Subject(s, e));
    if e.Dequeue? {
      PlanSize(r, e.jobs);
    } else if e.StartJob? {
      SameOrOneMore(r.running, r.jobs[r.next]);
    } else if e.Record? {
      assert r.running == (r.running - {e.job}) + {e.job};
    }
  }

  lemma {:induction false} SameOrOneMore(running: set<Job>, j: Job)
    ensures |running + {j}| <= |running| + 1
  {
  }

  /** A request is as it should be, and no step is owed. */
  lemma {:induction false} IsShaped(s: System, id: nat)
    requires Reachable(s) && id < |s.reqs|
    ensures Shape(s.reqs[id]) && Left(s.reqs[id]) >= 0
  {
    assert Unfold(0);
    ReachableInv(s);
    assert Shape(At(s, id));
  }

  lemma {:induction false} HeadIsQueued(s: System)
    requires Reachable(s) && s.queue != []
    ensures Has(s, s.queue[0], Queued)
  {
    assert Unfold(0);
    ReachableInv(s);
    assert Has(s, Slot(s.queue, 0), Queued);
  }

  lemma {:induction false} OneNext(s: System, e: Event)
    requires Enabled(s, e) && Moves(e)
    ensures Apply(s, e).reqs == s.reqs[Subject(s, e) := Next(s, e)]
  {
  }

  lemma {:induction false} StaysReachable(s: System, e: Event)
    requires Reachable(s) && Enabled(s, e)
    ensures Reachable(Apply(s, e)) && Step(s, e, Apply(s, e))
  {
    ReachableStep(s, e, Apply(s, e));
  }

  lemma {:induction false} NextLeft(s: System, e: Event)
    requires Reachable(s) && Enabled(s, e) && Moves(e)
    ensures Left(Next(s, e)) < Left(At(s, Subject(s, e)))
  {
    IsShaped(s, Subject(s, e));
    if e.Dequeue? || e.DrainNext? {
      HeadIsQueued(s);
    }
    if e.Admit? {
      AdmittedLeft(At(s, e.id), s.inflight.Keys);
    } else if OfRunner(e) || e.Dequeue? {
      RunnerLeft(s, e);
    } else {
      SubmitterLeft(s, e);
    }
  }

  /** Every step of a request brings it closer to its end, and touches no other. */
  lemma {:induction false} ComesCloser(s: System, e: Event)
    requires Reachable(s) && Enabled(s, e) && Moves(e)
    ensures var id, t := Subject(s, e), Apply(s, e);
            && t.reqs == s.reqs[id := t.reqs[id]] && 0 <= Left(t.reqs[id]) < Left(s.reqs[id])
  {
    OneNext(s, e);
    NextLeft(s, e);
    StaysReachable(s, e);
    IsShaped(Apply(s, e), Subject(s, e));
  }

  // ---------------------------------------------------------------- the runner and the queue

  /** What the runner has in hand was taken off the queue, and is being worked on or on its way out. */
  ghost predicate InHands(s: System) {
    && (s.runner.Busy? ==> s.runner.id < |s.reqs| && InWork(s.reqs[s.runner.id]) && s.reqs[s.runner.id].taken)
    && (s.runner.Emptying? ==> s.runner.id < |s.reqs| && IsLeaving(s.reqs[s.runner.id]) && s.reqs[s.runner.id].taken)
    && |s.queue| <= s.capacity
  }

  predicate IsLeaving(r: Request) {
    r.stage.Leaving? || r.stage.Releasing?
  }

  predicate InWork(r: Request) {
    r.stage.Working? || IsLeaving(r)
  }

  lemma {:induction false} HandsStep(s: System, e: Event)
    requires InHands(s) && Enabled(s, e)
    ensures InHands(Apply(s, e))
  {
    if !Moves(e) {
      HandsIdle(s, e);
    } else if OfRunner(e) || e.Dequeue? || e.DrainNext? {
      HandsRunner(s, e);
    } else {
      HandsOther(s, e);
    }
  }

  lemma {:induction false} HandsIdle(s: System, e: Event)
    requires InHands(s) && Enabled(s, e) && !Moves(e)
    ensures InHands(Apply(s, e))
  {
  }

  lemma {:induction false} HandsRunner(s: System, e: Event)
    requires InHands(s) && Enabled(s, e) && (OfRunner(e) || e.Dequeue? || e.DrainNext?)
    ensures InHands(Apply(s, e))
  {
  }

  lemma {:induction false} HandsOther(s: System, e: Event)
    requires InHands(s) && Enabled(s, e) && Moves(e) && !OfRunner(e) && !e.Dequeue? && !e.DrainNext?
    ensures InHands(Apply(s, e))
  {
  }

  lemma {:induction false} HandsRun(s: System, events: seq<Event>, t: System)
    requires InHands(s) && Runs(s, events, t)
    ensures InHands(t)
    decreases |events|
  {
    if events != [] {
      var m :| Step(s, events[0], m) && Runs(m, events[1..], t);
      assert Unfold(0);
      HandsStep(s, events[0]);
      HandsRun(m, events[1..], t);
    }
  }

  /** In every reachable state the queue is within its capacity. */
  lemma {:induction false} WithinCapacity(s: System)
    requires Reachable(s)
    ensures InHands(s)
  {
    var capacity: nat, events :| Runs(Start(capacity), events, s);
    HandsRun(Start(capacity), events, s);
  }

  // ---------------------------------------------------------------- some step can be taken

  /** A request that is being worked on can go on. */
  lemma {:induction false} WorkGoesOn(s: System, id: nat) returns (e: Event)
    requires s.runner == Busy(id) && id < |s.reqs| && s.reqs[id].stage.Working? && Shape(s.reqs[id])
    ensures Enabled(s, e) && Moves(e)
  {
    var r := s.reqs[id];
    if r.next < |r.jobs| {
      e := StartJob;
    } else if r.running != {} {
      var j :| j in r.running;
      e := Record(j);
    } else {
      e := Finish;
    }
  }

  /** So can one that is giving its keys up. */
  lemma {:induction false} LeavingGoesOn(s: System, id: nat) returns (e: Event)
    requires id < |s.reqs| && IsLeaving(s.reqs[id]) && Shape(s.reqs[id])
    ensures Enabled(s, e) && Moves(e)
  {
    var r := s.reqs[id];
    e := if r.stage.Leaving? then Unlock(id) else if r.stage.n < |r.own| then ReleaseNext(id) else Leave(id);
  }

  /** So can a submitter that has not queued its request yet. */
  lemma {:induction false} SubmitGoesOn(s: System, id: nat) returns (e: Event)
    requires id < |s.reqs| && (s.reqs[id].stage.Arrived? || s.reqs[id].stage.Holding?) && Shape(s.reqs[id])
    ensures Enabled(s, e) && Moves(e)
  {
    var r := s.reqs[id];
    e := if r.stage.Arrived? then Admit(id)
         else if r.stage.n < |r.own| then HoldNext(id)
         else if |s.queue| < s.capacity then Enqueue(id)
         else Overflow(id);
  }

  /** While a request is queued and the runner is there, the queue moves on or the runner does. */
  lemma {:induction false} QueueGoesOn(s: System) returns (e: Event)
    requires Reachable(s) && s.queue != [] && !s.runner.Exited?
    ensures Enabled(s, e) && Moves(e)
  {
    WithinCapacity(s);
    HeadIsQueued(s);
    match s.runner {
      case Idle =>
        var jobs := CanPlan(s.reqs[s.queue[0]]);
        e := Dequeue(jobs);
      case Draining => e := DrainNext;
      case Busy(id) =>
        IsShaped(s, id);
        if s.reqs[id].stage.Working? {
          e := WorkGoesOn(s, id);
        } else {
          e := LeavingGoesOn(s, id);
        }
      case Emptying(id) =>
        IsShaped(s, id);
        e := LeavingGoesOn(s, id);
    }
  }

  /** As long as a request is not done, some request can take a step, unless all that are left were queued behind the runner's back. */
  lemma {:induction false} NeverStuck(s: System, id: nat) returns (e: Event)
    requires Reachable(s) && id < |s.reqs| && !s.reqs[id].stage.Done? && id !in s.late
    ensures Enabled(s, e) && Moves(e)
  {
    IsShaped(s, id);
    var r := s.reqs[id];
    if r.stage.Arrived? || r.stage.Holding? {
      e := SubmitGoesOn(s, id);
    } else if IsLeaving(r) {
      e := LeavingGoesOn(s, id);
    } else {
      IsWithRunner(s, id);
      if r.stage.Working? {
        e := WorkGoesOn(s, id);
      } else {
        e := QueueGoesOn(s);
      }
    }
  }

  lemma {:induction false} IsWithRunner(s: System, id: nat)
    requires Reachable(s) && id < |s.reqs|
    ensures s.reqs[id].stage.Working? ==> s.runner == Busy(id)
    ensures s.reqs[id].stage.Queued? ==> id in s.queue && (s.runner.Exited? ==> id in s.late)
  {
    assert Unfold(0);
    ReachableInv(s);
    assert At(s, id).stage.Queued? ==> id in s.queue;
  }

  // ---------------------------------------------------------------- whole runs

  /** A bound on the steps that are left for the first `n` requests. */
  function AllLeft(reqs: seq<Request>, n: nat): int
    requires n <= |reqs|
  {
    if n == 0 then 0 else AllLeft(reqs, n - 1) + Left(reqs[n - 1])
  }

  lemma {:induction false} OneLeft(reqs: seq<Request>, id: nat, r: Request, n: nat)
    requires id < |reqs| && n <= |reqs|
    ensures AllLeft(reqs[id := r], n) == AllLeft(reqs, n) + if id < n then Left(r) - Left(reqs[id]) else 0
  {
    if n > 0 {
      OneLeft(reqs, id, r, n - 1);
    }
  }

  lemma {:induction false} AllLeftNat(s: System, n: nat)
    requires Reachable(s) && n <= |s.reqs|
    ensures AllLeft(s.reqs, n) >= 0
  {
    if n > 0 {
      AllLeftNat(s, n - 1);
      IsShaped(s, n - 1);
    }
  }

  lemma {:induction false} LessLeft(s: System, e: Event)
    requires Reachable(s) && Enabled(s, e) && Moves(e)
    ensures |Apply(s, e).reqs| == |s.reqs| && 0 <= AllLeft(Apply(s, e).reqs, |s.reqs|) < AllLeft(s.reqs, |s.reqs|)
  {
    ComesCloser(s, e);
    var id, t := Subject(s, e), Apply(s, e);
    OneLeft(s.reqs, id, t.reqs[id], |s.reqs|);
    StaysReachable(s, e);
    AllLeftNat(t, |t.reqs|);
  }

  predicate Ended(s: System, id: nat) {
    id < |s.reqs| ==> s.reqs[id].stage.Done? || id in s.late
  }

  /**
   From every reachable state all requests come to an end: without a new one and whatever
   has happened before, steps of the requests alone lead to a state in which each is done,
   but for those queued behind the runner's back.
   */
  lemma {:induction false} AllEnd(s: System) returns (events: seq<Event>, t: System)
    requires Reachable(s)
    ensures Runs(s, events, t) && Reachable(t) && |t.reqs| == |s.reqs| && (forall e :: e in events ==> Moves(e))
    ensures forall id: nat :: Ended(t, id)
    decreases AllLeft(s.reqs, |s.reqs|)
  {
    if id: nat :| !Ended(s, id) {
      var e := NeverStuck(s, id);
      StaysReachable(s, e);
      LessLeft(s, e);
      var rest;
      rest, t := AllEnd(Apply(s, e));
      Before(s, e, Apply(s, e), rest, t);
      events := [e] + rest;
    } else {
      events, t := [], s;
    }
  }

  /** The steps that a run takes for requests. */
  function Steps(events: seq<Event>): nat {
    if events == [] then 0 else (if Moves(events[0]) then 1 else 0) + Steps(events[1..])
  }

  /** And no run can put it off: without a new request there are no more steps than the bound. */
  lemma {:induction false} StepsAreBounded(s: System, events: seq<Event>, t: System)
    requires Reachable(s) && Runs(s, events, t) && forall i :: 0 <= i < |events| ==> !events[i].Submit?
    ensures Steps(events) <= AllLeft(s.reqs, |s.reqs|)
    decreases |events|
  {
    if events == [] {
      AllLeftNat(s, |s.reqs|);
    } else {
      var m :| Step(s, events[0], m) && Runs(m, events[1..], t);
      assert Enabled(s, events[0]) && m == Apply(s, events[0]) by { assert Unfold(0); }
      StaysReachable(s, events[0]);
      StepsAreBounded(m, events[1..], t);
      if Moves(events[0]) {
        LessLeft(s, events[0]);
      } else {
        SameReqs(s, events[0]);
      }
    }
  }

  lemma {:induction false} SameReqs(s: System, e: Event)
    requires Enabled(s, e) && !Moves(e) && !e.Submit?
    ensures Apply(s, e).reqs == s.reqs
  {
  }
}
