/**
 Routing of decoded kline events (HandleKlineEvent, acceptClosed and the workers'
 handleClosed in internal/dispatcher/dispatcher.go): every event feeds the live sink, and
 a closed bar goes to the workers' queue once, in the order of opening times.
 */
module Dispatcher {
  import opened Options

  /** A decoded event; the three flags say whether its numbers parse for the three payloads. */
  datatype KlineEvent = KlineEvent(symbol: string, interval: string, open: int, final: bool,
                                   liveOk: bool, barOk: bool, rowOk: bool)

  datatype Job = Job(key: string, open: int, hasRow: bool)

  datatype Answer = Nil | Closed | Busy | BadNumber

  /** The guard's key. */
  function GuardKey(symbol: string, interval: string): string {
    symbol + "|" + interval
  }

  /** Different streams have different keys, as long as symbols hold no bar character. */
  lemma {:induction false} GuardKeyIsUnique(s: string, i: string, s': string, i': string)
    requires '|' !in s && '|' !in s' && GuardKey(s, i) == GuardKey(s', i')
    ensures s == s' && i == i'
  {
    var k := GuardKey(s, i);
    BarAt(s, i, |s'|);
    BarAt(s', i', |s|);
    assert s == k[..|s|] && s' == k[..|s'|];
    assert i == k[|s| + 1..] && i' == k[|s'| + 1..];
  }

  /** The key's first bar character comes right after the symbol. */
  lemma {:induction false} BarAt(s: string, i: string, n: nat)
    requires '|' !in s
    ensures GuardKey(s, i)[|s|] == '|' && (n < |s| ==> GuardKey(s, i)[n] != '|')
  {
  }

  function JobAt(jobs: seq<Job>, i: nat): Job
    requires i < |jobs|
  {
    jobs[i]
  }

  /** Jobs of one stream were handed over in strictly rising order of opening times. */
  ghost predicate InOrder(jobs: seq<Job>) {
    forall i: nat, j: nat {:trigger JobAt(jobs, i), JobAt(jobs, j)} :: i < j < |jobs| && JobAt(jobs, i).key == JobAt(jobs, j).key ==>
      JobAt(jobs, i).open < JobAt(jobs, j).open
  }

  /** No bar is handed to the workers twice. */
  lemma {:induction false} HandedOnce(jobs: seq<Job>, i: nat, j: nat)
    requires InOrder(jobs) && i < j < |jobs|
    ensures jobs[i].key != jobs[j].key || jobs[i].open != jobs[j].open
  {
    assert JobAt(jobs, i).key == JobAt(jobs, j).key ==> JobAt(jobs, i).open < JobAt(jobs, j).open;
  }

  class Dispatcher {
    const capacity: nat
    var lastClosed: map<string, int>
    var queue: seq<Job>
    var closed: bool

    /** Every job ever handed to the workers, the number they have taken, and the live snapshots. */
    ghost var handed: seq<Job>
    ghost var taken: nat

    ghost predicate Valid()
      reads this
    {
      && taken <= |handed| && queue == handed[taken..] && |queue| <= capacity
      && InOrder(handed)
      && forall i: nat {:trigger JobAt(handed, i)} :: i < |handed| ==>
           JobAt(handed, i).key in lastClosed && JobAt(handed, i).open <= lastClosed[JobAt(handed, i).key]
    }

    constructor (capacity: nat)
      ensures Valid() && !closed && handed == [] && lastClosed == map[] && this.capacity == capacity
    {
      this.capacity := capacity;
      lastClosed, queue, closed, handed, taken := map[], [], false, [], 0;
    }

    /** The monotonic guard: accepts a bar newer than the last one accepted, and remembers it. */
    method AcceptClosed(k: string, open: int) returns (ok: bool)
      modifies this`lastClosed
      ensures ok <==> k !in old(lastClosed) || open > old(lastClosed)[k]
      ensures lastClosed == if ok then old(lastClosed)[k := open] else old(lastClosed)
    {
      if k in lastClosed && open <= lastClosed[k] {
        return false;
      }
      lastClosed := lastClosed[k := open];
      ok := true;
    }

    /** `live` is whether a live snapshot was offered to the live sink. */
    method HandleKlineEvent(e: KlineEvent) returns (a: Answer, live: bool)
      requires Valid()
      modifies this`lastClosed, this`queue, this`handed
      ensures Valid()
      ensures a.Closed? <==> closed
      ensures live <==> !closed && e.liveOk
      ensures var k := GuardKey(e.symbol, e.interval);
              var accepted := live && e.final && (k !in old(lastClosed) || e.open > old(lastClosed)[k]);
              && lastClosed == (if accepted then old(lastClosed)[k := e.open] else old(lastClosed))
              && handed == (if accepted && e.barOk && |old(queue)| < capacity
                            then old(handed) + [Job(k, e.open, e.rowOk)] else old(handed))
              && (a.Busy? <==> accepted && e.barOk && |old(queue)| >= capacity)
              && (a.BadNumber? <==> !closed && (!e.liveOk || (accepted && !e.barOk)))
    {
      live := false;
      if closed {
        return Closed, false;
      }
      if !e.liveOk {
        return BadNumber, false;
      }
      live := true;
      if !e.final {
        return Nil, true;
      }
      var k := GuardKey(e.symbol, e.interval);
      var ok := AcceptClosed(k, e.open);
      if !ok {
        return Nil, true;
      }
      if !e.barOk {
        return BadNumber, true;
      }
      if |queue| >= capacity {
        return Busy, true;
      }
      ghost var next := handed + [Job(k, e.open, e.rowOk)];
      forall i: nat, j: nat {:trigger JobAt(next, i), JobAt(next, j)} | i < j < |next| && JobAt(next, i).key == JobAt(next, j).key
        ensures JobAt(next, i).open < JobAt(next, j).open
      {
        assert JobAt(next, i) == JobAt(handed, i);
        assert j < |handed| ==> JobAt(next, j) == JobAt(handed, j);
      }
      forall i: nat {:trigger JobAt(next, i)} | i < |next|
        ensures JobAt(next, i).key in lastClosed && JobAt(next, i).open <= lastClosed[JobAt(next, i).key]
      {
        assert i < |handed| ==> JobAt(next, i) == JobAt(handed, i);
      }
      queue := queue + [Job(k, e.open, e.rowOk)];
      handed := next;
      a := Nil;
    }

    /** Shutdown: nothing new is taken in, and what is queued stays for the workers. */
    method Close()
      requires Valid()
      modifies this`closed
      ensures Valid() && closed
    {
      closed := true;
    }

    /** A worker takes the oldest job. */
    method Next() returns (job: Job)
      requires Valid() && queue != []
      modifies this`queue, this`taken
      ensures Valid() && old(taken) < |handed| && job == handed[old(taken)] && taken == old(taken) + 1
    {
      job := queue[0];
      queue := queue[1..];
      taken := taken + 1;
    }
  }

  /** What a worker does with one job, in order: what it calls, and for which bar. */
  datatype Call = PushWindow(key: string, open: int) | PushArchive(key: string, open: int) | MarkSection(key: string, open: int)

  /**
   A worker handles one job. What the calls return is counted and changes nothing: the
   section is marked once, last, after the one window push has returned; the archive gets
   the row if there is one.
   */
  method HandleClosed(job: Job) returns (calls: seq<Call>)
    ensures |calls| == if job.hasRow then 3 else 2
    ensures calls[0] == PushWindow(job.key, job.open) && calls[|calls| - 1] == MarkSection(job.key, job.open)
    ensures PushArchive(job.key, job.open) in calls <==> job.hasRow
  {
    calls := [PushWindow(job.key, job.open)];
    if job.hasRow {
      calls := calls + [PushArchive(job.key, job.open)];
    }
    calls := calls + [MarkSection(job.key, job.open)];
  }

  /** What happens to a dispatcher later: an event is offered, a worker takes a job, or it is shut down. */
  datatype Later = Offered(e: KlineEvent) | Taken | Shut

  /** The bar has not been handed to the workers, and the guard has moved past it. */
  ghost predicate Lost(d: Dispatcher, k: string, open: int)
    reads d
  {
    && k in d.lastClosed && open <= d.lastClosed[k]
    && forall j: nat {:trigger JobAt(d.handed, j)} :: j < |d.handed| ==> JobAt(d.handed, j).key != k || JobAt(d.handed, j).open != open
  }

  /** One later step leaves a lost bar lost; offered again it is dropped without an error, or refused after shutdown. */
  method StaysLost(d: Dispatcher, k: string, open: int, step: Later)
    requires d.Valid() && Lost(d, k, open)
    modifies d
    ensures d.Valid() && Lost(d, k, open)
  {
    match step {
      case Offered(e) =>
        ghost var before := d.handed;
        var a, live := d.HandleKlineEvent(e);
        assert forall j: nat {:trigger JobAt(d.handed, j)} :: j < |before| ==> JobAt(d.handed, j) == JobAt(before, j);
        assert GuardKey(e.symbol, e.interval) == k && e.open == open ==> d.handed == before && !a.Busy?;
      case Taken =>
        if d.queue != [] {
          var job := d.Next();
        }
      case Shut =>
        d.Close();
    }
  }

  /**
   A closed bar that meets a full queue is dropped for good: the guard has moved past it,
   so whatever is offered, taken or shut down later, the bar itself included, the workers
   never get it.
   */
  method BusyBarIsLost(d: Dispatcher, e: KlineEvent, later: seq<Later>) returns (first: Answer)
    requires d.Valid() && !d.closed && d.capacity <= |d.queue| && e.liveOk && e.final && e.barOk
    requires var k := GuardKey(e.symbol, e.interval); k !in d.lastClosed || e.open > d.lastClosed[k]
    modifies d
    ensures d.Valid() && first == Busy && Lost(d, GuardKey(e.symbol, e.interval), e.open)
  {
    var live;
    first, live := d.HandleKlineEvent(e);
    for n := 0 to |later|
      invariant d.Valid() && Lost(d, GuardKey(e.symbol, e.interval), e.open)
    {
      StaysLost(d, GuardKey(e.symbol, e.interval), e.open, later[n]);
    }
  }
}
