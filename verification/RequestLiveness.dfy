/**
  What becomes of the requests of ODBCDNS/DNSServer.cpp when no more datagrams arrive: every schedule of
  the threads ends, and when none of them can go on, every request was answered.
 */
module RequestLiveness {
  import opened RequestQueue

  /** What is left to do before the worker waits again. Caching may be tried twice. */
  function WorkerSteps(w: Worker): nat {
    match w.pc
    case Waiting => 0
    case Freeing => 1
    case Top => if Caches(w) then 3 else 2
    case Send => 4
    case Resolve => 5
    case Extract => 6
    case Leaving => 7
    case Pop => 8
    case Front => 9
    case Entering => 10
  }

  function AllSteps(ws: seq<Worker>): nat {
    if ws == [] then 0 else AllSteps(ws[..|ws| - 1]) + WorkerSteps(ws[|ws| - 1])
  }

  const ROUND := 11

  function ProducerSteps(p: Producer): nat {
    match p
    case Receiving => 0
    case Releasing => ROUND + 1
    case Pushed => ROUND + 2
    case Pushing(_) => ROUND + 3
    case HasPacket(_) => ROUND + 4
  }

  /** No more than this many steps are possible without another datagram. */
  function Work(s: Server): nat {
    ROUND * s.sem + AllSteps(s.workers) + ProducerSteps(s.producer)
  }

  lemma {:induction false} StepsChange(ws: seq<Worker>, i: nat, w: Worker)
    requires i < |ws|
    ensures AllSteps(ws[i := w]) == AllSteps(ws) - WorkerSteps(ws[i]) + WorkerSteps(w)
  {
    var last := |ws| - 1;
    if i == last {
      assert ws[i := w][..last] == ws[..last];
    } else {
      assert ws[i := w][..last] == ws[..last][i := w];
      StepsChange(ws[..last], i, w);
    }
  }

  /** The step of a worker: the semaphore may be taken, and the producer is not concerned. */
  lemma {:induction false} WorkerNearer(s: Server, e: Event)
    requires Counted(s) && Enabled(s, e) && Actor(e) >= 0
    ensures var s', i := Apply(s, e), Actor(e);
      && s'.workers == s.workers[i := s'.workers[i]] && s'.producer == s.producer
      && s'.sem <= s.sem
      && WorkerSteps(s'.workers[i]) < WorkerSteps(s.workers[i]) + ROUND * (s.sem - s'.sem)
  {
    if BetweenWaitAndPop(s.workers[Actor(e)]) {
      QueueNotEmpty(s, Actor(e));
    }
  }

  lemma {:induction false} WorkShrinks(s: Server, e: Event)
    requires Counted(s) && Enabled(s, e) && !e.Receive?
    ensures Work(Apply(s, e)) < Work(s)
  {
    var i := Actor(e);
    if i >= 0 {
      WorkerNearer(s, e);
      StepsChange(s.workers, i, Apply(s, e).workers[i]);
    }
  }

  predicate NoArrival(events: seq<Event>) {
    forall k :: 0 <= k < |events| ==> !events[k].Receive?
  }

  /** Without another datagram every schedule ends. */
  lemma {:induction false} ScheduleEnds(s: Server, events: seq<Event>, s': Server)
    requires Inv(s) && Runs(s, events, s') && NoArrival(events)
    ensures |events| + Work(s') <= Work(s)
    decreases |events|
  {
    if events != [] {
      WorkShrinks(s, events[0]);
      StepKeepsInv(s, events[0]);
      ScheduleEnds(Apply(s, events[0]), events[1..], s');
    }
  }

  /** Nothing can happen but that a datagram arrives. */
  ghost predicate Idle(s: Server) {
    forall e :: Enabled(s, e) ==> e.Receive?
  }

  function StepOf(w: Worker, i: nat): Event {
    match w.pc
    case Top => Cache(i, false)
    case Freeing => Free(i)
    case Waiting => Wait(i)
    case Entering => Enter(i)
    case Front => ReadFront(i)
    case Pop => PopFront(i)
    case Leaving => Leave(i)
    case Extract => ExtractQueries(i, true)
    case Resolve => ResolveQueries(i, true, true)
    case Send => SendReply(i, true)
  }

  /** A worker can go on unless it waits for the semaphore or the critical section. */
  lemma {:induction false} WorkerGoesOn(s: Server, i: nat)
    requires i < |s.workers|
    ensures Enabled(s, StepOf(s.workers[i], i)) ||
      (s.workers[i].pc == Waiting && s.sem == 0) || (s.workers[i].pc == Entering && s.lock != Nobody)
  {
  }

  lemma {:induction false} ProducerGoesOn(s: Server)
    ensures || s.producer == Receiving || (s.producer.HasPacket? && s.lock != Nobody)
            || Enabled(s, ProducerEnters) || Enabled(s, Push) || Enabled(s, ProducerLeaves) || Enabled(s, Release)
  {
  }

  lemma {:induction false} IdleLock(s: Server)
    requires Locked(s) && HolderReal(s) && Idle(s)
    ensures s.lock == Nobody && s.producer == Receiving
  {
    ProducerGoesOn(s);
    if s.lock.TheWorker? {
      WorkerGoesOn(s, s.lock.i);
    }
  }

  lemma {:induction false} IdleWorker(s: Server, i: nat)
    requires Locked(s) && HolderReal(s) && Idle(s) && i < |s.workers|
    ensures s.workers[i].pc == Waiting && s.sem == 0
  {
    IdleLock(s);
    WorkerGoesOn(s, i);
  }

  /** When a server with a worker is idle, the queue is empty and every request was answered. */
  lemma {:induction false} IdleAnswered(s: Server)
    requires Inv(s) && Idle(s) && s.workers != []
    ensures s.queue == [] && s.sem == 0 && forall p :: p in s.pushed ==> p in s.sends
  {
    IdleLock(s);
    forall i | 0 <= i < |s.workers| ensures s.workers[i].pc == Waiting && s.sem == 0 {
      IdleWorker(s, i);
    }
    assert s.workers[0].pc == Waiting;
    BetweenNone(s.workers);
    assert s.pushed == s.taken;
  }

  lemma {:induction false} LogsGrow(s: Server, events: seq<Event>, s': Server)
    requires Runs(s, events, s')
    ensures s.pushed <= s'.pushed
    decreases |events|
  {
    if events != [] {
      LogsGrow(Apply(s, events[0]), events[1..], s');
    }
  }

  /** The threads run until none can go on. */
  lemma {:induction false} RunToIdle(s: Server) returns (events: seq<Event>, s': Server)
    requires Inv(s)
    ensures Runs(s, events, s') && NoArrival(events) && Idle(s')
    decreases Work(s)
  {
    if Idle(s) {
      return [], s;
    }
    var e :| Enabled(s, e) && !e.Receive?;
    WorkShrinks(s, e);
    StepKeepsInv(s, e);
    var more;
    more, s' := RunToIdle(Apply(s, e));
    events := [e] + more;
    assert events[1..] == more;
  }

  /**
    From every reachable state of a server with a worker, however its threads are scheduled: without
    another datagram they take at most Work(s) steps, and when none of them can go on, every request that
    was pushed, before or since, is answered.
   */
  lemma {:induction false} EveryScheduleAnswers(n: nat, before: seq<Event>, s: Server, events: seq<Event>, s': Server)
    requires n > 0 && Runs(Start(n), before, s) && Runs(s, events, s') && NoArrival(events)
    ensures |events| <= Work(s)
    ensures Idle(s') ==> s'.queue == [] && forall p :: p in s.pushed || p in s'.pushed ==> p in s'.sends
  {
    InvNow(n, before, s);
    ScheduleEnds(s, events, s');
    SameWorkers(Start(n), before, s);
    SameWorkers(s, events, s');
    LogsGrow(s, events, s');
    RunKeepsInv(s, events, s');
    if Idle(s') {
      IdleAnswered(s');
    }
  }

  /** And there is such a schedule: after it every request in s.pushed is answered, each once. */
  lemma {:induction false} AllAnswered(n: nat, before: seq<Event>, s: Server) returns (events: seq<Event>, s': Server)
    requires n > 0 && Runs(Start(n), before, s)
    ensures Runs(s, events, s') && NoArrival(events) && Idle(s')
    ensures forall p :: p in s.pushed ==> p in s'.sends
    ensures Distinctness.Distinct(s'.sends) && !s'.crashed
  {
    InvNow(n, before, s);
    events, s' := RunToIdle(s);
    EveryScheduleAnswers(n, before, s, events, s');
    RunsOn(Start(n), before, s, events, s');
    ServerSafe(n, before + events, s');
  }

  /**
    From every reachable state: with the semaphore up and the critical section free, four steps of a
    waiting worker alone take the front of the queue.
   */
  lemma {:induction false} TakeComes(n: nat, before: seq<Event>, s: Server, i: nat) returns (s': Server)
    requires Runs(Start(n), before, s) && At(s, i, Waiting) && s.sem > 0 && s.lock == Nobody
    ensures Runs(s, [Wait(i), Enter(i), ReadFront(i), PopFront(i)], s')
    ensures s.queue != [] && s'.taken == s.taken + [s.queue[0]] && s'.queue == s.queue[1..]
    ensures At(s', i, Leaving) && s'.workers[i].pkt == s.queue[0]
  {
    InvNow(n, before, s);
    var s1 := Apply(s, Wait(i));
    var s2 := Apply(s1, Enter(i));
    var s3 := Apply(s2, ReadFront(i));
    s' := Apply(s3, PopFront(i));
    RunsFour(s, Wait(i), Enter(i), ReadFront(i), PopFront(i));
  }

  lemma {:induction false} RunsFour(s: Server, e1: Event, e2: Event, e3: Event, e4: Event)
    requires Enabled(s, e1) && Enabled(Apply(s, e1), e2) && Enabled(Apply(Apply(s, e1), e2), e3)
    requires Enabled(Apply(Apply(Apply(s, e1), e2), e3), e4)
    ensures Runs(s, [e1, e2, e3, e4], Apply(Apply(Apply(Apply(s, e1), e2), e3), e4))
  {
    var s4 := Apply(Apply(Apply(Apply(s, e1), e2), e3), e4);
    assert Runs(s4, [], s4);
    assert [e4][1..] == [];
    assert Runs(Apply(Apply(Apply(s, e1), e2), e3), [e4], s4);
    assert [e3, e4][1..] == [e4];
    assert Runs(Apply(Apply(s, e1), e2), [e3, e4], s4);
    assert [e2, e3, e4][1..] == [e3, e4];
    assert Runs(Apply(s, e1), [e2, e3, e4], s4);
    assert [e1, e2, e3, e4][1..] == [e2, e3, e4];
  }
}
