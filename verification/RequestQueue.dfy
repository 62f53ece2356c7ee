/**
  The request queue of ODBCDNS/DNSServer.cpp: one producer (`run`) and any number of workers
  (`serviceRequests`) over a semaphore, a critical section and a queue, as a machine whose steps are
  the actions of one thread. Runs are those before `shutdown`.

  Packets are named by the order of their allocation, so a name is never used again after `free`.
  `crashed` is set by what has no defined meaning: taking from an empty queue, using or freeing a
  packet that is not there.
 */
module RequestQueue {
  import opened Distinctness

  const NONE := -1

  datatype Producer =
    | Receiving            // waits for a datagram
    | HasPacket(p: int)    // allocated a packet, about to enter the critical section
    | Pushing(p: int)      // inside
    | Pushed               // inside, the request is in the queue
    | Releasing            // left, about to release the semaphore

  datatype Pc =
    | Top        // loop head: may cache the last response
    | Freeing    // about to free the last packet
    | Waiting    // waits for the semaphore
    | Entering   // acquired the semaphore, about to enter the critical section
    | Front      // inside, about to read the front of the queue
    | Pop        // inside, about to pop it
    | Leaving    // inside, took the request
    | Extract    // about to extract the queries
    | Resolve    // about to resolve
    | Send       // about to send

  datatype Worker = Worker(pc: Pc, pkt: int, error: bool, recursion: bool)

  datatype Holder = Nobody | TheProducer | TheWorker(i: nat)

  datatype Server = Server(
    producer: Producer, workers: seq<Worker>, queue: seq<int>, sem: nat, lock: Holder,
    next: int, pushed: seq<int>, taken: seq<int>, sends: seq<int>, freed: seq<int>, crashed: bool)

  datatype Event =
    | Receive | ProducerEnters | Push | ProducerLeaves | Release
    | Cache(i: nat, throws: bool) | Free(i: nat) | Wait(i: nat) | Enter(i: nat)
    | ReadFront(i: nat) | PopFront(i: nat) | Leave(i: nat)
    | ExtractQueries(i: nat, ok: bool) | ResolveQueries(i: nat, ok: bool, recursion: bool) | SendReply(i: nat, ok: bool)

  predicate At(s: Server, i: nat, pc: Pc) {
    i < |s.workers| && s.workers[i].pc == pc
  }

  predicate Caches(w: Worker) { !w.error && w.recursion }

  predicate Enabled(s: Server, e: Event) {
    match e
    case Receive => s.producer.Receiving?
    case ProducerEnters => s.producer.HasPacket? && s.lock.Nobody?
    case Push => s.producer.Pushing?
    case ProducerLeaves => s.producer.Pushed?
    case Release => s.producer.Releasing?
    case Cache(i, throws) => At(s, i, Top) && (throws ==> Caches(s.workers[i]))
    case Free(i) => At(s, i, Freeing)
    case Wait(i) => At(s, i, Waiting) && s.sem > 0
    case Enter(i) => At(s, i, Entering) && s.lock.Nobody?
    case ReadFront(i) => At(s, i, Front)
    case PopFront(i) => At(s, i, Pop)
    case Leave(i) => At(s, i, Leaving)
    case ExtractQueries(i, _) => At(s, i, Extract)
    case ResolveQueries(i, _, _) => At(s, i, Resolve)
    case SendReply(i, _) => At(s, i, Send)
  }

  function SetWorker(s: Server, i: nat, w: Worker): Server
    requires i < |s.workers|
  {
    s.(workers := s.workers[i := w])
  }

  /** Using a packet that was never allocated or is already freed is a crash. */
  predicate Gone(s: Server, p: int) { p == NONE || p in s.freed }

  function Apply(s: Server, e: Event): Server
    requires Enabled(s, e)
  {
    match e
    case Receive => s.(producer := HasPacket(s.next), next := s.next + 1)
    case ProducerEnters => s.(producer := Pushing(s.producer.p), lock := TheProducer)
    case Push => s.(producer := Pushed, queue := s.queue + [s.producer.p], pushed := s.pushed + [s.producer.p])
    case ProducerLeaves => s.(producer := Releasing, lock := Nobody)
    case Release => s.(producer := Receiving, sem := s.sem + 1)
    case Cache(i, throws) =>
      var w := s.workers[i];
      var s1 := s.(crashed := s.crashed || (Caches(w) && Gone(s, w.pkt)));
      if throws then SetWorker(s1, i, w.(error := true))
      else SetWorker(s1, i, w.(pc := Freeing, error := false))
    case Free(i) =>
      var w := s.workers[i];
      var s1 := SetWorker(s, i, w.(pc := Waiting));
      if w.pkt == NONE then s1
      else s1.(freed := s.freed + [w.pkt], crashed := s.crashed || Gone(s, w.pkt))
    case Wait(i) => SetWorker(s.(sem := s.sem - 1), i, s.workers[i].(pc := Entering))
    case Enter(i) => SetWorker(s.(lock := TheWorker(i)), i, s.workers[i].(pc := Front))
    case ReadFront(i) =>
      if s.queue == [] then s.(crashed := true)
      else SetWorker(s, i, s.workers[i].(pc := Pop, pkt := s.queue[0]))
    case PopFront(i) =>
      if s.queue == [] then s.(crashed := true)
      else SetWorker(s.(queue := s.queue[1..], taken := s.taken + [s.workers[i].pkt]), i, s.workers[i].(pc := Leaving))
    case Leave(i) => SetWorker(s.(lock := Nobody), i, s.workers[i].(pc := Extract))
    case ExtractQueries(i, ok) =>
      var w := s.workers[i];
      SetWorker(s.(crashed := s.crashed || Gone(s, w.pkt)), i, w.(pc := Resolve, error := !ok))
    case ResolveQueries(i, ok, recursion) =>
      var w := s.workers[i];
      SetWorker(s.(crashed := s.crashed || Gone(s, w.pkt)), i,
                if ok then w.(pc := Send, recursion := recursion) else w.(pc := Send, error := true))
    case SendReply(i, ok) =>
      var w := s.workers[i];
      SetWorker(s.(crashed := s.crashed || Gone(s, w.pkt), sends := s.sends + [w.pkt]), i,
                w.(pc := Top, error := w.error || !ok))
  }

  function Start(n: nat): Server {
    Server(Receiving, seq(n, _ => Worker(Top, NONE, false, false)), [], 0, Nobody, 0, [], [], [], [], false)
  }

  // ----- The invariant

  predicate BetweenWaitAndPop(w: Worker) { w.pc in {Entering, Front, Pop} }
  predicate Inside(w: Worker) { w.pc in {Front, Pop, Leaving} }
  predicate Serving(w: Worker) { w.pc in {Leaving, Extract, Resolve, Send} }
  predicate Keeping(w: Worker) { w.pc in {Top, Freeing} && w.pkt != NONE }

  function Between(ws: seq<Worker>): nat {
    if ws == [] then 0
    else Between(ws[..|ws| - 1]) + if BetweenWaitAndPop(ws[|ws| - 1]) then 1 else 0
  }

  predicate PushedNotReleased(p: Producer) { p.Pushed? || p.Releasing? }

  /** Queue length = semaphore count + workers between wait and pop + 1 if the producer is between push and release. */
  predicate Counted(s: Server) {
    |s.queue| == s.sem + Between(s.workers) + if PushedNotReleased(s.producer) then 1 else 0
  }

  ghost predicate Locked(s: Server) {
    && (forall i :: 0 <= i < |s.workers| ==> (Inside(s.workers[i]) <==> s.lock == TheWorker(i)))
    && (s.producer.Pushing? || s.producer.Pushed? <==> s.lock == TheProducer)
  }

  predicate HolderReal(s: Server) {
    s.lock.TheWorker? ==> s.lock.i < |s.workers|
  }

  /** Requests are taken in the order in which they were pushed. */
  ghost predicate Fifo(s: Server) {
    && s.pushed == s.taken + s.queue
    && Distinct(s.pushed)
    && (forall p :: p in s.pushed ==> 0 <= p < s.next)
    && (s.producer.HasPacket? || s.producer.Pushing? ==> 0 <= s.producer.p < s.next && s.producer.p !in s.pushed)
    && 0 <= s.next
  }

  ghost predicate Logged(s: Server) {
    && Distinct(s.sends) && (forall p :: p in s.sends ==> p in s.taken)
    && Distinct(s.freed) && (forall p :: p in s.freed ==> p in s.sends)
  }

  ghost predicate WorkerOk(s: Server, w: Worker) {
    match w.pc
    case Top => w.pkt == NONE || (w.pkt in s.sends && w.pkt !in s.freed)
    case Freeing => w.pkt == NONE || (w.pkt in s.sends && w.pkt !in s.freed)
    case Waiting => true
    case Entering => true
    case Front => true
    case Pop => s.queue != [] && w.pkt == s.queue[0]
    case _ => w.pkt in s.taken && w.pkt !in s.sends
  }

  ghost predicate WorkersOk(s: Server) {
    && (forall i :: 0 <= i < |s.workers| ==> WorkerOk(s, s.workers[i]))
    && (forall i :: 0 <= i < |s.workers| ==> (s.workers[i].recursion ==> s.workers[i].pkt != NONE))
  }

  predicate Owns(w: Worker) { Serving(w) || Keeping(w) }

  ghost predicate OwnersDiffer(s: Server) {
    forall i, j ::
      (0 <= i < j < |s.workers| && Owns(s.workers[i]) && Owns(s.workers[j])) ==> s.workers[i].pkt != s.workers[j].pkt
  }

  ghost predicate ServedBy(s: Server, p: int) {
    exists i :: 0 <= i < |s.workers| && Serving(s.workers[i]) && s.workers[i].pkt == p
  }

  ghost predicate KeptBy(s: Server, p: int) {
    exists i :: 0 <= i < |s.workers| && Keeping(s.workers[i]) && s.workers[i].pkt == p
  }

  /** No taken request is lost, and no packet. */
  ghost predicate Accounted(s: Server) {
    && (forall p :: p in s.taken ==> p in s.sends || ServedBy(s, p))
    && (forall p :: p in s.sends ==> p in s.freed || KeptBy(s, p))
  }

  ghost predicate Inv(s: Server) {
    && !s.crashed && Counted(s) && Locked(s) && HolderReal(s) && Fifo(s) && Logged(s)
    && WorkersOk(s) && OwnersDiffer(s) && Accounted(s)
  }

  // ----- Every step keeps it

  lemma {:induction false} BetweenStep(ws: seq<Worker>, i: nat, w: Worker)
    requires i < |ws|
    ensures Between(ws[i := w]) == Between(ws) - (if BetweenWaitAndPop(ws[i]) then 1 else 0)
                                               + (if BetweenWaitAndPop(w) then 1 else 0)
  {
    var last := |ws| - 1;
    if i == last {
      assert ws[i := w][..last] == ws[..last];
    } else {
      assert ws[i := w][..last] == ws[..last][i := w];
      BetweenStep(ws[..last], i, w);
    }
  }

  lemma {:induction false} BetweenSome(ws: seq<Worker>, i: nat)
    requires i < |ws| && BetweenWaitAndPop(ws[i])
    ensures Between(ws) > 0
  {
    if i < |ws| - 1 {
      BetweenSome(ws[..|ws| - 1], i);
    }
  }

  function Actor(e: Event): int {
    match e
    case Receive => NONE
    case ProducerEnters => NONE
    case Push => NONE
    case ProducerLeaves => NONE
    case Release => NONE
    case Cache(i, _) => i
    case Free(i) => i
    case Wait(i) => i
    case Enter(i) => i
    case ReadFront(i) => i
    case PopFront(i) => i
    case Leave(i) => i
    case ExtractQueries(i, _) => i
    case ResolveQueries(i, _, _) => i
    case SendReply(i, _) => i
  }

  /** A worker inside the critical section, before the pop, finds the queue not empty. */
  lemma {:induction false} QueueNotEmpty(s: Server, i: nat)
    requires Counted(s) && i < |s.workers| && BetweenWaitAndPop(s.workers[i])
    ensures s.queue != []
  {
    BetweenSome(s.workers, i);
  }

  lemma {:induction false} CountedKept(s: Server, e: Event)
    requires Counted(s) && Enabled(s, e)
    ensures Counted(Apply(s, e))
  {
    var i := Actor(e);
    if i >= 0 {
      BetweenStep(s.workers, i, Apply(s, e).workers[i]);
      if BetweenWaitAndPop(s.workers[i]) {
        QueueNotEmpty(s, i);
      }
    }
  }

  lemma {:induction false} LockedKept(s: Server, e: Event)
    requires Counted(s) && Locked(s) && Enabled(s, e)
    ensures Locked(Apply(s, e))
  {
    var i := Actor(e);
    if i >= 0 && BetweenWaitAndPop(s.workers[i]) {
      QueueNotEmpty(s, i);
    }
  }

  lemma {:induction false} HolderKept(s: Server, e: Event)
    requires HolderReal(s) && Enabled(s, e)
    ensures HolderReal(Apply(s, e))
  {
  }

  lemma {:induction false} FifoKept(s: Server, e: Event)
    requires Counted(s) && Fifo(s) && WorkersOk(s) && Enabled(s, e)
    ensures Fifo(Apply(s, e))
  {
    var i := Actor(e);
    if i >= 0 && BetweenWaitAndPop(s.workers[i]) {
      QueueNotEmpty(s, i);
      assert WorkerOk(s, s.workers[i]);
    }
  }

  lemma {:induction false} LoggedKept(s: Server, e: Event)
    requires Logged(s) && WorkersOk(s) && Enabled(s, e)
    ensures Logged(Apply(s, e))
  {
    var i := Actor(e);
    if i >= 0 {
      assert WorkerOk(s, s.workers[i]);
    }
  }

  lemma {:induction false} TakenReal(s: Server, p: int)
    requires Fifo(s) && (p in s.taken || p in s.queue)
    ensures p in s.pushed && 0 <= p
  {
    assert s.pushed == s.taken + s.queue;
  }

  lemma {:induction false} FrontNotTaken(s: Server)
    requires Fifo(s) && s.queue != []
    ensures s.queue[0] !in s.taken
  {
    assert s.pushed[|s.taken|] == s.queue[0];
    forall j | 0 <= j < |s.taken| ensures s.taken[j] != s.queue[0] {
      assert s.pushed[j] == s.taken[j];
    }
  }

  lemma {:induction false} NoCrash(s: Server, e: Event)
    requires !s.crashed && Counted(s) && Fifo(s) && Logged(s) && WorkersOk(s) && Enabled(s, e)
    ensures !Apply(s, e).crashed
  {
    var i := Actor(e);
    if i >= 0 {
      var w := s.workers[i];
      assert WorkerOk(s, w);
      if BetweenWaitAndPop(w) {
        QueueNotEmpty(s, i);
      }
      if Serving(w) {
        TakenReal(s, w.pkt);
      }
    }
  }

  /** The logs grow, and the front of the queue stays where it is while a worker is about to pop it. */
  lemma {:induction false} OtherWorkerOk(s: Server, e: Event, j: nat)
    requires Locked(s) && WorkersOk(s) && OwnersDiffer(s) && Logged(s) && Enabled(s, e)
    requires j < |s.workers| && j != Actor(e)
    ensures WorkerOk(Apply(s, e), s.workers[j])
  {
    var i := Actor(e);
    assert WorkerOk(s, s.workers[j]);
    if i >= 0 {
      assert WorkerOk(s, s.workers[i]);
      assert Owns(s.workers[i]) && Owns(s.workers[j]) ==> s.workers[i].pkt != s.workers[j].pkt by {
        if i < j { } else { }
      }
      assert s.workers[j].pc == Pop ==> !Inside(s.workers[i]);
    }
  }

  lemma {:induction false} ActorOk(s: Server, e: Event)
    requires Counted(s) && Fifo(s) && Logged(s) && WorkersOk(s) && Enabled(s, e) && Actor(e) >= 0
    ensures WorkerOk(Apply(s, e), Apply(s, e).workers[Actor(e)])
    ensures Apply(s, e).workers[Actor(e)].recursion ==> Apply(s, e).workers[Actor(e)].pkt != NONE
  {
    var i := Actor(e);
    var w := s.workers[i];
    assert WorkerOk(s, w);
    if BetweenWaitAndPop(w) {
      QueueNotEmpty(s, i);
      FrontNotTaken(s);
      TakenReal(s, s.queue[0]);
    }
    if Serving(w) {
      TakenReal(s, w.pkt);
    }
  }

  lemma {:induction false} WorkersKept(s: Server, e: Event)
    requires Inv(s) && Enabled(s, e)
    ensures WorkersOk(Apply(s, e))
  {
    if Actor(e) >= 0 {
      ActorOk(s, e);
    }
    forall j | 0 <= j < |s.workers| && j != Actor(e) ensures WorkerOk(Apply(s, e), s.workers[j]) {
      OtherWorkerOk(s, e, j);
    }
  }

  /** Only the pop makes a worker the owner of a packet. */
  lemma {:induction false} OwnerStep(s: Server, e: Event)
    requires Fifo(s) && WorkersOk(s) && Enabled(s, e) && Actor(e) >= 0 && !e.PopFront?
    ensures Owns(Apply(s, e).workers[Actor(e)]) ==>
              Owns(s.workers[Actor(e)]) && Apply(s, e).workers[Actor(e)].pkt == s.workers[Actor(e)].pkt
  {
  }

  lemma {:induction false} OwnerInTaken(s: Server, w: Worker)
    requires Logged(s) && WorkerOk(s, w) && Owns(w)
    ensures w.pkt in s.taken
  {
  }

  lemma {:induction false} OwnersKept(s: Server, e: Event)
    requires Counted(s) && Fifo(s) && Logged(s) && WorkersOk(s) && OwnersDiffer(s) && Enabled(s, e)
    ensures OwnersDiffer(Apply(s, e))
  {
    var i := Actor(e);
    if e.PopFront? {
      QueueNotEmpty(s, i);
      FrontNotTaken(s);
      assert WorkerOk(s, s.workers[i]);
      forall j | 0 <= j < |s.workers| && Owns(s.workers[j]) ensures s.workers[j].pkt != s.queue[0] {
        OwnerInTaken(s, s.workers[j]);
      }
    } else if i >= 0 {
      OwnerStep(s, e);
      assert Apply(s, e).workers == s.workers[i := Apply(s, e).workers[i]];
    }
  }

  lemma {:induction false} ServedOrSent(s: Server, e: Event, p: int)
    requires Inv(s) && Enabled(s, e) && p in Apply(s, e).taken
    ensures p in Apply(s, e).sends || ServedBy(Apply(s, e), p)
  {
    var s', i := Apply(s, e), Actor(e);
    if p in s.taken && p !in s.sends {
      var k :| 0 <= k < |s.workers| && Serving(s.workers[k]) && s.workers[k].pkt == p;
      if !e.SendReply? || k != i {
        assert Serving(s'.workers[k]) && s'.workers[k].pkt == p;
      }
    } else if p !in s.taken {
      QueueNotEmpty(s, i);
      assert Serving(s'.workers[i]) && s'.workers[i].pkt == p;
    }
  }

  lemma {:induction false} KeptOrFreed(s: Server, e: Event, p: int)
    requires Inv(s) && Enabled(s, e) && p in Apply(s, e).sends
    ensures p in Apply(s, e).freed || KeptBy(Apply(s, e), p)
  {
    var s', i := Apply(s, e), Actor(e);
    if p in s.sends && p !in s.freed {
      var k :| 0 <= k < |s.workers| && Keeping(s.workers[k]) && s.workers[k].pkt == p;
      if !e.Free? || k != i {
        assert Keeping(s'.workers[k]) && s'.workers[k].pkt == p;
      }
    } else if p !in s.sends {
      assert WorkerOk(s, s.workers[i]);
      TakenReal(s, p);
      assert Keeping(s'.workers[i]) && s'.workers[i].pkt == p;
    }
  }

  lemma {:induction false} StepKeepsInv(s: Server, e: Event)
    requires Inv(s) && Enabled(s, e)
    ensures Inv(Apply(s, e))
  {
    NoCrash(s, e);
    CountedKept(s, e);
    LockedKept(s, e);
    HolderKept(s, e);
    FifoKept(s, e);
    LoggedKept(s, e);
    WorkersKept(s, e);
    OwnersKept(s, e);
    AccountedKept(s, e);
  }

  lemma {:induction false} AccountedKept(s: Server, e: Event)
    requires Inv(s) && Enabled(s, e)
    ensures Accounted(Apply(s, e))
  {
    forall p | p in Apply(s, e).taken ensures p in Apply(s, e).sends || ServedBy(Apply(s, e), p) {
      ServedOrSent(s, e, p);
    }
    forall p | p in Apply(s, e).sends ensures p in Apply(s, e).freed || KeptBy(Apply(s, e), p) {
      KeptOrFreed(s, e, p);
    }
  }

  // ----- Every run

  ghost predicate Runs(s: Server, events: seq<Event>, s': Server)
    decreases |events|
  {
    if events == [] then s' == s
    else Enabled(s, events[0]) && Runs(Apply(s, events[0]), events[1..], s')
  }

  lemma {:induction false} RunKeepsInv(s: Server, events: seq<Event>, s': Server)
    requires Inv(s) && Runs(s, events, s')
    ensures Inv(s')
    decreases |events|
  {
    if events != [] {
      StepKeepsInv(s, events[0]);
      RunKeepsInv(Apply(s, events[0]), events[1..], s');
    }
  }

  lemma {:induction false} SameWorkers(s: Server, events: seq<Event>, s': Server)
    requires Runs(s, events, s')
    ensures |s'.workers| == |s.workers|
    decreases |events|
  {
    if events != [] {
      SameWorkers(Apply(s, events[0]), events[1..], s');
    }
  }

  lemma {:induction false} BetweenNone(ws: seq<Worker>)
    requires forall i :: 0 <= i < |ws| ==> !BetweenWaitAndPop(ws[i])
    ensures Between(ws) == 0
  {
    if ws != [] {
      BetweenNone(ws[..|ws| - 1]);
    }
  }

  lemma {:induction false} StartInv(n: nat)
    ensures Inv(Start(n))
  {
    BetweenNone(Start(n).workers);
  }

  lemma {:induction false} InvNow(n: nat, events: seq<Event>, s: Server)
    requires Runs(Start(n), events, s)
    ensures Inv(s)
  {
    StartInv(n);
    RunKeepsInv(Start(n), events, s);
  }

  /**
    In every interleaving, for any number of workers: no worker reads or pops an empty queue or
    touches a packet that is not there, the queue count is as stated, requests are taken in the order
    of their arrival, each once, each taken one is sent at most once, and a packet is freed at most once.
   */
  lemma {:induction false} ServerSafe(n: nat, events: seq<Event>, s: Server)
    requires Runs(Start(n), events, s)
    ensures !s.crashed && Counted(s)
    ensures s.taken <= s.pushed && s.queue == s.pushed[|s.taken|..] && Distinct(s.taken)
    ensures Distinct(s.sends) && Distinct(s.freed)
    ensures forall p :: p in s.freed ==> p in s.sends
  {
    InvNow(n, events, s);
    assert s.pushed == s.taken + s.queue;
    forall i, j | 0 <= i < j < |s.taken| ensures s.taken[i] != s.taken[j] {
      assert s.pushed[i] == s.taken[i] && s.pushed[j] == s.taken[j];
    }
  }

  lemma {:induction false} ServedOnce(s: Server, i: nat, j: nat)
    requires OwnersDiffer(s) && i < |s.workers| && j < |s.workers|
    requires Serving(s.workers[i]) && Serving(s.workers[j]) && s.workers[i].pkt == s.workers[j].pkt
    ensures i == j
  {
  }

  /** A taken request was sent or is in the hands of one worker, and not both. */
  lemma {:induction false} TakenOnce(n: nat, events: seq<Event>, s: Server, p: int)
    requires Runs(Start(n), events, s) && p in s.taken
    ensures p in s.sends <==> !ServedBy(s, p)
    ensures forall i, j ::
      (0 <= i < |s.workers| && 0 <= j < |s.workers| && Serving(s.workers[i]) && Serving(s.workers[j]) &&
       s.workers[i].pkt == p == s.workers[j].pkt) ==> i == j
  {
    InvNow(n, events, s);
    if ServedBy(s, p) {
      var k :| 0 <= k < |s.workers| && Serving(s.workers[k]) && s.workers[k].pkt == p;
      assert WorkerOk(s, s.workers[k]);
    }
    forall i, j | 0 <= i < |s.workers| && 0 <= j < |s.workers| && Serving(s.workers[i]) && Serving(s.workers[j])
      && s.workers[i].pkt == p == s.workers[j].pkt ensures i == j
    {
      ServedOnce(s, i, j);
    }
  }

  function NextStep(w: Worker, i: nat, ok: bool): Event
    requires Serving(w)
  {
    match w.pc
    case Leaving => Leave(i)
    case Extract => ExtractQueries(i, ok)
    case Resolve => ResolveQueries(i, ok, false)
    case Send => SendReply(i, ok)
  }

  function StepsToSend(w: Worker): nat {
    match w.pc
    case Leaving => 4
    case Extract => 3
    case Resolve => 2
    case _ => 1
  }

  /** One step of a worker that took a request: the send, or one step nearer to it, whether or not it fails. */
  lemma {:induction false} SendNearer(s: Server, i: nat, ok: bool)
    requires i < |s.workers| && Serving(s.workers[i])
    ensures Enabled(s, NextStep(s.workers[i], i, ok))
    ensures var s' := Apply(s, NextStep(s.workers[i], i, ok)); var w := s.workers[i];
      if StepsToSend(w) == 1 then s'.sends == s.sends + [w.pkt]
      else s'.sends == s.sends && i < |s'.workers| && Serving(s'.workers[i]) && s'.workers[i].pkt == w.pkt
           && StepsToSend(s'.workers[i]) == StepsToSend(w) - 1
  {
  }

  /** The steps of worker i up to its send, each with the outcome that `oks` says. */
  lemma {:induction false} RunToSend(s: Server, i: nat, oks: seq<bool>) returns (events: seq<Event>, s': Server)
    requires i < |s.workers| && Serving(s.workers[i]) && |oks| == StepsToSend(s.workers[i])
    ensures |events| == |oks| && Runs(s, events, s') && s'.sends == s.sends + [s.workers[i].pkt]
    ensures forall k :: 0 <= k < |events| ==> ActorIs(events[k], i)
    decreases |oks|
  {
    var e := NextStep(s.workers[i], i, oks[0]);
    SendNearer(s, i, oks[0]);
    var s1 := Apply(s, e);
    if |oks| == 1 {
      events, s' := [e], s1;
      assert Runs(s1, events[1..], s1);
    } else {
      var more;
      more, s' := RunToSend(s1, i, oks[1..]);
      events := [e] + more;
      assert events[1..] == more;
    }
  }

  predicate ActorIs(e: Event, i: nat) {
    match e
    case Leave(j) => j == i
    case ExtractQueries(j, _) => j == i
    case ResolveQueries(j, _, _) => j == i
    case SendReply(j, _) => j == i
    case _ => false
  }

  lemma {:induction false} RunsOn(s: Server, events: seq<Event>, s1: Server, more: seq<Event>, s2: Server)
    requires Runs(s, events, s1) && Runs(s1, more, s2)
    ensures Runs(s, events + more, s2)
    decreases |events|
  {
    if events == [] {
      assert events + more == more;
    } else {
      assert (events + more)[1..] == events[1..] + more;
      RunsOn(Apply(s, events[0]), events[1..], s1, more, s2);
    }
  }

  /**
    A worker that took a request is never held up. From every reachable state, at most four steps of its own,
    whether or not they fail, bring it to the one send of that request, and nothing undefined happens.
   */
  lemma {:induction false} SendComes(n: nat, before: seq<Event>, s: Server, i: nat, oks: seq<bool>)
    returns (events: seq<Event>, s': Server)
    requires Runs(Start(n), before, s) && i < |s.workers| && Serving(s.workers[i])
    requires |oks| == StepsToSend(s.workers[i])
    ensures |events| <= 4 && Runs(s, events, s') && s'.sends == s.sends + [s.workers[i].pkt]
    ensures forall k :: 0 <= k < |events| ==> ActorIs(events[k], i)
    ensures s.workers[i].pkt !in s.sends && !s'.crashed
  {
    events, s' := RunToSend(s, i, oks);
    RunsOn(Start(n), before, s, events, s');
    ServerSafe(n, before + events, s');
    InvNow(n, before, s);
    assert WorkerOk(s, s.workers[i]);
  }

  /**
    No wake-up is lost: while requests wait and the producer is not in between, the semaphore is up or a
    worker is on its way.
   */
  lemma {:induction false} NoLostWakeup(n: nat, events: seq<Event>, s: Server)
    requires Runs(Start(n), events, s) && s.queue != [] && !PushedNotReleased(s.producer)
    ensures s.sem > 0 || exists i :: 0 <= i < |s.workers| && BetweenWaitAndPop(s.workers[i])
  {
    InvNow(n, events, s);
    if forall i :: 0 <= i < |s.workers| ==> !BetweenWaitAndPop(s.workers[i]) {
      BetweenNone(s.workers);
    }
  }
}
