/** Which responses the workers of ODBCDNS/DNSServer.cpp cache. */
module RequestCaching {
  import opened RequestQueue

  /** The events of worker i. */
  function Own(events: seq<Event>, i: nat): seq<Event> {
    if events == [] then [] else (if Actor(events[0]) == i then [events[0]] else []) + Own(events[1..], i)
  }

  predicate EndsWith(own: seq<Event>, last: seq<Event>) {
    |last| <= |own| && own[|own| - |last|..] == last
  }

  /** The steps after which a response is cached. */
  function Extracted(i: nat): seq<Event> { [ExtractQueries(i, true)] }
  function Resolved(i: nat): seq<Event> { Extracted(i) + [ResolveQueries(i, true, true)] }
  function Answered(i: nat): seq<Event> { Resolved(i) + [SendReply(i, true)] }

  /** Whether a worker will cache the response can be told from its events. */
  predicate History(own: seq<Event>, w: Worker, i: nat) {
    match w.pc
    case Resolve => !w.error <==> EndsWith(own, Extracted(i))
    case Send => Caches(w) <==> EndsWith(own, Resolved(i))
    case Top => Caches(w) <==> EndsWith(own, Answered(i))
    case _ => true
  }

  lemma {:induction false} EndsNext(own: seq<Event>, last: seq<Event>, e: Event, x: Event)
    ensures EndsWith(own + [e], last + [x]) <==> e == x && EndsWith(own, last)
  {
    var more := own + [e];
    if EndsWith(more, last + [x]) {
      assert more[|more| - |last + [x]|..][..|last|] == last;
      assert more[|more| - 1] == (last + [x])[|last|];
    }
  }

  /** How an event of its own changes what a worker may cache. */
  predicate Moves(w: Worker, e: Event, w': Worker) {
    match e
    case ExtractQueries(_, ok) => w'.pc == Resolve && w'.error == !ok
    case ResolveQueries(_, ok, recursion) =>
      w.pc == Resolve && w'.pc == Send && (Caches(w') <==> !w.error && ok && recursion)
    case SendReply(_, ok) => w.pc == Send && w'.pc == Top && (Caches(w') <==> Caches(w) && ok)
    case _ => w'.pc != Resolve && w'.pc != Send && (w'.pc == Top ==> !Caches(w'))
  }

  lemma {:induction false} WorkerMoves(s: Server, e: Event)
    requires Counted(s) && Enabled(s, e) && Actor(e) >= 0
    ensures var i := Actor(e); i < |Apply(s, e).workers| && Moves(s.workers[i], e, Apply(s, e).workers[i])
  {
    if BetweenWaitAndPop(s.workers[Actor(e)]) {
      QueueNotEmpty(s, Actor(e));
    }
  }

  lemma {:induction false} HistoryStep(own: seq<Event>, w: Worker, e: Event, w': Worker, i: nat)
    requires Moves(w, e, w') && Actor(e) == i && History(own, w, i)
    ensures History(own + [e], w', i)
  {
    match e
    case ExtractQueries(_, _) =>
      EndsNext(own, [], e, ExtractQueries(i, true));
      assert [] + Extracted(i) == Extracted(i);
    case ResolveQueries(_, _, _) =>
      EndsNext(own, Extracted(i), e, ResolveQueries(i, true, true));
    case _ =>
      EndsNext(own, Resolved(i), e, SendReply(i, true));
  }

  lemma {:induction false} HistoryOther(s: Server, e: Event, i: nat)
    requires Enabled(s, e) && i < |s.workers| && Actor(e) != i
    ensures i < |Apply(s, e).workers| && Apply(s, e).workers[i] == s.workers[i]
  {
  }

  lemma {:induction false} HistoryKept(s: Server, events: seq<Event>, s': Server, own: seq<Event>, i: nat)
    requires Inv(s) && Runs(s, events, s') && i < |s.workers| && History(own, s.workers[i], i)
    ensures i < |s'.workers| && History(own + Own(events, i), s'.workers[i], i)
    decreases |events|
  {
    if events == [] {
      assert own + [] == own;
    } else {
      var e := events[0];
      StepKeepsInv(s, e);
      if Actor(e) == i {
        WorkerMoves(s, e);
        HistoryStep(own, s.workers[i], e, Apply(s, e).workers[i], i);
        HistoryKept(Apply(s, e), events[1..], s', own + [e], i);
        assert own + [e] + Own(events[1..], i) == own + Own(events, i);
      } else {
        HistoryOther(s, e, i);
        HistoryKept(Apply(s, e), events[1..], s', own, i);
        assert [] + Own(events[1..], i) == Own(events[1..], i);
      }
    }
  }

  /**
    In every run: a worker at the head of its loop caches exactly when it has just extracted the queries,
    resolved them by recursion and sent the response, and none of the three has failed.
   */
  lemma {:induction false} CachesWhatWasSent(n: nat, events: seq<Event>, s: Server, i: nat)
    requires Runs(Start(n), events, s) && At(s, i, Top)
    ensures Caches(s.workers[i]) <==> EndsWith(Own(events, i), Answered(i))
  {
    SameWorkers(Start(n), events, s);
    StartInv(n);
    HistoryKept(Start(n), events, s, [], i);
    assert [] + Own(events, i) == Own(events, i);
  }
}
