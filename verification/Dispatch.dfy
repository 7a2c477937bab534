/** `Dispatcher::emit` and `in_handler_frame`, run over arbitrary handler behaviours. */
module Dispatch {
  import opened Wrappers
  import opened Seqs
  import opened ThreadGuards
  import opened Causation

  datatype Mark<E> = Entered(ev: E) | Exited(ev: E)

  // The trace in which each delivery exits before the next one enters.
  function Flat<E>(evs: seq<E>): seq<Mark<E>> {
    if evs == [] then [] else [Entered(evs[0]), Exited(evs[0])] + Flat(evs[1..])
  }

  lemma {:induction false} FlatConcat<E>(a: seq<E>, b: seq<E>)
    ensures Flat(a + b) == Flat(a) + Flat(b)
  {
    if a == [] {
      assert a + b == b;
    } else {
      assert (a + b)[1..] == a[1..] + b;
      FlatConcat(a[1..], b);
    }
  }

  // How many deliveries are running after a trace.
  function Depth<E>(trace: seq<Mark<E>>): int {
    if trace == [] then 0 else Depth(trace[..|trace| - 1]) + if trace[|trace| - 1].Entered? then 1 else -1
  }

  lemma {:induction false} FlatAlternates<E>(evs: seq<E>, k: nat)
    requires k < 2 * |evs|
    ensures |Flat(evs)| == 2 * |evs| && (Flat(evs)[k].Entered? <==> k % 2 == 0)
  {
    if |evs| > 1 {
      FlatAlternates(evs[1..], if k < 2 then 0 else k - 2);
    }
  }

  /** A flat trace never has two deliveries running, at any point of it. */
  lemma {:induction false} FlatNeverNests<E>(evs: seq<E>, n: nat)
    requires n <= |Flat(evs)|
    ensures |Flat(evs)| == 2 * |evs| && Depth(Flat(evs)[..n]) == n % 2
  {
    var t := Flat(evs);
    if evs != [] {
      FlatAlternates(evs, 0);
    }
    if n > 0 {
      FlatAlternates(evs, n - 1);
      FlatNeverNests(evs, n - 1);
      assert t[..n][..n - 1] == t[..n - 1];
    }
  }

  // One round of the drain loop.
  lemma DrainStep<E>(q: seq<Job<E>>, trace: seq<Mark<E>>)
    requires q != []
    ensures var e, rest := q[0].ev, Drained(q[1..] + Children(q[0].script));
            trace + Flat(Drained(q)) == (trace + [Entered(e), Exited(e)]) + Flat(rest)
  {
    var e, rest := q[0].ev, Drained(q[1..] + Children(q[0].script));
    assert Drained(q)[1..] == rest;
    Assoc(trace, [Entered(e), Exited(e)], Flat(rest));
  }

  // The flags, RUNNING, and how many loop turns and client flushes reached libwayland.
  type Reading = (Flags, bool, nat, nat)

  class ThreadLocals {
    var flags: Flags
    // RUNNING, the flag of `Backend`'s reentry guard.
    var running: bool
    // What reached libwayland on this thread.
    var loopTurns: nat
    var clientFlushes: nat

    constructor ()
      ensures flags == CLEAR && !running && loopTurns == 0 && clientFlushes == 0
    {
      flags, running, loopTurns, clientFlushes := CLEAR, false, 0, 0;
    }

    // Everything but the dispatchers, as one value.
    function Now(): Reading
      reads this
    {
      (flags, running, loopTurns, clientFlushes)
    }

    // `Display::flush_clients`.
    method Flush() returns (r: Option<()>)
      modifies this`clientFlushes
      ensures r == None <==> flags.inHandler
      ensures clientFlushes == old(clientFlushes) + if flags.inHandler then 0 else 1
    {
      r := FlushClients(flags);
      if r == Some(()) {
        clientFlushes := clientFlushes + 1;
      }
    }
  }

  // The events whose delivery has begun, in order.
  function Begun<E>(trace: seq<Mark<E>>): seq<E> {
    if trace == [] then []
    else
      var last := trace[|trace| - 1];
      Begun(trace[..|trace| - 1]) + if last.Entered? then [last.ev] else []
  }

  lemma BegunSnoc<E>(trace: seq<Mark<E>>, mark: Mark<E>)
    ensures Begun(trace + [mark]) == Begun(trace) + if mark.Entered? then [mark.ev] else []
  {
    assert (trace + [mark])[..|trace|] == trace;
  }

  // What is delivered, being delivered and queued, in that order.
  function Account<E>(trace: seq<Mark<E>>, between: seq<E>, queue: seq<Job<E>>): seq<E> {
    Begun(trace) + (between + Events(queue))
  }

  lemma AccountQueues<E>(trace: seq<Mark<E>>, queue: seq<Job<E>>, more: seq<Job<E>>)
    ensures Account(trace, [], queue + more) == Account(trace, [], queue) + Events(more)
  {
    EventsConcat(queue, more);
    assert [] + (Events(queue) + Events(more)) == ([] + Events(queue)) + Events(more);
    Assoc(Begun(trace), [] + Events(queue), Events(more));
  }

  // An event emitted at top level is next.
  lemma AccountInserts<E>(trace: seq<Mark<E>>, ev: E, queue: seq<Job<E>>)
    ensures var due, k := Account(trace, [], queue), |Begun(trace)|;
            k <= |due| && due[..k] + [ev] + due[k..] == Account(trace, [ev], queue)
  {
    var due, k := Account(trace, [], queue), |Begun(trace)|;
    assert due[..k] == Begun(trace) && due[k..] == [] + Events(queue);
  }

  lemma AccountPops<E>(trace: seq<Mark<E>>, queue: seq<Job<E>>)
    requires queue != []
    ensures Account(trace, [], queue) == Account(trace, [queue[0].ev], queue[1..])
  {
    assert [] + Events(queue) == [queue[0].ev] + Events(queue[1..]);
  }

  lemma AccountEnters<E>(trace: seq<Mark<E>>, ev: E, queue: seq<Job<E>>)
    ensures Account(trace + [Entered(ev)], [], queue) == Account(trace, [ev], queue)
  {
    BegunSnoc(trace, Entered(ev));
    assert [] + Events(queue) == Events(queue);
    Assoc(Begun(trace), [ev], Events(queue));
  }

  lemma AccountExits<E>(trace: seq<Mark<E>>, ev: E, queue: seq<Job<E>>)
    ensures Account(trace + [Exited(ev)], [], queue) == Account(trace, [], queue)
  {
    BegunSnoc(trace, Exited(ev));
    assert Begun(trace) + [] == Begun(trace);
  }

  lemma {:induction false} EventsConcat<E>(a: seq<Job<E>>, b: seq<Job<E>>)
    ensures Events(a + b) == Events(a) + Events(b)
  {
    if a == [] {
      assert a + b == b;
    } else {
      assert (a + b)[1..] == a[1..] + b;
      EventsConcat(a[1..], b);
    }
  }

  class Dispatcher<E> {
    const tls: ThreadLocals
    var inDispatch: bool
    var deferred: seq<Job<E>>
    var trace: seq<Mark<E>>
    // Every event `emit` was ever called with, in the order in which they are due: an event emitted at top level comes
    // before the leftovers, any other comes last.
    ghost var due: seq<E>

    constructor (tls: ThreadLocals)
      ensures this.tls == tls && !inDispatch && deferred == [] && trace == [] && Balanced([])
    {
      this.tls := tls;
      inDispatch, deferred, trace, due := false, [], [], [];
    }

    // What was emitted is what was delivered, what is about to be, and what is queued, in that order.
    ghost predicate Balanced(between: seq<E>)
      reads this
    {
      due == Account(trace, between, deferred)
    }

    /** `emit`.  Under a handler of this dispatcher the event is queued and nothing else happens.  Otherwise it is
        delivered, then everything queued, level by level behind the leftovers, with no two deliveries nested; the
        queue ends empty and the thread's flags are as they were. */
    method Emit(job: Job<E>)
      requires Balanced([])
      modifies this, tls
      ensures Balanced([])
      ensures inDispatch == old(inDispatch)
      ensures tls.Now() == old(tls.Now())
      ensures old(inDispatch) ==>
                && deferred == old(deferred) + [job] && due == old(due) + [job.ev]
                && trace == old(trace)
      ensures !old(inDispatch) ==>
                var evs := [job.ev] + LevelOrder(old(deferred) + Children(job.script));
                && deferred == []
                && trace == old(trace) + Flat(evs)
      decreases if inDispatch then 0 else 2, job.script, 0
    {
      if inDispatch {
        AccountQueues(trace, deferred, [job]);
        assert Events([job]) == [job.ev];
        due := due + [job.ev];
        deferred := deferred + [job];
        return;
      }
      due := due[..|Begun(trace)|] + [job.ev] + due[|Begun(trace)|..];
      AccountInserts(trace, job.ev, deferred);
      inDispatch := true;
      var previous, previousDelivery := tls.flags.inHandler, tls.flags.inDelivery;
      tls.flags := tls.flags.(inHandler := true, inDelivery := true);

      ghost var later := LevelOrder(deferred + Children(job.script));
      DrainedIsLevelOrder(deferred + Children(job.script));
      assert ([job.ev] + later)[1..] == later;
      Assoc(trace, [Entered(job.ev), Exited(job.ev)], Flat(later));
      Deliver(job);
      Drain();

      tls.flags := tls.flags.(inHandler := previous, inDelivery := previousDelivery);
      inDispatch := false;
    }

    // The drain loop of `emit`.
    method Drain()
      requires inDispatch && tls.flags.inHandler && tls.flags.inDelivery
      requires Balanced([])
      modifies this, tls
      ensures Balanced([])
      ensures inDispatch && tls.Now() == old(tls.Now())
      ensures deferred == []
      ensures trace == old(trace) + Flat(Drained(old(deferred)))
      decreases 1
    {
      ghost var T := trace + Flat(Drained(deferred));
      while deferred != []
        invariant inDispatch && tls.Now() == old(tls.Now())
        invariant Balanced([])
        invariant trace + Flat(Drained(deferred)) == T
        decreases Nodes(deferred)
      {
        var next := deferred[0];
        PopShrinks(deferred);
        DrainStep(deferred, trace);
        AccountPops(trace, deferred);
        deferred := deferred[1..];
        Deliver(next);
      }
    }

    // One call of the handler, under both flags.
    method Deliver(job: Job<E>)
      requires inDispatch && tls.flags.inHandler && tls.flags.inDelivery
      requires Balanced([job.ev])
      modifies this, tls
      ensures Balanced([])
      ensures inDispatch
      ensures tls.Now() == old(tls.Now())
      ensures deferred == old(deferred) + Children(job.script)
      ensures due == old(due) + Events(Children(job.script))
      ensures trace == old(trace) + [Entered(job.ev), Exited(job.ev)]
      decreases 0, job.script, 1
    {
      AccountEnters(trace, job.ev, deferred);
      trace := trace + [Entered(job.ev)];
      RunScript(job.script);
      AccountExits(trace, job.ev, deferred);
      trace := trace + [Exited(job.ev)];
    }

    /** Consumer code under a handler: nothing it does delivers an event, drives the loop or flushes a client; the
        events it causes join the queue in order. */
    method RunScript(acts: seq<Act<E>>)
      requires inDispatch && tls.flags.inHandler && tls.flags.inDelivery
      requires Balanced([])
      modifies this, tls
      ensures Balanced([])
      ensures inDispatch
      ensures tls.Now() == old(tls.Now())
      ensures deferred == old(deferred) + Children(acts)
      ensures due == old(due) + Events(Children(acts))
      ensures trace == old(trace)
      decreases 0, acts, 0
    {
      if acts == [] {
        return;
      }
      RunAct(acts[0]);
      EventsConcat(ChildrenOf(acts[0]), Children(acts[1..]));
      Assoc(old(due), Events(ChildrenOf(acts[0])), Events(Children(acts[1..])));
      Assoc(old(deferred), ChildrenOf(acts[0]), Children(acts[1..]));
      RunScript(acts[1..]);
    }

    method RunAct(act: Act<E>)
      requires inDispatch && tls.flags.inHandler && tls.flags.inDelivery
      requires Balanced([])
      modifies this, tls
      ensures Balanced([])
      ensures inDispatch && tls.Now() == old(tls.Now())
      ensures deferred == old(deferred) + ChildrenOf(act)
      ensures due == old(due) + Events(ChildrenOf(act))
      ensures trace == old(trace)
      decreases 0, act, 0
    {
      match act {
        case Cause(ev, script) =>
          Emit(Job(ev, script));
        case InForeignFrame(body) =>
          var previous := tls.flags.inHandler;
          tls.flags := tls.flags.(inHandler := true, foreignFrames := tls.flags.foreignFrames + 1);
          RunScript(body);
          tls.flags := tls.flags.(inHandler := previous, foreignFrames := tls.flags.foreignFrames - 1);
        case DriveLoop(incoming) =>
          var refused := DispatchLoop(incoming, 0);
        case Flush =>
          var refused := tls.Flush();
      }
    }

    /** `EventLoop::dispatch`: refused under a handler, otherwise one loop turn, in which wlroots emits `incoming`
        one after the other; `rc` is libwayland's answer. */
    method DispatchLoop(incoming: seq<Job<E>>, rc: int) returns (r: Result<(), LoopError>)
      requires !tls.flags.inHandler ==> !inDispatch
      requires Balanced([])
      modifies this, tls
      ensures Balanced([])
      ensures inDispatch == old(inDispatch)
      ensures r == EventLoopDispatch(old(tls.flags), rc)
      ensures r == if old(tls.flags.inHandler) then Err(Reentrant) else if rc < 0 then Err(Operation) else Ok(())
      ensures old(tls.flags.inHandler) ==>
                tls.Now() == old(tls.Now()) && deferred == old(deferred) && trace == old(trace) && due == old(due)
      ensures !old(tls.flags.inHandler) ==>
                && tls.Now() == old(tls.Now()).(2 := old(tls.loopTurns) + 1)
                && deferred == QueueAfter(old(deferred), incoming)
                && trace == old(trace) + Flat(TurnOrder(old(deferred), incoming))
      decreases if tls.flags.inHandler then 0 else 4, incoming, 0
    {
      if tls.flags.inHandler {
        return Err(Reentrant);
      }
      tls.loopTurns := tls.loopTurns + 1;
      EmitAll(incoming);
      r := if rc >= 0 then Ok(()) else Err(Operation);
    }

    // What wlroots does inside one loop turn.
    method EmitAll(incoming: seq<Job<E>>)
      requires !inDispatch
      requires Balanced([])
      modifies this, tls
      ensures Balanced([])
      ensures !inDispatch && tls.Now() == old(tls.Now())
      ensures deferred == QueueAfter(old(deferred), incoming)
      ensures trace == old(trace) + Flat(TurnOrder(old(deferred), incoming))
      decreases 3, incoming, 1
    {
      if incoming == [] {
        return;
      }
      ghost var first := [incoming[0].ev] + LevelOrder(deferred + Children(incoming[0].script));
      ghost var rest := TurnOrder([], incoming[1..]);
      FlatConcat(first, rest);
      Assoc(trace, Flat(first), Flat(rest));
      assert TurnOrder(deferred, incoming) == first + rest;
      Emit(incoming[0]);
      EmitAll(incoming[1..]);
    }

    /** `in_handler_frame`, as `run_inner` uses it for `should_stop`: events are queued and stay queued.  Whatever
        `in_dispatch` was before, it is clear afterwards. */
    method InHandlerFrame(acts: seq<Act<E>>)
      requires Balanced([])
      modifies this, tls
      ensures Balanced([])
      ensures !inDispatch
      ensures tls.Now() == old(tls.Now())
      ensures deferred == old(deferred) + Children(acts)
      ensures due == old(due) + Events(Children(acts))
      ensures trace == old(trace)
    {
      inDispatch := true;
      var previous, previousDelivery := tls.flags.inHandler, tls.flags.inDelivery;
      tls.flags := tls.flags.(inHandler := true, inDelivery := true);
      RunScript(acts);
      tls.flags := tls.flags.(inHandler := previous, inDelivery := previousDelivery);
      inDispatch := false;
    }

    // The polls of one turn; an interrupted one is retried.
    method PollAll(polls: seq<seq<Job<E>>>)
      requires !inDispatch && !tls.flags.inHandler
      requires Balanced([])
      modifies this, tls
      ensures Balanced([])
      ensures !inDispatch
      ensures tls.Now() == old(tls.Now()).(2 := old(tls.loopTurns) + |polls|)
      ensures deferred == QueueAfter(old(deferred), Emitted(polls))
      ensures trace == old(trace) + Flat(TurnOrder(old(deferred), Emitted(polls)))
    {
      ghost var T := trace + Flat(TurnOrder(deferred, Emitted(polls)));
      ghost var last := QueueAfter(deferred, Emitted(polls));
      var rest := polls;
      while rest != []
        invariant !inDispatch && |rest| <= |polls|
        invariant tls.Now() == old(tls.Now()).(2 := old(tls.loopTurns) + |polls| - |rest|) && Balanced([])
        invariant trace + Flat(TurnOrder(deferred, Emitted(rest))) == T
        invariant QueueAfter(deferred, Emitted(rest)) == last
        decreases |rest|
      {
        PollStep(trace, deferred, rest);
        tls.loopTurns := tls.loopTurns + 1;
        EmitAll(rest[0]);
        rest := rest[1..];
      }
    }

    // One turn of a run: poll, flush, check the backend, then ask `should_stop` inside a handler frame.
    method RunTurn(round: Round<E>, display: Option<DisplayPtr>) returns (r: Result<bool, LoopError>)
      requires !inDispatch && !tls.flags.inHandler
      requires Balanced([])
      modifies this, tls
      ensures Balanced([])
      ensures !inDispatch && r == AnswerOf(round)
      ensures tls.Now() == AfterOne(old(tls.Now()), round, display)
      ensures trace == old(trace) + Flat(TurnOrder(old(deferred), Emitted(round.polls)))
      ensures deferred == AfterTurn(old(deferred), TurnOf(round))
    {
      PollAll(round.polls);
      if round.outcome.Failed? {
        return Err(Operation);
      }
      if display.Some? {
        var flushed := tls.Flush();
      }
      if round.outcome.Died? {
        return Err(Destroyed);
      }
      InHandlerFrame(round.query);
      r := Ok(round.outcome.stop);
    }

    /** The loop of `run_inner`, which takes the turns `ran`. */
    method RunTurns(rounds: seq<Round<E>>, limit: Option<nat>, display: Option<DisplayPtr>, ghost ran: seq<Round<E>>)
      returns (r: Result<(), LoopError>)
      requires !inDispatch && !tls.flags.inHandler && Takes(rounds, limit, ran)
      requires Balanced([])
      modifies this, tls
      ensures Balanced([])
      ensures !inDispatch
      ensures (trace, deferred, tls.Now(), r) == Goal(old(trace), old(deferred), old(tls.Now()), ran, display)
    {
      ghost var goal := Goal(trace, deferred, tls.Now(), ran, display);
      var rest, remaining := rounds, limit;
      ghost var left := ran;
      while remaining != Some(0)
        invariant !inDispatch && !tls.flags.inHandler && Takes(rest, remaining, left) && Balanced([])
        invariant Goal(trace, deferred, tls.Now(), left, display) == goal
        decreases |rest|
      {
        GoalStep(trace, deferred, tls.Now(), left, display);
        var answer := RunTurn(rest[0], display);
        if answer.Err? {
          return Err(answer.error);
        }
        if answer.value {
          return Ok(());
        }
        rest, remaining, left := rest[1..], Less(remaining), left[1..];
      }
      GoalReached(trace, deferred, tls.Now(), display);
      r := Ok(());
    }
  }

  /** `run_all` and `run`.  Refused, with nothing changed, when the backend is gone, under a handler or inside another
      run.  Otherwise it runs a dispatcher of its own for the turns `ran`, until the limit, `should_stop` or an error:
      what that dispatcher still holds at the end is lost with it. */
  method RunAll<E>(tls: ThreadLocals, alive: bool, display: Option<DisplayPtr>, rounds: seq<Round<E>>,
                   limit: Option<nat>)
    returns (r: Result<(), LoopError>, trace: seq<Mark<E>>, ghost lost: seq<Job<E>>, ghost ran: seq<Round<E>>)
    requires exists all :: Runs(rounds, limit, all)
    modifies tls
    ensures var refused := !alive || old(tls.flags.inHandler) || old(tls.running);
            if refused then
              && r == Err(if alive then Reentrant else Destroyed)
              && tls.Now() == old(tls.Now()) && trace == [] && lost == [] && ran == []
            else
              && Runs(rounds, limit, ran) && r == Ending(ran)
              && tls.flags == old(tls.flags) && tls.running == old(tls.running)
              && tls.loopTurns == old(tls.loopTurns) + Polls(ran)
              && tls.clientFlushes == old(tls.clientFlushes) + (if display.None? then 0 else Polled(ran))
              && trace == Flat(RunOrder([], TurnsOf(ran)))
              && lost == Leftover([], TurnsOf(ran))
  {
    trace, lost, ran := [], [], [];
    if !alive {
      return Err(Destroyed), [], [], [];
    }
    if tls.flags.inHandler {
      return Err(Reentrant), [], [], [];
    }
    if tls.running {
      return Err(Reentrant), [], [], [];
    }
    ran :| Runs(rounds, limit, ran);
    TakesIffRuns(rounds, limit, ran);
    ghost var order := Flat(RunOrder([], TurnsOf(ran)));
    assert [] + order == order;
    tls.running := true;
    r, trace, lost := RunPinned(tls, display, rounds, limit, ran);
    tls.running := false;
  }

  // A run behind its guards: the display is pinned.
  method RunPinned<E>(tls: ThreadLocals, display: Option<DisplayPtr>, rounds: seq<Round<E>>, limit: Option<nat>,
                      ghost ran: seq<Round<E>>)
    returns (r: Result<(), LoopError>, trace: seq<Mark<E>>, ghost lost: seq<Job<E>>)
    requires Takes(rounds, limit, ran) && !tls.flags.inHandler
    modifies tls
    ensures (trace, lost, tls.Now(), r) == Goal([], [], old(tls.Now()), ran, display)
  {
    var previous := tls.flags.display;
    if display.Some? {
      tls.flags := tls.flags.(display := display.value);
    }
    PinsDoNotCount(old(tls.Now()), tls.flags, ran, display);
    r, trace, lost := RunOwned(tls, display, rounds, limit, ran);
    tls.flags := tls.flags.(display := previous);
  }

  // What a run counts does not depend on the flags, and it leaves them alone.
  lemma PinsDoNotCount<E>(now: Reading, flags: Flags, ran: seq<Round<E>>, display: Option<DisplayPtr>)
    ensures Goal([], [], now.(0 := flags), ran, display) ==
            var goal := Goal([], [], now, ran, display);
            goal.(2 := goal.2.(0 := flags))
  {
  }

  // The dispatcher of a run is made and dropped here.
  method RunOwned<E>(tls: ThreadLocals, display: Option<DisplayPtr>, rounds: seq<Round<E>>, limit: Option<nat>,
                     ghost ran: seq<Round<E>>)
    returns (r: Result<(), LoopError>, trace: seq<Mark<E>>, ghost lost: seq<Job<E>>)
    requires Takes(rounds, limit, ran) && !tls.flags.inHandler
    modifies tls
    ensures (trace, lost, tls.Now(), r) == Goal([], [], old(tls.Now()), ran, display)
  {
    var dispatcher := new Dispatcher<E>(tls);
    r := dispatcher.RunTurns(rounds, limit, display, ran);
    trace, lost := dispatcher.trace, dispatcher.deferred;
  }

  // How a turn ends: the poll fails, the backend is found dead, or `should_stop` answers.
  datatype Outcome = Failed | Died | Asked(stop: bool)

  // What the environment does in one turn: what each poll emits, how the turn ends, and what `should_stop` does.
  datatype Round<E> = Round(polls: seq<seq<Job<E>>>, outcome: Outcome, query: seq<Act<E>>)

  function AnswerOf<E>(round: Round<E>): Result<bool, LoopError> {
    match round.outcome
    case Failed => Err(Operation)
    case Died => Err(Destroyed)
    case Asked(stop) => Ok(stop)
  }

  function Emitted<E>(polls: seq<seq<Job<E>>>): seq<Job<E>> {
    if polls == [] then [] else polls[0] + Emitted(polls[1..])
  }

  function TurnOf<E>(round: Round<E>): Turn<E> {
    Turn(Emitted(round.polls), if round.outcome.Asked? then round.query else [])
  }

  function TurnsOf<E>(rounds: seq<Round<E>>): (turns: seq<Turn<E>>)
    ensures |turns| == |rounds|
  {
    if rounds == [] then [] else [TurnOf(rounds[0])] + TurnsOf(rounds[1..])
  }

  /** What is delivered in a turn is what its polls emit; what its `should_stop` does counts if it is asked at all. */
  lemma {:induction false} TurnsAre<E>(rounds: seq<Round<E>>, j: nat)
    requires j < |rounds|
    ensures TurnsOf(rounds)[j].incoming == Emitted(rounds[j].polls)
    ensures TurnsOf(rounds)[j].query == if rounds[j].outcome.Asked? then rounds[j].query else []
  {
    if j > 0 {
      TurnsAre(rounds[1..], j - 1);
    }
  }

  // What the polls of a turn emit, one after the other.
  lemma {:induction false} EmittedInOrder<E>(a: seq<seq<Job<E>>>, poll: seq<Job<E>>, b: seq<seq<Job<E>>>)
    ensures Emitted(a + [poll] + b) == Emitted(a) + poll + Emitted(b)
    decreases |a|
  {
    if a == [] {
      assert (a + [poll] + b)[1..] == b;
    } else {
      assert (a + [poll] + b)[1..] == a[1..] + [poll] + b;
      EmittedInOrder(a[1..], poll, b);
      assert Emitted(a) + poll + Emitted(b) == a[0] + (Emitted(a[1..]) + poll + Emitted(b));
    }
  }

  /** A run of at most `limit` turns takes the turns `ran`: they come first, no turn but the last ends the run, and the
      last one fails, finds the backend dead or is told to stop, unless the limit is reached. */
  ghost predicate Runs<E>(rounds: seq<Round<E>>, limit: Option<nat>, ran: seq<Round<E>>) {
    && ran <= rounds && (limit.Some? ==> |ran| <= limit.value)
    && (forall j :: 0 <= j < |ran| - 1 ==> ran[j].outcome == Asked(false))
    && (limit == Some(|ran|) || (ran != [] && ran[|ran| - 1].outcome != Asked(false)))
  }

  // What a run that took these turns returns.
  function Ending<E>(ran: seq<Round<E>>): Result<(), LoopError> {
    if ran != [] && ran[|ran| - 1].outcome.Failed? then Err(Operation)
    else if ran != [] && ran[|ran| - 1].outcome.Died? then Err(Destroyed)
    else Ok(())
  }

  // How many of them had no failed poll; only the last one can.
  function Polled<E>(ran: seq<Round<E>>): nat {
    if ran != [] && ran[|ran| - 1].outcome.Failed? then |ran| - 1 else |ran|
  }

  /** The limit and the outcomes of the turns leave no freedom. */
  lemma RunsAreUnique<E>(rounds: seq<Round<E>>, limit: Option<nat>, a: seq<Round<E>>, b: seq<Round<E>>)
    requires Runs(rounds, limit, a) && Runs(rounds, limit, b)
    ensures a == b
  {
    assert |a| == |b|;
    assert a == rounds[..|a|] && b == rounds[..|b|];
  }

  // The same turn by turn, as the loop goes through them.
  ghost predicate Takes<E>(rounds: seq<Round<E>>, limit: Option<nat>, ran: seq<Round<E>>)
    decreases |rounds|
  {
    if limit == Some(0) then ran == []
    else
      && rounds != [] && ran != [] && ran[0] == rounds[0]
      && if rounds[0].outcome != Asked(false) then |ran| == 1 else Takes(rounds[1..], Less(limit), ran[1..])
  }

  function Less(limit: Option<nat>): Option<nat> {
    if limit.Some? && limit.value > 0 then Some(limit.value - 1) else limit
  }

  /** The loop takes exactly those turns. */
  lemma {:induction false} TakesIffRuns<E>(rounds: seq<Round<E>>, limit: Option<nat>, ran: seq<Round<E>>)
    ensures Takes(rounds, limit, ran) <==> Runs(rounds, limit, ran)
    decreases |rounds|
  {
    if limit != Some(0) && rounds != [] && ran != [] && ran[0] == rounds[0] {
      if rounds[0].outcome == Asked(false) {
        TakesIffRuns(rounds[1..], Less(limit), ran[1..]);
        RunsLater(rounds, limit, ran);
      } else if |ran| > 1 {
        assert ran[0].outcome != Asked(false);
      }
    }
  }

  lemma RunsLater<E>(rounds: seq<Round<E>>, limit: Option<nat>, ran: seq<Round<E>>)
    requires limit != Some(0) && rounds != [] && ran != [] && ran[0] == rounds[0] && rounds[0].outcome == Asked(false)
    ensures Runs(rounds, limit, ran) <==> Runs(rounds[1..], Less(limit), ran[1..])
  {
    var rest, left := rounds[1..], ran[1..];
    assert ran <= rounds <==> left <= rest;
    assert forall j :: 0 < j < |ran| ==> ran[j] == left[j - 1];
    assert forall j :: 0 <= j < |left| ==> left[j] == ran[j + 1];
  }

  function Polls<E>(rounds: seq<Round<E>>): nat {
    if rounds == [] then 0 else |rounds[0].polls| + Polls(rounds[1..])
  }

  // An event delivered at top level takes the leftovers with it.
  function QueueAfter<E>(queue: seq<Job<E>>, incoming: seq<Job<E>>): seq<Job<E>> {
    if incoming == [] then queue else []
  }

  // What one turn of the loop delivers when `queue` is left over and wlroots emits `incoming`.
  function TurnOrder<E>(queue: seq<Job<E>>, incoming: seq<Job<E>>): seq<E>
    decreases |incoming|
  {
    if incoming == [] then []
    else [incoming[0].ev] + LevelOrder(queue + Children(incoming[0].script)) + TurnOrder([], incoming[1..])
  }

  lemma {:induction false} TurnOrderConcat<E>(queue: seq<Job<E>>, a: seq<Job<E>>, b: seq<Job<E>>)
    ensures TurnOrder(queue, a + b) == TurnOrder(queue, a) + TurnOrder(QueueAfter(queue, a), b)
    decreases |a|
  {
    if a == [] {
      assert a + b == b;
    } else {
      var first := [a[0].ev] + LevelOrder(queue + Children(a[0].script));
      assert (a + b)[1..] == a[1..] + b;
      TurnOrderConcat([], a[1..], b);
      Assoc(first, TurnOrder([], a[1..]), TurnOrder([], b));
    }
  }

  lemma PollStep<E>(t: seq<Mark<E>>, queue: seq<Job<E>>, polls: seq<seq<Job<E>>>)
    requires polls != []
    ensures var next := QueueAfter(queue, polls[0]);
            && t + Flat(TurnOrder(queue, Emitted(polls))) ==
               (t + Flat(TurnOrder(queue, polls[0]))) + Flat(TurnOrder(next, Emitted(polls[1..])))
            && QueueAfter(queue, Emitted(polls)) == QueueAfter(next, Emitted(polls[1..]))
  {
    var next := QueueAfter(queue, polls[0]);
    TurnOrderConcat(queue, polls[0], Emitted(polls[1..]));
    FlatConcat(TurnOrder(queue, polls[0]), TurnOrder(next, Emitted(polls[1..])));
    Assoc(t, Flat(TurnOrder(queue, polls[0])), Flat(TurnOrder(next, Emitted(polls[1..]))));
  }

  // The thread after some turns: what reached libwayland is counted, and the rest is as before.
  function After<E>(now: Reading, ran: seq<Round<E>>, display: Option<DisplayPtr>): Reading {
    (now.0, now.1, now.2 + Polls(ran), now.3 + if display.Some? then Polled(ran) else 0)
  }

  function AfterOne<E>(now: Reading, round: Round<E>, display: Option<DisplayPtr>): Reading {
    (now.0, now.1, now.2 + |round.polls|, now.3 + if display.Some? && !round.outcome.Failed? then 1 else 0)
  }

  // How a run of these turns ends: trace, queue, thread and result.
  function Goal<E>(t: seq<Mark<E>>, queue: seq<Job<E>>, now: Reading, ran: seq<Round<E>>, display: Option<DisplayPtr>)
    : (seq<Mark<E>>, seq<Job<E>>, Reading, Result<(), LoopError>)
  {
    (t + Flat(RunOrder(queue, TurnsOf(ran))), Leftover(queue, TurnsOf(ran)), After(now, ran, display), Ending(ran))
  }

  lemma GoalReached<E>(t: seq<Mark<E>>, queue: seq<Job<E>>, now: Reading, display: Option<DisplayPtr>)
    ensures Goal(t, queue, now, [], display) == (t, queue, now, Ok(()))
  {
    NoTurns(t, queue);
  }

  lemma NoTurns<E>(t: seq<Mark<E>>, queue: seq<Job<E>>)
    ensures t + Flat(RunOrder(queue, TurnsOf<E>([]))) == t && Leftover(queue, TurnsOf<E>([])) == queue
  {
    assert RunOrder(queue, TurnsOf<E>([])) == [];
  }

  // The first of some turns, and the others.
  lemma FirstTurn<E>(t: seq<Mark<E>>, queue: seq<Job<E>>, round: Round<E>, rest: seq<Round<E>>)
    ensures var ran, q := [round] + rest, AfterTurn(queue, TurnOf(round));
            && t + Flat(RunOrder(queue, TurnsOf(ran))) ==
               (t + Flat(TurnOrder(queue, Emitted(round.polls)))) + Flat(RunOrder(q, TurnsOf(rest)))
            && Leftover(queue, TurnsOf(ran)) == Leftover(q, TurnsOf(rest))
  {
    var ran := [round] + rest;
    assert ran[0] == round && ran[1..] == rest;
    assert TurnsOf(ran)[0] == TurnOf(round) && TurnsOf(ran)[1..] == TurnsOf(rest);
    RunStep(t, queue, TurnsOf(ran));
  }

  // One more turn.
  lemma GoalStep<E>(t: seq<Mark<E>>, queue: seq<Job<E>>, now: Reading, ran: seq<Round<E>>, display: Option<DisplayPtr>)
    requires ran != [] && (ran[0].outcome != Asked(false) ==> |ran| == 1)
    ensures var round := ran[0];
            var u, q := t + Flat(TurnOrder(queue, Emitted(round.polls))), AfterTurn(queue, TurnOf(round));
            var later := AfterOne(now, round, display);
            Goal(t, queue, now, ran, display) ==
            match AnswerOf(round)
            case Err(e) => (u, q, later, Err(e))
            case Ok(stop) => if stop then (u, q, later, Ok(())) else Goal(u, q, later, ran[1..], display)
  {
    var round, rest := ran[0], ran[1..];
    assert ran == [round] + rest;
    FirstTurn(t, queue, round, rest);
    CountStep(now, ran, display);
    if rest == [] {
      NoTurns(t + Flat(TurnOrder(queue, Emitted(round.polls))), AfterTurn(queue, TurnOf(round)));
    }
  }

  lemma CountStep<E>(now: Reading, ran: seq<Round<E>>, display: Option<DisplayPtr>)
    requires ran != [] && (ran[0].outcome != Asked(false) ==> |ran| == 1)
    ensures var later := AfterOne(now, ran[0], display);
            match AnswerOf(ran[0])
            case Err(e) => After(now, ran, display) == later && Ending(ran) == Err(e)
            case Ok(stop) =>
              if stop then After(now, ran, display) == later && Ending(ran) == Ok(())
              else After(now, ran, display) == After(later, ran[1..], display) && Ending(ran) == Ending(ran[1..])
  {
    assert |ran| == 1 ==> ran[1..] == [];
  }

  // One turn of a run: what wlroots emits, and what `should_stop` does afterwards.
  datatype Turn<E> = Turn(incoming: seq<Job<E>>, query: seq<Act<E>>)

  // The queue after a turn: emptied if the turn emitted anything, then whatever `should_stop` caused.
  function AfterTurn<E>(queue: seq<Job<E>>, turn: Turn<E>): seq<Job<E>> {
    QueueAfter(queue, turn.incoming) + Children(turn.query)
  }

  function Leftover<E>(queue: seq<Job<E>>, turns: seq<Turn<E>>): seq<Job<E>>
    decreases |turns|
  {
    if turns == [] then queue else Leftover(AfterTurn(queue, turns[0]), turns[1..])
  }

  function RunOrder<E>(queue: seq<Job<E>>, turns: seq<Turn<E>>): seq<E>
    decreases |turns|
  {
    if turns == [] then []
    else TurnOrder(queue, turns[0].incoming) + RunOrder(AfterTurn(queue, turns[0]), turns[1..])
  }

  lemma RunStep<E>(t: seq<Mark<E>>, queue: seq<Job<E>>, turns: seq<Turn<E>>)
    requires turns != []
    ensures var now, next := TurnOrder(queue, turns[0].incoming), AfterTurn(queue, turns[0]);
            t + Flat(RunOrder(queue, turns)) == (t + Flat(now)) + Flat(RunOrder(next, turns[1..]))
  {
    var now, later := TurnOrder(queue, turns[0].incoming), RunOrder(AfterTurn(queue, turns[0]), turns[1..]);
    FlatConcat(now, later);
    Assoc(t, Flat(now), Flat(later));
  }

  // Everything a run is given to deliver: the queue, and the whole tree of every event emitted in it.
  function RunInput<E>(turns: seq<Turn<E>>): seq<E>
    decreases |turns|
  {
    if turns == [] then [] else Naive(turns[0].incoming) + NaiveScript(turns[0].query) + RunInput(turns[1..])
  }

  /** What a top-level `emit` delivers after its own event: the leftovers with everything below them, and what
      delivering its causes at once would deliver. */
  lemma EmitConserves<E>(queue: seq<Job<E>>, script: seq<Act<E>>)
    ensures multiset(LevelOrder(queue + Children(script))) == multiset(Naive(queue)) + multiset(NaiveScript(script))
  {
    DeferralConserves(queue + Children(script));
    NaiveConcat(queue, Children(script));
    NaiveOfChildren(script);
  }

  lemma {:induction false} TurnConserves<E>(queue: seq<Job<E>>, incoming: seq<Job<E>>)
    requires incoming != []
    ensures multiset(TurnOrder(queue, incoming)) == multiset(Naive(queue)) + multiset(Naive(incoming))
    decreases |incoming|
  {
    var job, rest := incoming[0], incoming[1..];
    var later, tail := LevelOrder(queue + Children(job.script)), TurnOrder([], rest);
    if rest != [] {
      TurnConserves([], rest);
    }
    EmitConserves(queue, job.script);
    Bag3([job.ev], later, tail);
    Bag3([job.ev], NaiveScript(job.script), Naive(rest));
    assert multiset(tail) == multiset(Naive(rest));
    Regroup(multiset(TurnOrder(queue, incoming)), multiset([job.ev]), multiset(later), multiset(tail),
            multiset(Naive(queue)), multiset(NaiveScript(job.script)), multiset(Naive(incoming)));
  }

  /** Nothing is delivered twice, and nothing vanishes while the dispatcher lives: what a run delivered, together with
      the trees still queued at the end, is what was queued at the start and everything the run emitted. */
  lemma {:induction false} RunConserves<E>(queue: seq<Job<E>>, turns: seq<Turn<E>>)
    ensures multiset(RunOrder(queue, turns)) + multiset(Naive(Leftover(queue, turns)))
         == multiset(Naive(queue)) + multiset(RunInput(turns))
    decreases |turns|
  {
    if turns != [] {
      var turn, rest := turns[0], turns[1..];
      var kept, next := if turn.incoming == [] then queue else [], AfterTurn(queue, turn);
      RunConserves(next, rest);
      if turn.incoming != [] {
        TurnConserves(queue, turn.incoming);
      }
      NaiveConcat(kept, Children(turn.query));
      NaiveOfChildren(turn.query);
      Bag3(Naive(turn.incoming), NaiveScript(turn.query), RunInput(rest));
      Rebalance(multiset(TurnOrder(queue, turn.incoming)), multiset(Naive(kept)), multiset(Naive(queue)),
                multiset(Naive(turn.incoming)), multiset(NaiveScript(turn.query)), multiset(RunOrder(next, rest)),
                multiset(Naive(Leftover(next, rest))), multiset(RunInput(rest)));
    }
  }

  lemma AddsNothing<T>(a: multiset<T>, more: seq<T>, total: multiset<T>)
    requires a + multiset(more) == total
    ensures a == total <==> more == []
  {
    assert |total| == |a| + |more|;
  }

  // Turn j or a later one emits something.
  ghost predicate EmitsFrom<E>(turns: seq<Turn<E>>, j: nat) {
    exists k :: j <= k < |turns| && turns[k].incoming != []
  }

  // Whatever `should_stop` causes is followed by a turn in which wlroots emits.
  ghost predicate EveryQueryIsFollowed<E>(turns: seq<Turn<E>>) {
    forall j :: 0 <= j < |turns| && Children(turns[j].query) != [] ==> EmitsFrom(turns, j + 1)
  }

  lemma EmitsLater<E>(turns: seq<Turn<E>>, j: nat)
    requires turns != []
    ensures EmitsFrom(turns, j + 1) <==> EmitsFrom(turns[1..], j)
    ensures EmitsFrom(turns, 0) <==> turns[0].incoming != [] || EmitsFrom(turns[1..], 0)
  {
    var rest := turns[1..];
    assert forall k :: 0 <= k < |rest| ==> rest[k] == turns[k + 1];
    if EmitsFrom(turns, j + 1) {
      var k :| j + 1 <= k < |turns| && turns[k].incoming != [];
      assert rest[k - 1].incoming != [];
    }
    if EmitsFrom(turns, 0) && turns[0].incoming == [] {
      var k :| 0 <= k < |turns| && turns[k].incoming != [];
      assert rest[k - 1].incoming != [];
    }
  }

  lemma FollowedStep<E>(turns: seq<Turn<E>>)
    requires turns != []
    ensures EveryQueryIsFollowed(turns) <==>
            EveryQueryIsFollowed(turns[1..]) && (Children(turns[0].query) != [] ==> EmitsFrom(turns[1..], 0))
  {
    var rest := turns[1..];
    if EveryQueryIsFollowed(turns) {
      forall j | 0 <= j < |rest| && Children(rest[j].query) != [] ensures EmitsFrom(rest, j + 1) {
        assert Children(turns[j + 1].query) != [];
        EmitsLater(turns, j + 1);
      }
      EmitsLater(turns, 0);
    }
    if EveryQueryIsFollowed(rest) && (Children(turns[0].query) != [] ==> EmitsFrom(rest, 0)) {
      forall j | 0 <= j < |turns| && Children(turns[j].query) != [] ensures EmitsFrom(turns, j + 1) {
        EmitsLater(turns, j);
        if j > 0 {
          assert Children(rest[j - 1].query) != [];
        }
      }
    }
  }

  // The queue ends empty when every cause, and what was queued at the start, is followed by an emission.
  lemma {:induction false} NothingLeftIff<E>(queue: seq<Job<E>>, turns: seq<Turn<E>>)
    ensures Leftover(queue, turns) == [] <==> EveryQueryIsFollowed(turns) && (queue != [] ==> EmitsFrom(turns, 0))
    decreases |turns|
  {
    if turns != [] {
      NothingLeftIff(AfterTurn(queue, turns[0]), turns[1..]);
      FollowedStep(turns);
      EmitsLater(turns, 0);
    }
  }

  /** A run delivers everything it is given if, and only if, every `should_stop` that causes something is followed by a
      turn in which wlroots emits: the dispatcher, and what it still holds, dies with the run. */
  lemma RunDeliversAllIff<E>(turns: seq<Turn<E>>)
    ensures multiset(RunOrder([], turns)) == multiset(RunInput(turns)) <==> EveryQueryIsFollowed(turns)
  {
    RunConserves([], turns);
    AddsNothing(multiset(RunOrder([], turns)), Naive(Leftover([], turns)), multiset(RunInput(turns)));
    NothingLeftIff([], turns);
  }

  /** The shortest run that loses an event: one turn in which nothing happens, after which `should_stop` causes one. */
  lemma LastQueryIsLost<E>(ev: E)
    ensures var turns := [Turn([], [Cause(ev, [])])];
            RunInput(turns) == [ev] && RunOrder([], turns) == [] && Leftover([], turns) == [Job(ev, [])]
  {
    var query := [Cause(ev, [])];
    var turns := [Turn([], query)];
    assert turns[1..] == [] && query[1..] == [];
    assert Children(query) == [Job(ev, [])] + Children<E>([]);
    assert NaiveScript(query) == [ev];
    assert AfterTurn([], turns[0]) == [Job(ev, [])];
  }
}
