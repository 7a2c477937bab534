/** What the teardown machine promises, read off its runs. */
module TeardownTheorems {
  import opened Wrappers
  import opened Teardown
  import opened TeardownSafety
  import opened TeardownRuns
  import opened TeardownDelivery

  /** Over every run that meets the condition of `FaultFreeIff`: each watch and each set of request listeners is
      unlinked exactly once, when its handle goes inert; the wlroots destroy runs at most once per object; a freed
      manager has no listeners; an accessor reaches an object only while it and its manager are alive; and no object is
      freed while its signal is emitted. */
  lemma EveryRunKeeps(ops: seq<Op>)
    requires Feasible(ops) && SafeRun(ops)
    ensures var s := Run(ops);
            && !s.fault
            && (forall h :: h in s.handles ==>
                  var x := s.handles[h];
                  && x.watchUnlinks == (if x.alive then 0 else 1)
                  && x.requestUnlinks == (if x.kind == Toplevel && !x.alive then 1 else 0)
                  && x.destroys <= 1 && (x.freed <==> x.destroys == 1 || Mgr(s, x.mgr).freed)
                  && LiveRaw(s, h) == (if x.alive then Some(h) else None)
                  && (x.alive ==> !x.freed && !Mgr(s, x.mgr).freed))
            && (forall m :: m in s.managers && s.managers[m].freed ==>
                  s.managers[m].listeners == {} && s.managers[m].unlinks == 1)
            && (forall h :: Emitting(s, h) ==> h in s.handles && !s.handles[h].freed)
  {
    FaultFreeIff(ops);
    var s := Run(ops);
    forall h | h in s.handles ensures HandleOk(s, h) {
    }
    forall m | m in s.managers && s.managers[m].freed
      ensures s.managers[m].listeners == {} && s.managers[m].unlinks == 1
    {
      assert ManagerOk(s, m);
      forall h ensures HandleWatch(h) !in s.managers[m].listeners {
      }
      assert forall l :: l in s.managers[m].listeners ==> l.HandleWatch?;
    }
  }

  /** Dropping a toplevel in consumer code under any request emission finds the delivery flag up, so it only queues the
      object: nothing is freed until the drain.  The flag is what the guards on the stack left it at. */
  lemma DropUnderEmissionDefers(ops: seq<Op>, h: nat, g: nat)
    requires Feasible(ops) && FreshDrains(ops) && ForeignContract(ops)
    requires Emitting(Run(ops), g) && Enabled(Run(ops), DropOf(h))
    requires Run(ops).handles[h].alive && Run(ops).handles[h].kind == Toplevel
    ensures var s, t := Run(ops), Step(Run(ops), DropOf(h));
            && InDelivery(s) && !t.fault
            && PendingOf(t, s.handles[h].rt) == PendingOf(s, s.handles[h].rt) + [h]
            && (forall x :: Hdl(t, x).freed == Hdl(s, x).freed && Hdl(t, x).destroys == Hdl(s, x).destroys)
  {
    ContractMakesDropsDefer(ops);
    FaultFreeIff(ops);
    FlagIffForeignContract(ops);
    DropInDelivery(Run(ops), h);
    forall x {
      DeferredEffect(Run(ops), h, x);
    }
  }

  lemma DropInDelivery(s: State, h: nat)
    requires Inv(s) && InDelivery(s) && h in s.handles && s.handles[h].alive && s.handles[h].kind == Toplevel
    ensures DropHandle(s, h) == Deferred(s, h)
  {
    LiveHandleIsLinked(s, h);
    DropReleases(s, h);
  }

  predicate SameLiveSlot(x: Manager, y: Manager) {
    !x.freed && !y.freed && x.rt == y.rt && x.kind == y.kind
  }

  /** A live object's group or parent pointer is null or names an object of the same manager that is not freed, across
      re-creation of managers; a runtime has at most one live manager of a kind. */
  lemma PointersStayLive(ops: seq<Op>)
    requires Feasible(ops) && SafeRun(ops)
    ensures var s := Run(ops);
            && (forall h :: h in s.handles && s.handles[h].alive && s.handles[h].target.Some? ==>
                  var t := s.handles[h].target.value;
                  t in s.handles && !s.handles[t].freed && s.handles[t].mgr == s.handles[h].mgr)
            && (forall m, n ::
                  m in s.managers && n in s.managers && SameLiveSlot(s.managers[m], s.managers[n]) ==> m == n)
  {
    FaultFreeIff(ops);
    var s := Run(ops);
    forall h | h in s.handles ensures HandleOk(s, h) {
    }
    forall m | m in s.managers ensures ManagerOk(s, m) {
    }
  }

  /** Teardown of a manager makes every handle of it inert and empties the runtime's slot, so that the next creation on
      the same runtime is accepted again. */
  lemma TeardownResets(ops: seq<Op>, m: nat, order: seq<Listener>, next: nat)
    requires Feasible(ops) && SafeRun(ops) && Enabled(Run(ops), DisplayDies(m, order))
    ensures var s, t := Run(ops), Step(Run(ops), DisplayDies(m, order));
            var rt, k := s.managers[m].rt, s.managers[m].kind;
            && !t.fault
            && (forall h :: h in t.handles && t.handles[h].mgr == m ==> LiveRaw(t, h) == None && t.handles[h].freed)
            && SlotOf(t, rt, k) == NO_SLOT
            && SlotOf(CreateManager(t, rt, k, next, true), rt, k).pointer == Some(next)
  {
    FaultFreeIff(ops);
    TearDownInOneStep(Run(ops), m, order);
  }

  /** The drain: afterwards nothing is queued, every queued object whose manager is alive was destroyed exactly once,
      and one whose manager died was never touched. */
  lemma DrainFreesDeferredOnce(ops: seq<Op>, rt: nat)
    requires Feasible(ops) && SafeRun(ops) && AtLoop(Run(ops)) && FreshQueue(Run(ops), rt)
    ensures var s, t := Run(ops), Step(Run(ops), TurnEnds(rt));
            && !t.fault && PendingOf(t, rt) == []
            && forall h :: h in PendingOf(s, rt) ==>
                 var live := !Mgr(s, Hdl(s, h).mgr).freed;
                 Hdl(s, h).freed == !live && Hdl(t, h).freed && Hdl(t, h).destroys == if live then 1 else 0
  {
    FaultFreeIff(ops);
    var s := Run(ops);
    assert PendingOk(s, rt);
    DrainInOneStep(s, rt);
    forall h | h in PendingOf(s, rt)
      ensures var live := !Mgr(s, Hdl(s, h).mgr).freed;
              && Hdl(s, h).freed == !live && Hdl(Drained(s, rt), h).freed
              && Hdl(Drained(s, rt), h).destroys == if live then 1 else 0
    {
      DrainedEffect(s, rt, h);
      assert HandleOk(s, h) && ManagerOk(s, Hdl(s, h).mgr) && SlotOk(s, rt, ForeignToplevel);
    }
  }

  // The boundary.  The drain asks only whether the runtime's present manager is alive, not whether it is the manager
  // of the queued objects.

  lemma RunSnoc(ops: seq<Op>, op: Op)
    ensures Run(ops + [op]) == Step(Run(ops), op)
    ensures Feasible(ops + [op]) <==> Feasible(ops) && Enabled(Run(ops), op)
    ensures SafeRun(ops + [op]) <==> SafeRun(ops) && SafeStep(Run(ops), op)
    ensures Tidy(ops + [op]) <==> Tidy(ops) && TidyStep(Run(ops), op)
  {
    assert (ops + [op])[..|ops|] == ops;
  }

  // In a state without a live manager, everything queued belongs to a dead one.
  lemma QueueIsStale(s: State, rt: nat, h: nat)
    requires Inv(s) && SlotOf(s, rt, ForeignToplevel).pointer == None && h in PendingOf(s, rt)
    ensures h in s.handles && s.handles[h].mgr in s.managers && s.managers[s.handles[h].mgr].freed
  {
    assert PendingOk(s, rt);
    assert HandleOk(s, h);
    assert ManagerOk(s, s.handles[h].mgr);
  }

  /** Re-creating a manager right before a drain is safe if, and only if, the runtime's queue is empty at that moment:
      otherwise the drain destroys an object whose manager is gone. */
  lemma RecreationSafeIffQueueEmpty(ops: seq<Op>, rt: nat, m: nat)
    requires Feasible(ops) && SafeRun(ops) && Run(ops).stack == EMPTY_STACK
    requires m !in Run(ops).managers && SlotOf(Run(ops), rt, ForeignToplevel).pointer == None
    ensures Feasible(ops + [NewManager(rt, ForeignToplevel, m, true)] + [TurnEnds(rt)])
    ensures !Run(ops + [NewManager(rt, ForeignToplevel, m, true)] + [TurnEnds(rt)]).fault <==>
            PendingOf(Run(ops), rt) == []
  {
    FaultFreeIff(ops);
    TwoSteps(ops, NewManager(rt, ForeignToplevel, m, true), TurnEnds(rt));
    RecreatedDrain(Run(ops), rt, m);
  }

  lemma TwoSteps(ops: seq<Op>, a: Op, b: Op)
    ensures Run(ops + [a] + [b]) == Step(Step(Run(ops), a), b)
    ensures Feasible(ops) && Enabled(Run(ops), a) && Enabled(Step(Run(ops), a), b) ==> Feasible(ops + [a] + [b])
  {
    RunSnoc(ops, a);
    RunSnoc(ops + [a], b);
  }

  lemma RecreatedDrain(s: State, rt: nat, m: nat)
    requires Inv(s) && s.stack == EMPTY_STACK
    requires m !in s.managers && SlotOf(s, rt, ForeignToplevel).pointer == None
    ensures var create := NewManager(rt, ForeignToplevel, m, true);
            var t := Step(s, create);
            && Enabled(s, create) && Enabled(t, TurnEnds(rt))
            && (!Step(t, TurnEnds(rt)).fault <==> PendingOf(s, rt) == [])
  {
    CreateManagerKeepsInv(s, rt, ForeignToplevel, m, true);
    DrainSafeIffFresh(CreateManager(s, rt, ForeignToplevel, m, true), rt);
    RecreatedQueue(s, rt, m);
  }

  // Under a new manager the queue is fresh only if it is empty.
  lemma RecreatedQueue(s: State, rt: nat, m: nat)
    requires Inv(s) && m !in s.managers && SlotOf(s, rt, ForeignToplevel).pointer == None
    ensures var t := CreateManager(s, rt, ForeignToplevel, m, true);
            t.stack == s.stack && (FreshQueue(t, rt) <==> PendingOf(s, rt) == [])
  {
    CreationDropsNothing(s, rt, ForeignToplevel, m);
    var t := CreateManager(s, rt, ForeignToplevel, m, true);
    if PendingOf(s, rt) != [] {
      var h := PendingOf(s, rt)[0];
      QueueIsStale(s, rt, h);
      assert h in PendingOf(t, rt) && Mgr(t, Hdl(t, h).mgr).freed;
    }
  }

  // One toplevel, owned and live, and nothing queued.
  ghost predicate OneToplevel(s: State) {
    && 0 in s.handles && s.handles[0].kind == Toplevel && s.handles[0].alive && s.handles[0].owned
    && s.handles[0].rt == 0 && s.handles[0].mgr == 0
    && 0 in s.managers && s.managers[0].rt == 0 && s.managers[0].kind == ForeignToplevel && !s.managers[0].freed
    && s.managers[0].listeners == {RuntimeWatch, HandleWatch(0)} && 1 !in s.managers
    && PendingOf(s, 0) == []
  }

  // A run that is feasible and free of faults.
  ghost predicate Sound(ops: seq<Op>) {
    Feasible(ops) && SafeRun(ops)
  }

  lemma Extend(ops: seq<Op>, op: Op)
    requires Sound(ops) && Enabled(Run(ops), op) && SafeStep(Run(ops), op)
    ensures Sound(ops + [op]) && Run(ops + [op]) == Step(Run(ops), op)
  {
    RunSnoc(ops, op);
  }

  lemma OneToplevelIsReachable() returns (ops: seq<Op>)
    ensures Sound(ops) && OneToplevel(Run(ops)) && Run(ops).stack == EMPTY_STACK
  {
    Extend([], NewManager(0, ForeignToplevel, 0, true));
    var a := [] + [NewManager(0, ForeignToplevel, 0, true)];
    assert Run([]) == INITIAL;
    assert SlotOf(Run(a), 0, ForeignToplevel) == Slot(Some(0), true, Some(0)) &&
           Run(a).managers[0].listeners == {RuntimeWatch};
    Extend(a, NewHandle(0, Toplevel, 0, true));
    ops := a + [NewHandle(0, Toplevel, 0, true)];
  }

  const IN_RUN := Guards.Step(Guards.IDLE, Guards.EnterPin(Some(1)))
  const ASKING := Guards.Step(IN_RUN, Guards.HandlerFrame(0))

  lemma InsideTheRun()
    ensures IN_RUN.stack == [Guards.Pin(Some(1), 0)]
    ensures ASKING.stack == IN_RUN.stack + [Guards.Handler(0, false, false)] && ASKING.flags.inDelivery
    ensures Guards.Step(ASKING, Guards.Leave) == IN_RUN && Guards.Step(IN_RUN, Guards.Leave) == Guards.IDLE
  {
    assert IN_RUN.inDispatch == {} && ASKING.inDispatch - {0} == {};
    assert ASKING.stack[..1] == IN_RUN.stack && IN_RUN.stack[..0] == [];
  }

  // A run asks its `should_stop`.
  lemma InShouldStop() returns (ops: seq<Op>)
    ensures Sound(ops) && OneToplevel(Run(ops)) && Run(ops).stack == Stack(ASKING, [])
  {
    var a := OneToplevelIsReachable();
    Extend(a, Guard(Guards.EnterPin(Some(1))));
    var b := a + [Guard(Guards.EnterPin(Some(1)))];
    Extend(b, Guard(Guards.HandlerFrame(0)));
    ops := b + [Guard(Guards.HandlerFrame(0))];
  }

  // The toplevel is queued; its display is still there.
  ghost predicate Queued(t: State) {
    && PendingOf(t, 0) == [0] && 0 in t.managers && !t.managers[0].freed
    && t.managers[0].rt == 0 && t.managers[0].kind == ForeignToplevel && t.managers[0].listeners == {RuntimeWatch}
    && 1 !in t.managers
  }

  lemma DeferredIsQueued(s: State)
    requires OneToplevel(s)
    ensures Queued(Deferred(s, 0)) && Deferred(s, 0).stack == s.stack
  {
    assert s.managers[0].listeners - {HandleWatch(0)} == {RuntimeWatch};
  }

  lemma DropInShouldStop(s: State)
    requires Inv(s) && OneToplevel(s) && s.stack == Stack(ASKING, [])
    ensures Enabled(s, DropOf(0)) && SafeStep(s, DropOf(0))
    ensures Queued(Step(s, DropOf(0))) && Step(s, DropOf(0)).stack == s.stack
  {
    InsideTheRun();
    DropInDelivery(s, 0);
    DeferredIsQueued(s);
  }

  // `should_stop` returns, and then the run does.
  lemma LeaveTheRun(ops: seq<Op>) returns (more: seq<Op>)
    requires Sound(ops) && Run(ops).stack == Stack(ASKING, [])
    ensures Sound(more) && Run(more) == WithStack(Run(ops), EMPTY_STACK)
  {
    InsideTheRun();
    var leave := Guard(Guards.Leave);
    Extend(ops, leave);
    Extend(ops + [leave], leave);
    more := ops + [leave] + [leave];
  }

  lemma QueuedIsReachable() returns (ops: seq<Op>)
    ensures Sound(ops) && Queued(Run(ops)) && Run(ops).stack == EMPTY_STACK
  {
    var c := InShouldStop();
    FaultFreeIff(c);
    DropInShouldStop(Run(c));
    Extend(c, DropOf(0));
    ops := LeaveTheRun(c + [DropOf(0)]);
  }

  /** A queue without a live manager is reachable: a toplevel is dropped inside the last `should_stop` of a run, which
      returns without another drain, and the display dies. */
  lemma StaleQueueIsReachable() returns (ops: seq<Op>)
    ensures Sound(ops) && Run(ops).stack == EMPTY_STACK && 1 !in Run(ops).managers
    ensures SlotOf(Run(ops), 0, ForeignToplevel).pointer == None && PendingOf(Run(ops), 0) == [0]
  {
    var e := QueuedIsReachable();
    FaultFreeIff(e);
    TearDownInOneStep(Run(e), 0, [RuntimeWatch]);
    Extend(e, DisplayDies(0, [RuntimeWatch]));
    ops := e + [DisplayDies(0, [RuntimeWatch])];
  }

  // A second display is created over a stale queue and dies at once: its listeners go, and the slot is empty again.
  lemma SecondDisplay(s: State)
    requires Inv(s) && s.stack == EMPTY_STACK && 1 !in s.managers && SlotOf(s, 0, ForeignToplevel).pointer == None
    ensures var create, die := NewManager(0, ForeignToplevel, 1, true), DisplayDies(1, [RuntimeWatch]);
            var t := Step(s, create);
            && Enabled(s, create) && Enabled(t, die) && t.stack == EMPTY_STACK
            && Step(t, die).stack == EMPTY_STACK && !SlotOf(Step(t, die), 0, ForeignToplevel).alive
  {
    var t := CreateManager(s, 0, ForeignToplevel, 1, true);
    CreateManagerKeepsInv(s, 0, ForeignToplevel, 1, true);
    CreationDropsNothing(s, 0, ForeignToplevel, 1);
    TearDownInOneStep(t, 1, [RuntimeWatch]);
  }

  /** Untidy re-creation need not fault: the second display may die before the next drain. */
  lemma UntidyRunsCanBeSafe() returns (ops: seq<Op>)
    ensures Feasible(ops) && !Tidy(ops) && !Run(ops).fault
  {
    var a := StaleQueueIsReachable();
    var create, die := NewManager(0, ForeignToplevel, 1, true), DisplayDies(1, [RuntimeWatch]);
    FaultFreeIff(a);
    SecondDisplay(Run(a));
    RunSnoc(a, create);
    RunSnoc(a + [create], die);
    RunSnoc(a + [create] + [die], TurnEnds(0));
    ops := a + [create] + [die] + [TurnEnds(0)];
    FaultFreeIff(ops);
  }

  lemma ToplevelUnderEmission() returns (ops: seq<Op>)
    ensures Sound(ops) && OneToplevel(Run(ops)) && Run(ops).stack == Stack(Guards.IDLE, [Emission(0, 0)])
  {
    var a := OneToplevelIsReachable();
    FaultFreeIff(a);
    assert HandleOk(Run(a), 0);
    Extend(a, EmissionBegins(0));
    ops := a + [EmissionBegins(0)];
  }

  lemma ForeignOverEmission(s: State)
    requires OneToplevel(s) && s.stack == Stack(Guards.IDLE, [Emission(0, 0)])
    ensures var t := Step(s, Guard(Guards.EnterForeign));
            && OneToplevel(t) && Enabled(t, DropOf(0)) && !DefersUnderEmission(t, 0)
            && !ForeignStep(s.stack, Guard(Guards.EnterForeign))
  {
    var t := Step(s, Guard(Guards.EnterForeign));
    assert t.stack.emissions[0].h == 0;
    assert t.stack.thread.stack == [Guards.Foreign(false)];
  }

  /** The contract of the environment is needed: a callback that is no delivery, made from inside a request emission,
      can drop the toplevel whose signal it is. */
  lemma BareCallbackCanFault() returns (ops: seq<Op>)
    ensures Feasible(ops) && FreshDrains(ops) && !ForeignContract(ops) && Run(ops).fault
  {
    var b := ToplevelUnderEmission();
    var enter := Guard(Guards.EnterForeign);
    ForeignOverEmission(Run(b));
    Extend(b, enter);
    RunSnoc(b + [enter], DropOf(0));
    ops := b + [enter] + [DropOf(0)];
    FaultFreeIff(ops);
    ContractPrefix(b, enter);
    ContractPrefix(b + [enter], DropOf(0));
  }

  lemma ContractPrefix(ops: seq<Op>, op: Op)
    ensures ForeignContract(ops + [op]) <==> ForeignContract(ops) && ForeignStep(Run(ops).stack, op)
    ensures FreshDrains(ops + [op]) <==> FreshDrains(ops) && (op.TurnEnds? ==> FreshQueue(Run(ops), op.rt))
  {
    assert (ops + [op])[..|ops|] == ops;
  }

  // Both orderings are needed.

  // `take_live_raw` with mark-dead first, and the callback with the registration dropped first.
  function TakeLiveSwapped(s: State, h: nat): State {
    DropWatch(MarkDead(s, h), h)
  }

  function OnHandleWatchSwapped(s: State, h: nat): State {
    UnlinkWatch(MarkDead(DropWatch(ClearRequests(s, h), h), h), h)
  }

  /** On a live handle of any reachable state, the orders of the code unlink the watch once.  With the steps swapped,
      `Drop` never unlinks it and leaves it linked, and the callback unlinks it twice, which faults. */
  lemma SwappedOrdersUnlinkZeroOrTwoTimes(s: State, h: nat)
    requires Inv(s) && h in s.handles && s.handles[h].alive
    ensures Hdl(TakeLive(s, h), h).watchUnlinks == 1 && Hdl(OnHandleWatch(s, h), h).watchUnlinks == 1
    ensures Hdl(TakeLiveSwapped(s, h), h).watchUnlinks == 0
    ensures HandleWatch(h) in Mgr(TakeLiveSwapped(s, h), s.handles[h].mgr).listeners
    ensures Hdl(OnHandleWatchSwapped(s, h), h).watchUnlinks == 2 && OnHandleWatchSwapped(s, h).fault
  {
    LiveHandleIsLinked(s, h);
    assert HandleOk(s, h);
    TakeLiveUnlinksOnce(s, h);
    CallbackUnlinksOnce(s, h);
  }
}
