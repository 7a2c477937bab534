/** The delivery flag under request emissions, and what callers can do to keep a run free of faults. */
module TeardownDelivery {
  import opened Wrappers
  import opened Teardown
  import opened TeardownSafety
  import opened TeardownRuns

  // The guard operations of a run, in order.
  function GuardOps(ops: seq<Op>): seq<Guards.Op> {
    if ops == [] then []
    else GuardOps(ops[..|ops| - 1]) + if ops[|ops| - 1].Guard? then [ops[|ops| - 1].op] else []
  }

  lemma {:induction false} EmissionKeepsStack(s: State, m: nat, order: seq<Listener>)
    ensures EmitDestroy(s, m, order).stack == s.stack
  {
    if order != [] {
      EmissionKeepsStack(s, m, order[..|order| - 1]);
    }
  }

  lemma {:induction false} DestroyKeepsStack(s: State, hs: seq<nat>)
    ensures DestroyAll(s, hs).stack == s.stack
  {
    if hs != [] {
      DestroyKeepsStack(s, hs[..|hs| - 1]);
    }
  }

  // Nothing but guards and emissions touches the stack.
  lemma OthersKeepStack(s: State, op: Op)
    requires !op.Guard? && !op.EmissionBegins? && !op.EmissionEnds?
    ensures Step(s, op).stack == s.stack
  {
    match op
    case NewManager(_, _, _, _) =>
    case NewHandle(_, _, _, _) =>
    case Retarget(_, _) =>
    case DropOf(h) => DropIsSteady(s, h);
    case DisplayDies(m, order) => EmissionKeepsStack(s, m, order);
    case TurnEnds(rt) => DestroyKeepsStack(s.(pending := s.pending[rt := []]), PendingOf(s, rt));
  }

  lemma ThreadStep(s: State, op: Op)
    ensures Step(s, op).stack.thread == if op.Guard? then Guards.Step(s.stack.thread, op.op) else s.stack.thread
  {
    if !op.Guard? && !op.EmissionBegins? && !op.EmissionEnds? {
      OthersKeepStack(s, op);
    }
  }

  lemma GuardsSnoc(gs: seq<Guards.Op>, g: Guards.Op)
    ensures Guards.Run(gs + [g]) == Guards.Step(Guards.Run(gs), g)
  {
    assert (gs + [g])[..|gs|] == gs;
  }

  /** The thread of a run is the thread of its guards alone. */
  lemma {:induction false} ThreadIsGuardRun(ops: seq<Op>)
    ensures Run(ops).stack.thread == Guards.Run(GuardOps(ops))
  {
    if ops == [] {
      assert Run(ops) == INITIAL;
    } else {
      var front, op := ops[..|ops| - 1], ops[|ops| - 1];
      ThreadIsGuardRun(front);
      ThreadStep(Run(front), op);
      if op.Guard? {
        GuardsSnoc(GuardOps(front), op.op);
      } else {
        assert GuardOps(ops) == GuardOps(front);
      }
    }
  }

  // The flag says whether a handler guard is on the stack: guards restore what they found.
  lemma FlagIsHandler(ops: seq<Op>)
    ensures InDelivery(Run(ops)) <==> Guards.AnyHandler(Run(ops).stack.thread.stack)
  {
    ThreadIsGuardRun(ops);
    Guards.FlagsMirrorStack(GuardOps(ops));
  }

  // Emissions nest among the guards.
  ghost predicate Nested(k: Stack) {
    && (forall i :: 0 <= i < |k.emissions| ==> k.emissions[i].depth <= |k.thread.stack|)
    && (forall i, j :: 0 <= i < j < |k.emissions| ==> k.emissions[i].depth <= k.emissions[j].depth)
  }

  // A foreign frame at position i has no emission below it, or a handler below it as well.
  ghost predicate ForeignAt(k: Stack, i: nat)
    requires i < |k.thread.stack|
  {
    k.thread.stack[i].Foreign? ==>
      || (exists j :: 0 <= j < i && k.thread.stack[j].Handler?)
      || (forall j :: 0 <= j < |k.emissions| ==> k.emissions[j].depth > i)
  }

  ghost predicate ForeignOk(k: Stack) {
    forall i :: 0 <= i < |k.thread.stack| ==> ForeignAt(k, i)
  }

  /** The environment's side: a callback that is not a delivery is not made from inside a request emission, unless a
      handler is on the stack already. */
  ghost predicate ForeignStep(k: Stack, op: Op) {
    op == Guard(Guards.EnterForeign) ==> k.emissions == [] || Guards.AnyHandler(k.thread.stack)
  }

  ghost predicate ForeignContract(ops: seq<Op>) {
    ops == [] ||
    (var front := ops[..|ops| - 1];
     ForeignContract(front) && ForeignStep(Run(front).stack, ops[|ops| - 1]))
  }

  lemma StepKeepsNested(s: State, op: Op)
    requires Nested(s.stack) && Enabled(s, op)
    ensures Nested(Step(s, op).stack)
  {
    if op.EmissionBegins? || op.EmissionEnds? {
      EmissionKeepsNested(s, op);
    } else if !op.Guard? {
      OthersKeepStack(s, op);
    }
  }

  lemma EmissionKeepsNested(s: State, op: Op)
    requires Nested(s.stack) && Enabled(s, op) && (op.EmissionBegins? || op.EmissionEnds?)
    ensures Nested(Step(s, op).stack)
  {
  }

  lemma StepKeepsForeign(s: State, op: Op)
    requires ForeignOk(s.stack) && ForeignStep(s.stack, op)
    ensures ForeignOk(Step(s, op).stack)
  {
    var k, n := s.stack, Step(s, op).stack;
    match op
    case Guard(g) =>
      forall i | 0 <= i < |n.thread.stack| ensures ForeignAt(n, i) {
        GuardKeepsForeign(k, g, i);
      }
    case EmissionBegins(_) => EmissionKeepsForeign(k, n);
    case EmissionEnds => EmissionKeepsForeign(k, n);
    case _ => OthersKeepStack(s, op);
  }

  lemma GuardKeepsForeign(k: Stack, g: Guards.Op, i: nat)
    requires ForeignOk(k) && (g == Guards.EnterForeign ==> k.emissions == [] || Guards.AnyHandler(k.thread.stack))
    requires i < |Guards.Step(k.thread, g).stack|
    ensures ForeignAt(k.(thread := Guards.Step(k.thread, g)), i)
  {
    var t, u := k.thread, Guards.Step(k.thread, g);
    assert forall j :: 0 <= j < |u.stack| && j < |t.stack| ==> u.stack[j] == t.stack[j];
    if i < |t.stack| {
      assert ForeignAt(k, i);
    }
  }

  // An emission begins above every guard, so it disturbs none; nor does its end.
  lemma EmissionKeepsForeign(k: Stack, n: Stack)
    requires n.thread == k.thread
    requires forall j :: 0 <= j < |n.emissions| ==>
               n.emissions[j].depth >= |k.thread.stack| || (j < |k.emissions| && n.emissions[j] == k.emissions[j])
    ensures ForeignOk(k) ==> ForeignOk(n)
  {
    forall i | 0 <= i < |k.thread.stack| ensures ForeignAt(k, i) ==> ForeignAt(n, i) {
    }
  }

  lemma {:induction false} StacksHold(ops: seq<Op>)
    requires Feasible(ops)
    ensures Nested(Run(ops).stack) && (ForeignContract(ops) ==> ForeignOk(Run(ops).stack))
  {
    if ops != [] {
      StacksHold(ops[..|ops| - 1]);
      StepKeepsNested(Run(ops[..|ops| - 1]), ops[|ops| - 1]);
      if ForeignContract(ops) {
        StepKeepsForeign(Run(ops[..|ops| - 1]), ops[|ops| - 1]);
      }
    }
  }

  // Consumer code under an emission has a handler below it.
  lemma HandlerBelow(s: State)
    requires Nested(s.stack) && ForeignOk(s.stack) && ConsumerRuns(s) && s.stack.emissions != []
    ensures Guards.AnyHandler(s.stack.thread.stack)
  {
    var guards, e := s.stack.thread.stack, s.stack.emissions;
    assert e[|e| - 1].depth < |guards|;
    assert ForeignAt(s.stack, |guards| - 1);
    if guards[|guards| - 1].Handler? {
      assert guards[|guards| - 1].Handler?;
    }
  }

  // At every moment of the run at which consumer code runs under an emission, the delivery flag is up.
  ghost predicate FlagUnderEmissions(ops: seq<Op>) {
    && (ConsumerRuns(Run(ops)) && Run(ops).stack.emissions != [] ==> InDelivery(Run(ops)))
    && (ops == [] || FlagUnderEmissions(ops[..|ops| - 1]))
  }

  // A foreign frame entered against the contract runs consumer code with the flag down.
  lemma BareForeignFrame(ops: seq<Op>)
    requires Feasible(ops) && !ForeignStep(Run(ops).stack, Guard(Guards.EnterForeign))
    ensures var t := Step(Run(ops), Guard(Guards.EnterForeign));
            ConsumerRuns(t) && t.stack.emissions != [] && !InDelivery(t)
  {
    StacksHold(ops);
    FlagIsHandler(ops);
  }

  /** Whenever consumer code runs while a request signal is being emitted the delivery flag is up, throughout a run, if
      and only if no callback that is not a delivery was made from inside an emission with no handler on the stack. */
  lemma {:induction false} FlagIffForeignContract(ops: seq<Op>)
    requires Feasible(ops)
    ensures FlagUnderEmissions(ops) <==> ForeignContract(ops)
  {
    if ops == [] {
      assert Run(ops) == INITIAL;
    } else {
      var front, op := ops[..|ops| - 1], ops[|ops| - 1];
      FlagIffForeignContract(front);
      if ForeignContract(ops) {
        StacksHold(ops);
        FlagIsHandler(ops);
        if ConsumerRuns(Run(ops)) && Run(ops).stack.emissions != [] {
          HandlerBelow(Run(ops));
        }
      } else if ForeignContract(front) {
        assert op == Guard(Guards.EnterForeign);
        BareForeignFrame(front);
      }
    }
  }

  /** Under that contract every drop of a toplevel under its own emission is deferred. */
  lemma {:induction false} ContractMakesDropsDefer(ops: seq<Op>)
    requires Feasible(ops) && ForeignContract(ops)
    ensures DropsDefer(ops)
  {
    if ops != [] {
      var front := ops[..|ops| - 1];
      ContractMakesDropsDefer(front);
      FlagIffForeignContract(front);
    }
  }

  /** The caller's side of a fresh queue: a runtime gets a new foreign-toplevel manager only when none of its toplevels
      is still waiting to be destroyed. */
  ghost predicate TidyStep(s: State, op: Op) {
    op.NewManager? && op.ok && op.k == ForeignToplevel && SlotOf(s, op.rt, op.k).pointer == None ==>
      PendingOf(s, op.rt) == []
  }

  ghost predicate Tidy(ops: seq<Op>) {
    ops == [] || (Tidy(ops[..|ops| - 1]) && TidyStep(Run(ops[..|ops| - 1]), ops[|ops| - 1]))
  }

  ghost predicate Good(s: State) {
    Inv(s) && forall rt :: FreshQueue(s, rt)
  }

  // Queues stay fresh when nothing queued changes its manager and no live manager is replaced.
  lemma QueueFrame(s: State, t: State, rt: nat)
    requires HandlesOk(s) && PendingOk(s, rt) && FreshQueue(s, rt)
    requires SlotOf(t, rt, ForeignToplevel).alive ==> SlotOf(s, rt, ForeignToplevel).alive
    requires forall h :: h in PendingOf(t, rt) ==>
               && h in PendingOf(s, rt) && Hdl(t, h).mgr == Hdl(s, h).mgr
               && (Mgr(t, Hdl(s, h).mgr).freed ==> Mgr(s, Hdl(s, h).mgr).freed)
    ensures FreshQueue(t, rt)
  {
  }

  lemma NewManagerKeepsFresh(s: State, op: Op, r: nat)
    requires Good(s) && op.NewManager? && Enabled(s, op) && TidyStep(s, op)
    ensures FreshQueue(Step(s, op), r)
  {
    assert PendingOk(s, r);
    if SlotOf(Step(s, op), r, ForeignToplevel).alive == SlotOf(s, r, ForeignToplevel).alive {
      forall h | h in PendingOf(s, r) ensures Hdl(s, h).mgr in s.managers {
        assert HandleOk(s, h);
      }
      assert FreshQueue(s, r);
    }
  }

  lemma ReleaseEffect(s: State, h: nat, g: nat, m: nat)
    requires h in s.handles && s.handles[h].mgr in s.managers
    ensures var u := Released(s, h);
            && Hdl(u, g).mgr == Hdl(Destroy(u, h), g).mgr == Hdl(Deferred(s, h), g).mgr == Hdl(s, g).mgr
            && Mgr(u, m).freed == Mgr(s, m).freed
  {
    DestroyEffect(Released(s, h), h, g);
  }

  lemma DropKeepsFresh(s: State, h: nat, r: nat)
    requires Good(s) && Enabled(s, DropOf(h))
    ensures FreshQueue(DropHandle(s, h), r)
  {
    assert PendingOk(s, r) && FreshQueue(s, r);
    var t := DropHandle(s, h);
    if s.handles[h].alive {
      LiveHandleIsLinked(s, h);
      DropReleases(s, h);
      forall g | g in PendingOf(t, r) ensures SlotOf(t, r, ForeignToplevel).alive ==> !Mgr(t, Hdl(t, g).mgr).freed {
        ReleaseEffect(s, h, g, Hdl(s, g).mgr);
      }
    }
  }

  lemma TearDownKeepsFresh(s: State, m: nat, order: seq<Listener>, r: nat)
    requires Good(s) && Enabled(s, DisplayDies(m, order))
    ensures FreshQueue(TearDown(s, m, order), r)
  {
    TearDownInOneStep(s, m, order);
    var t, x := TornDown(s, m), s.managers[m];
    assert PendingOk(s, r) && FreshQueue(s, r) && ManagerOk(s, m);
    if SlotOf(t, r, ForeignToplevel).alive {
      forall h | h in PendingOf(s, r) ensures Hdl(t, h).mgr == Hdl(s, h).mgr != m {
        assert HandleOk(s, h);
      }
    }
  }

  lemma DrainKeepsFresh(s: State, rt: nat, r: nat)
    requires Good(s) && s.stack.emissions == []
    ensures FreshQueue(Drain(s, rt), r)
  {
    assert FreshQueue(s, rt) && FreshQueue(s, r) && PendingOk(s, r);
    DrainInOneStep(s, rt);
    forall h ensures Hdl(Drained(s, rt), h).mgr == Hdl(s, h).mgr {
      DrainedEffect(s, rt, h);
    }
  }

  lemma StepKeepsFresh(s: State, op: Op, r: nat)
    requires Good(s) && Enabled(s, op) && TidyStep(s, op)
    ensures FreshQueue(Step(s, op), r)
  {
    assert FreshQueue(s, r) && PendingOk(s, r);
    match op
    case NewManager(_, _, _, _) => NewManagerKeepsFresh(s, op, r);
    case DropOf(h) => DropKeepsFresh(s, h, r);
    case DisplayDies(m, order) => TearDownKeepsFresh(s, m, order, r);
    case TurnEnds(rt) => DrainKeepsFresh(s, rt, r);
    case _ => QueueFrame(s, Step(s, op), r);
  }

  lemma StepKeepsGood(s: State, op: Op)
    requires Good(s) && Enabled(s, op) && TidyStep(s, op) && (op.DropOf? ==> DefersUnderEmission(s, op.h))
    ensures Good(Step(s, op))
  {
    assert op.TurnEnds? ==> FreshQueue(s, op.rt);
    StepKeepsInv(s, op);
    forall r ensures FreshQueue(Step(s, op), r) {
      StepKeepsFresh(s, op, r);
    }
  }

  lemma {:induction false} TidyRunsAreGood(ops: seq<Op>)
    requires Feasible(ops) && Tidy(ops) && DropsDefer(ops)
    ensures Good(Run(ops)) && FreshDrains(ops)
  {
    if ops == [] {
      assert Run(ops) == INITIAL;
    } else {
      TidyRunsAreGood(ops[..|ops| - 1]);
      StepKeepsGood(Run(ops[..|ops| - 1]), ops[|ops| - 1]);
    }
  }

  /** What a caller can check: with tidy re-creation, and no foreign callback from inside a request emission, a run is
      free of faults. */
  lemma TidyRunsAreSafe(ops: seq<Op>)
    requires Feasible(ops) && Tidy(ops) && ForeignContract(ops)
    ensures !Run(ops).fault
  {
    ContractMakesDropsDefer(ops);
    TidyRunsAreGood(ops);
    FaultFreeIff(ops);
  }
}
