/** Whole runs of the teardown machine: every interleaving of creation, use, drop, teardown, emission and drain. */
module TeardownRuns {
  import opened Wrappers
  import opened Teardown
  import opened TeardownSafety

  // The drain.

  // Handle x with id h once the objects in `gone` are freed and every pointer to one of them is nulled.
  function FreedAs(x: Handle, h: nat, gone: set<nat>): Handle {
    if h in gone then x.(freed := true, target := None, destroys := x.destroys + 1)
    else if x.target.Some? && x.target.value in gone then x.(target := None)
    else x
  }

  function Freed(s: State, gone: set<nat>): State {
    s.(handles := map h | h in s.handles :: FreedAs(s.handles[h], h, gone))
  }

  function Members(hs: seq<nat>): set<nat> {
    set h | h in hs
  }

  ghost predicate Destroyable(s: State, h: nat) {
    h in s.handles && !s.handles[h].freed && !Mgr(s, s.handles[h].mgr).freed
  }

  // What one more destroy adds to a handle.
  lemma OneMoreFreed(x: Handle, g: nat, gone: set<nat>, h: nat)
    requires h !in gone
    ensures var y := FreedAs(x, g, gone);
            FreedAs(x, g, gone + {h}) ==
            if g == h then y.(freed := true, target := None, destroys := y.destroys + 1)
            else y.(target := if y.target == Some(h) then None else y.target)
  {
  }

  lemma DestroyedHandle(s: State, gone: set<nat>, h: nat, g: nat)
    requires h in s.handles && g in s.handles && h !in gone
    ensures Hdl(Destroy(Freed(s, gone), h), g) == FreedAs(s.handles[g], g, gone + {h})
  {
    DestroyEffect(Freed(s, gone), h, g);
    OneMoreFreed(s.handles[g], g, gone, h);
  }

  lemma DestroyOneMore(s: State, gone: set<nat>, h: nat)
    requires s.stack.emissions == [] && Destroyable(s, h) && h !in gone
    ensures Destroy(Freed(s, gone), h) == Freed(s, gone + {h})
  {
    var a, b := Freed(s, gone), Freed(s, gone + {h});
    var c := Destroy(a, h);
    assert c.handles == b.handles by {
      forall g | g in s.handles ensures c.handles[g] == FreedAs(s.handles[g], g, gone + {h}) {
        DestroyedHandle(s, gone, h, g);
      }
    }
    assert a.handles[h].mgr == s.handles[h].mgr && !a.handles[h].freed;
  }

  lemma {:induction false} DestroyAllFrees(s: State, hs: seq<nat>)
    requires s.stack.emissions == [] && (forall i, j :: 0 <= i < j < |hs| ==> hs[i] != hs[j])
    requires forall h :: h in hs ==> Destroyable(s, h)
    ensures DestroyAll(s, hs) == Freed(s, Members(hs))
  {
    if hs == [] {
      assert Freed(s, {}).handles == s.handles;
      assert Members(hs) == {};
    } else {
      var front, h := hs[..|hs| - 1], hs[|hs| - 1];
      assert hs == front + [h];
      DestroyAllFrees(s, front);
      assert Members(hs) == Members(front) + {h};
      DestroyOneMore(s, Members(front), h);
    }
  }

  lemma {:induction false} DestroyAllFaults(s: State, hs: seq<nat>, i: nat)
    requires i < |hs| && Mgr(s, Hdl(s, hs[i]).mgr).freed
    ensures DestroyAll(s, hs).fault
  {
    if i < |hs| - 1 {
      DestroyAllFaults(s, hs[..|hs| - 1], i);
    } else {
      DestroyAllKeepsManagers(s, hs[..|hs| - 1], hs[i]);
    }
  }

  lemma {:induction false} DestroyAllKeepsManagers(s: State, hs: seq<nat>, h: nat)
    ensures DestroyAll(s, hs).managers == s.managers &&
            Hdl(DestroyAll(s, hs), h).mgr == (if h in s.handles || h in hs then Hdl(s, h).mgr else NO_HANDLE.mgr)
  {
    if hs != [] {
      DestroyAllKeepsManagers(s, hs[..|hs| - 1], h);
    }
  }

  // Nothing queued on a runtime with a live manager belongs to an earlier manager.
  ghost predicate FreshQueue(s: State, rt: nat) {
    SlotOf(s, rt, ForeignToplevel).alive ==>
      forall h :: h in PendingOf(s, rt) ==> !Mgr(s, Hdl(s, h).mgr).freed
  }

  // What the drain does to a state in which its queue is fresh.
  function Drained(s: State, rt: nat): State {
    var t := s.(pending := s.pending[rt := []]);
    if SlotOf(s, rt, ForeignToplevel).alive then Freed(t, Members(PendingOf(s, rt))) else t
  }

  lemma DrainedEffect(s: State, rt: nat, h: nat)
    ensures Hdl(Drained(s, rt), h) ==
            if h in s.handles && SlotOf(s, rt, ForeignToplevel).alive
            then FreedAs(s.handles[h], h, Members(PendingOf(s, rt))) else Hdl(s, h)
    ensures h in Drained(s, rt).handles <==> h in s.handles
  {
  }

  lemma DrainInOneStep(s: State, rt: nat)
    requires Inv(s) && s.stack.emissions == [] && FreshQueue(s, rt)
    ensures Drain(s, rt) == Drained(s, rt)
  {
    var t := s.(pending := s.pending[rt := []]);
    assert PendingOk(s, rt);
    if SlotOf(s, rt, ForeignToplevel).alive {
      DestroyAllFrees(t, PendingOf(s, rt));
    }
  }

  lemma DrainedBystander(s: State, rt: nat, h: nat)
    requires HandlesOk(s) && h in s.handles && h !in PendingOf(s, rt)
    ensures HandleOk(Drained(s, rt), h)
  {
    var t := Drained(s, rt);
    DrainedEffect(s, rt, h);
    assert HandleOk(s, h);
    if t.handles[h].target.Some? {
      DrainedEffect(s, rt, t.handles[h].target.value);
    }
    HandleFrame(s, t, h);
  }

  lemma DrainedMember(s: State, rt: nat, h: nat)
    requires LinksOk(s) && HandlesOk(s) && PendingOk(s, rt) && FreshQueue(s, rt)
    requires h in s.handles && h in PendingOf(s, rt)
    ensures HandleOk(Drained(s, rt), h)
  {
    var x := s.handles[h];
    DrainedEffect(s, rt, h);
    assert HandleOk(s, h);
    assert ManagerOk(s, x.mgr) && SlotOk(s, rt, ForeignToplevel);
  }

  lemma DrainedHandles(s: State, rt: nat)
    requires Inv(s) && s.stack.emissions == [] && FreshQueue(s, rt)
    ensures HandlesOk(Drained(s, rt))
  {
    forall h | h in Drained(s, rt).handles ensures HandleOk(Drained(s, rt), h) {
      if h in PendingOf(s, rt) {
        assert PendingOk(s, rt);
        DrainedMember(s, rt, h);
      } else {
        DrainedBystander(s, rt, h);
      }
    }
  }

  lemma DrainedQueues(s: State, rt: nat)
    requires Inv(s) && s.stack.emissions == [] && FreshQueue(s, rt)
    ensures QueuesOk(Drained(s, rt))
  {
    var t := Drained(s, rt);
    assert PendingOk(s, rt);
    forall r ensures PendingOk(t, r) {
      assert PendingOk(s, r);
      forall h | h in PendingOf(t, r) ensures t.handles[h] == s.handles[h].(target := t.handles[h].target) {
        DrainedEffect(s, rt, h);
      }
    }
  }

  lemma DrainedLinks(s: State, rt: nat)
    requires LinksOk(s)
    ensures LinksOk(Drained(s, rt))
  {
    var t := Drained(s, rt);
    forall h ensures Hdl(t, h).alive == Hdl(s, h).alive && Hdl(t, h).mgr == Hdl(s, h).mgr {
      DrainedEffect(s, rt, h);
    }
    LinksFrame(s, t);
  }

  lemma DrainKeepsInv(s: State, rt: nat)
    requires Inv(s) && s.stack.emissions == [] && FreshQueue(s, rt)
    ensures Inv(Drain(s, rt))
  {
    DrainInOneStep(s, rt);
    DrainedHandles(s, rt);
    DrainedQueues(s, rt);
    DrainedLinks(s, rt);
  }

  // What the drain does to its queue in any state of the invariant.
  lemma StaleQueueFaults(s: State, rt: nat)
    requires !FreshQueue(s, rt)
    ensures Drain(s, rt).fault
  {
    var t := s.(pending := s.pending[rt := []]);
    var queue := PendingOf(s, rt);
    var h :| h in queue && Mgr(s, Hdl(s, h).mgr).freed;
    var i: nat :| i < |queue| && queue[i] == h;
    DestroyAllFaults(t, queue, i);
  }

  /** The drain is free of faults exactly when nothing queued on a runtime with a live manager belongs to a freed
      one. */
  lemma DrainSafeIffFresh(s: State, rt: nat)
    requires Inv(s) && s.stack.emissions == []
    ensures !Drain(s, rt).fault <==> FreshQueue(s, rt)
    ensures FreshQueue(s, rt) ==> Inv(Drain(s, rt))
  {
    if FreshQueue(s, rt) {
      DrainKeepsInv(s, rt);
    } else {
      StaleQueueFaults(s, rt);
    }
  }

  // Runs.

  datatype Op =
    | NewManager(rt: nat, k: ManagerKind, m: nat, ok: bool)
    | NewHandle(rt: nat, kind: Kind, h: nat, ok: bool)
    | Retarget(h: nat, target: Option<nat>)
    | DropOf(h: nat)
    | DisplayDies(m: nat, order: seq<Listener>)
    | Guard(op: Guards.Op)
    | EmissionBegins(h: nat)
    | EmissionEnds
    | TurnEnds(rt: nat)

  function WithStack(s: State, k: Stack): State {
    s.(stack := k)
  }

  function Step(s: State, op: Op): State {
    match op
    case NewManager(rt, k, m, ok) => CreateManager(s, rt, k, m, ok)
    case NewHandle(rt, kind, h, ok) => CreateHandle(s, rt, kind, h, ok)
    case Retarget(h, target) => SetTarget(s, h, target)
    case DropOf(h) => DropHandle(s, h)
    case DisplayDies(m, order) => TearDown(s, m, order)
    case Guard(g) => WithStack(s, s.stack.(thread := Guards.Step(s.stack.thread, g)))
    case EmissionBegins(h) =>
      WithStack(s, s.stack.(emissions := s.stack.emissions + [Emission(h, |s.stack.thread.stack|)]))
    case EmissionEnds =>
      var e := s.stack.emissions;
      if e == [] then s else WithStack(s, s.stack.(emissions := e[..|e| - 1]))
    case TurnEnds(rt) => Drain(s, rt)
  }

  /** What wlroots, libwayland and the borrow checker allow.  New ids are fresh; a handle is used and dropped by its
      owner, while consumer code runs; guards and emissions nest; a run, with its display pin, starts under consumer
      code and is refused under a handler; a request signal is emitted only on an object that is not freed, by a loop
      turn that borrows its display; the drain comes after the loop turn has returned.  `emit` may be reached from
      anywhere. */
  ghost predicate Enabled(s: State, op: Op) {
    match op
    case NewManager(_, _, m, _) => ConsumerRuns(s) && m !in s.managers
    case NewHandle(_, _, h, _) => ConsumerRuns(s) && h !in s.handles
    case Retarget(h, target) => ConsumerRuns(s) && MayTarget(s, h, target) && s.handles[h].owned
                                && (target.Some? ==> s.handles[target.value].owned)
    case DropOf(h) => ConsumerRuns(s) && h in s.handles && s.handles[h].owned
    case DisplayDies(m, order) => ConsumerRuns(s) && MayTearDown(s, m, order)
    case Guard(Leave) => s.stack.thread.stack != [] && !OnEmission(s.stack)
    case Guard(EnterPin(_)) => ConsumerRuns(s) && !s.stack.thread.flags.inHandler
    case Guard(_) => true
    case EmissionBegins(h) => h in s.handles && s.handles[h].kind == Toplevel && !s.handles[h].freed
    case EmissionEnds => OnEmission(s.stack)
    case TurnEnds(_) => AtLoop(s)
  }

  function Run(ops: seq<Op>): State {
    if ops == [] then INITIAL else Step(Run(ops[..|ops| - 1]), ops[|ops| - 1])
  }

  ghost predicate Feasible(ops: seq<Op>) {
    ops == [] || (Feasible(ops[..|ops| - 1]) && Enabled(Run(ops[..|ops| - 1]), ops[|ops| - 1]))
  }

  // Every drain of the run finds a fresh queue.
  ghost predicate FreshDrains(ops: seq<Op>) {
    ops == [] ||
    (var front, op := ops[..|ops| - 1], ops[|ops| - 1];
     FreshDrains(front) && (op.TurnEnds? ==> FreshQueue(Run(front), op.rt)))
  }

  // No toplevel is dropped under its own emission with the delivery flag down.
  ghost predicate DropsDefer(ops: seq<Op>) {
    ops == [] ||
    (var front, op := ops[..|ops| - 1], ops[|ops| - 1];
     DropsDefer(front) && (op.DropOf? ==> DefersUnderEmission(Run(front), op.h)))
  }

  ghost predicate SafeStep(s: State, op: Op) {
    (op.TurnEnds? ==> FreshQueue(s, op.rt)) && (op.DropOf? ==> DefersUnderEmission(s, op.h))
  }

  ghost predicate SafeRun(ops: seq<Op>) {
    FreshDrains(ops) && DropsDefer(ops)
  }

  lemma StackStepKeepsInv(s: State, t: State)
    requires Inv(s) && t == WithStack(s, t.stack)
    requires forall h :: Emitting(t, h) ==>
               Emitting(s, h) || (h in s.handles && s.handles[h].kind == Toplevel && !s.handles[h].freed)
    ensures Inv(t)
  {
    LinksFrame(s, t);
    forall h | h in t.handles ensures HandleOk(t, h) {
      HandleFrame(s, t, h);
    }
    forall r ensures PendingOk(t, r) {
      assert PendingOk(s, r);
    }
  }

  lemma EmissionKeepsInv(s: State, op: Op)
    requires Inv(s) && Enabled(s, op) && (op.EmissionBegins? || op.EmissionEnds?)
    ensures Inv(Step(s, op))
  {
    var t := Step(s, op);
    var e, f := s.stack.emissions, t.stack.emissions;
    forall h | Emitting(t, h) ensures Emitting(s, h) || (op.EmissionBegins? && h == op.h) {
      var i :| 0 <= i < |f| && f[i].h == h;
      assert i < |e| ==> e[i] == f[i];
    }
    StackStepKeepsInv(s, t);
  }

  lemma StepKeepsInv(s: State, op: Op)
    requires Inv(s) && Enabled(s, op)
    requires SafeStep(s, op)
    ensures Inv(Step(s, op))
  {
    match op
    case NewManager(rt, k, m, ok) => CreateManagerKeepsInv(s, rt, k, m, ok);
    case NewHandle(rt, kind, h, ok) => CreateHandleKeepsInv(s, rt, kind, h, ok);
    case Retarget(h, target) => SetTargetKeepsInv(s, h, target);
    case DropOf(h) => DropKeepsInv(s, h);
    case DisplayDies(m, order) => TearDownKeepsInv(s, m, order);
    case Guard(_) =>
      assert forall h :: Emitting(Step(s, op), h) <==> Emitting(s, h);
      StackStepKeepsInv(s, Step(s, op));
    case EmissionBegins(_) => EmissionKeepsInv(s, op);
    case EmissionEnds => EmissionKeepsInv(s, op);
    case TurnEnds(rt) => DrainKeepsInv(s, rt);
  }

  // Dropping a live toplevel under its own emission with the flag down destroys it at once.
  lemma BareDropFaults(s: State, h: nat)
    requires Inv(s) && h in s.handles && !DefersUnderEmission(s, h)
    ensures DropHandle(s, h).fault
  {
    LiveHandleIsLinked(s, h);
    DropReleases(s, h);
    assert Emitting(Released(s, h), h);
  }

  lemma UnsafeStepFaults(s: State, op: Op)
    requires Inv(s) && Enabled(s, op) && !SafeStep(s, op)
    ensures Step(s, op).fault
  {
    if op.TurnEnds? {
      StaleQueueFaults(s, op.rt);
    } else {
      BareDropFaults(s, op.h);
    }
  }

  lemma {:induction false} EmissionFaultSticks(s: State, m: nat, order: seq<Listener>)
    requires s.fault
    ensures EmitDestroy(s, m, order).fault
  {
    if order != [] {
      EmissionFaultSticks(s, m, order[..|order| - 1]);
    }
  }

  lemma {:induction false} DestroyFaultSticks(s: State, hs: seq<nat>)
    requires s.fault
    ensures DestroyAll(s, hs).fault
  {
    if hs != [] {
      DestroyFaultSticks(s, hs[..|hs| - 1]);
    }
  }

  lemma FaultSticks(s: State, op: Op)
    requires s.fault
    ensures Step(s, op).fault
  {
    match op
    case DropOf(h) => DropIsSteady(s, h);
    case DisplayDies(m, order) => EmissionFaultSticks(s, m, order);
    case TurnEnds(rt) => DestroyFaultSticks(s.(pending := s.pending[rt := []]), PendingOf(s, rt));
    case _ =>
  }

  /** Safety over every run, and its exact condition.  No C call touches freed memory, unlinks a listener that is not
      linked, frees an object that is being emitted on, or frees a manager somebody listens to, if and only if every
      drain finds a fresh queue and every drop of a toplevel under its own emission finds the delivery flag up. */
  lemma {:induction false} FaultFreeIff(ops: seq<Op>)
    requires Feasible(ops)
    ensures !Run(ops).fault <==> SafeRun(ops)
    ensures !Run(ops).fault ==> Inv(Run(ops))
  {
    if ops == [] {
      assert Run(ops) == INITIAL;
    } else {
      var front, op := ops[..|ops| - 1], ops[|ops| - 1];
      FaultFreeIff(front);
      if Run(front).fault {
        FaultSticks(Run(front), op);
      } else if SafeStep(Run(front), op) {
        StepKeepsInv(Run(front), op);
      } else {
        UnsafeStepFaults(Run(front), op);
      }
    }
  }
}
