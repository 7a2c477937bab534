/** The thread-local flags of `dispatch.rs`, the RAII guards that keep them, and the refusals in
    `display.rs` that consult them. */
module ThreadGuards {
  import opened Wrappers

  // IN_HANDLER, IN_DELIVERY, FOREIGN_FRAMES and CURRENT_DISPLAY (0 when no display is pinned).
  datatype Flags = Flags(inHandler: bool, inDelivery: bool, foreignFrames: nat, display: nat)

  const CLEAR := Flags(false, false, 0, 0)

  type DisplayPtr = p: nat | 0 < p witness 1

  // A live guard and what it saved on the way in.  `d` names the dispatcher whose cell a handler guard set.
  datatype Guard =
    | Handler(d: nat, previous: bool, previousDelivery: bool)
    | Foreign(previous: bool)
    | Pin(pinned: Option<DisplayPtr>, previousDisplay: nat)

  // The thread: its flags, the dispatchers whose `in_dispatch` reads true, and the guards on the stack.
  datatype Thread = Thread(flags: Flags, inDispatch: set<nat>, stack: seq<Guard>)

  const IDLE := Thread(CLEAR, {}, [])

  // The operations a thread can perform, in any order; `Leave` drops the innermost guard.
  datatype Op = Emit(d: nat) | HandlerFrame(d: nat) | EnterForeign | EnterPin(display: Option<DisplayPtr>) | Leave

  function EnterHandler(t: Thread, d: nat): Thread {
    Thread(t.flags.(inHandler := true, inDelivery := true),
           t.inDispatch + {d},
           t.stack + [Handler(d, t.flags.inHandler, t.flags.inDelivery)])
  }

  // Dropping a guard.  A handler guard restores the two thread flags but clears the dispatcher's cell.  A foreign
  // frame is counted while it is on the stack (FlagsMirrorStack), so its decrement never meets 0.
  function Drop(t: Thread): Thread
    requires t.stack != []
  {
    var rest := t.stack[..|t.stack| - 1];
    match t.stack[|t.stack| - 1]
    case Handler(d, previous, previousDelivery) =>
      Thread(t.flags.(inHandler := previous, inDelivery := previousDelivery), t.inDispatch - {d}, rest)
    case Foreign(previous) =>
      Thread(t.flags.(inHandler := previous,
                      foreignFrames := if t.flags.foreignFrames == 0 then 0 else t.flags.foreignFrames - 1),
             t.inDispatch, rest)
    case Pin(_, previousDisplay) =>
      Thread(t.flags.(display := previousDisplay), t.inDispatch, rest)
  }

  // `emit` queues when its dispatcher is already dispatching; `in_handler_frame` never looks.
  function Step(t: Thread, op: Op): Thread {
    match op
    case Emit(d) => if d in t.inDispatch then t else EnterHandler(t, d)
    case HandlerFrame(d) => EnterHandler(t, d)
    case EnterForeign =>
      Thread(t.flags.(inHandler := true, foreignFrames := t.flags.foreignFrames + 1),
             t.inDispatch, t.stack + [Foreign(t.flags.inHandler)])
    case EnterPin(display) =>
      Thread(if display.Some? then t.flags.(display := display.value) else t.flags,
             t.inDispatch, t.stack + [Pin(display, t.flags.display)])
    case Leave => if t.stack == [] then t else Drop(t)
  }

  function Run(ops: seq<Op>): Thread {
    if ops == [] then IDLE else Step(Run(ops[..|ops| - 1]), ops[|ops| - 1])
  }

  datatype LoopError = Reentrant | Operation | Destroyed

  // `EventLoop::dispatch` and `Display::flush_clients`; `rc` is what libwayland returned.
  function EventLoopDispatch(f: Flags, rc: int): Result<(), LoopError> {
    if f.inHandler then Err(Reentrant) else if rc >= 0 then Ok(()) else Err(Operation)
  }

  function FlushClients(f: Flags): Option<()> {
    if f.inHandler then None else Some(())
  }

  // What the flags should say, read off the guards alone and not off anything they saved.
  ghost predicate AnyConsumer(stack: seq<Guard>) {
    exists i :: 0 <= i < |stack| && !stack[i].Pin?
  }

  ghost predicate AnyHandler(stack: seq<Guard>) {
    exists i :: 0 <= i < |stack| && stack[i].Handler?
  }

  function CountForeign(stack: seq<Guard>): nat {
    if stack == [] then 0
    else CountForeign(stack[..|stack| - 1]) + if stack[|stack| - 1].Foreign? then 1 else 0
  }

  function InnermostPin(stack: seq<Guard>): nat {
    if stack == [] then 0
    else
      var g := stack[|stack| - 1];
      if g.Pin? && g.pinned.Some? then g.pinned.value else InnermostPin(stack[..|stack| - 1])
  }

  ghost function Mirror(stack: seq<Guard>): Flags {
    Flags(AnyConsumer(stack), AnyHandler(stack), CountForeign(stack), InnermostPin(stack))
  }

  // Every guard saved what the flags read when it was entered.
  ghost predicate Coherent(stack: seq<Guard>) {
    stack == [] ||
    (var rest := stack[..|stack| - 1];
     var was := Mirror(rest);
     Coherent(rest) &&
     match stack[|stack| - 1]
     case Handler(_, previous, previousDelivery) => previous == was.inHandler && previousDelivery == was.inDelivery
     case Foreign(previous) => previous == was.inHandler
     case Pin(_, previousDisplay) => previousDisplay == was.display)
  }

  lemma MirrorPush(stack: seq<Guard>, g: Guard)
    ensures var m, n := Mirror(stack), Mirror(stack + [g]);
            && n.inHandler == (m.inHandler || !g.Pin?)
            && n.inDelivery == (m.inDelivery || g.Handler?)
            && n.foreignFrames == m.foreignFrames + (if g.Foreign? then 1 else 0)
            && n.display == if g.Pin? && g.pinned.Some? then g.pinned.value else m.display
  {
    var s := stack + [g];
    assert s[..|s| - 1] == stack && s[|stack|] == g;
    if AnyConsumer(stack) {
      var i :| 0 <= i < |stack| && !stack[i].Pin?;
      assert !s[i].Pin?;
    }
    if AnyHandler(stack) {
      var i :| 0 <= i < |stack| && stack[i].Handler?;
      assert s[i].Handler?;
    }
  }

  lemma LeaveKeepsMirror(t: Thread)
    requires t.stack != [] && t.flags == Mirror(t.stack) && Coherent(t.stack)
    ensures Drop(t).flags == Mirror(Drop(t).stack) && Coherent(Drop(t).stack)
  {
    var rest, g := t.stack[..|t.stack| - 1], t.stack[|t.stack| - 1];
    assert t.stack == rest + [g];
    MirrorPush(rest, g);
  }

  lemma PushKeepsMirror(t: Thread, u: Thread, g: Guard)
    requires t.flags == Mirror(t.stack) && Coherent(t.stack) && u.stack == t.stack + [g]
    requires u.flags.inHandler == (t.flags.inHandler || !g.Pin?)
    requires u.flags.inDelivery == (t.flags.inDelivery || g.Handler?)
    requires u.flags.foreignFrames == t.flags.foreignFrames + if g.Foreign? then 1 else 0
    requires u.flags.display == if g.Pin? && g.pinned.Some? then g.pinned.value else t.flags.display
    requires g.Handler? ==> g.previous == t.flags.inHandler && g.previousDelivery == t.flags.inDelivery
    requires g.Foreign? ==> g.previous == t.flags.inHandler
    requires g.Pin? ==> g.previousDisplay == t.flags.display
    ensures u.flags == Mirror(u.stack) && Coherent(u.stack)
  {
    MirrorPush(t.stack, g);
    assert u.stack[..|u.stack| - 1] == t.stack && u.stack[|u.stack| - 1] == g;
  }

  lemma StepKeepsMirror(t: Thread, op: Op)
    requires t.flags == Mirror(t.stack) && Coherent(t.stack)
    ensures Step(t, op).flags == Mirror(Step(t, op).stack) && Coherent(Step(t, op).stack)
  {
    match op
    case Emit(d) =>
      if d !in t.inDispatch {
        PushKeepsMirror(t, EnterHandler(t, d), Handler(d, t.flags.inHandler, t.flags.inDelivery));
      }
    case HandlerFrame(d) =>
      PushKeepsMirror(t, EnterHandler(t, d), Handler(d, t.flags.inHandler, t.flags.inDelivery));
    case EnterForeign => PushKeepsMirror(t, Step(t, op), Foreign(t.flags.inHandler));
    case EnterPin(display) => PushKeepsMirror(t, Step(t, op), Pin(display, t.flags.display));
    case Leave =>
      if t.stack != [] {
        LeaveKeepsMirror(t);
      }
  }

  /** For every nesting of handler guards, foreign frames and display pins, over any number of dispatchers,
      the four thread-locals say exactly what is on the stack. */
  lemma {:induction false} FlagsMirrorStack(ops: seq<Op>)
    ensures Run(ops).flags == Mirror(Run(ops).stack) && Coherent(Run(ops).stack)
  {
    if ops != [] {
      FlagsMirrorStack(ops[..|ops| - 1]);
      StepKeepsMirror(Run(ops[..|ops| - 1]), ops[|ops| - 1]);
    }
  }

  /** No loop turn and no client flush starts under a handler or foreign frame, and none is refused otherwise. */
  lemma RefusedExactlyUnderConsumerCode(ops: seq<Op>, rc: int)
    ensures var t := Run(ops);
            && (EventLoopDispatch(t.flags, rc) == Err(Reentrant) <==>
                exists i :: 0 <= i < |t.stack| && !t.stack[i].Pin?)
            && (FlushClients(t.flags) == None <==> exists i :: 0 <= i < |t.stack| && !t.stack[i].Pin?)
  {
    FlagsMirrorStack(ops);
  }

  // Live `&mut S` borrows of dispatcher d: one per handler guard on the stack.
  function Holders(stack: seq<Guard>, d: nat): nat {
    if stack == [] then 0
    else
      var g := stack[|stack| - 1];
      Holders(stack[..|stack| - 1], d) + if g.Handler? && g.d == d then 1 else 0
  }

  // The caller's side of `in_handler_frame`: it is entered only while its dispatcher is not dispatching.
  ghost predicate Guarded(ops: seq<Op>) {
    ops == [] ||
    (var before := ops[..|ops| - 1];
     var op := ops[|ops| - 1];
     Guarded(before) && (op.HandlerFrame? ==> op.d !in Run(before).inDispatch))
  }

  ghost predicate Exclusive(t: Thread) {
    forall d :: Holders(t.stack, d) == if d in t.inDispatch then 1 else 0
  }

  lemma HoldersPush(stack: seq<Guard>, g: Guard, d: nat)
    ensures Holders(stack + [g], d) == Holders(stack, d) + if g.Handler? && g.d == d then 1 else 0
  {
    var s := stack + [g];
    assert s[..|s| - 1] == stack;
  }

  lemma StepKeepsHolders(t: Thread, op: Op, d: nat)
    requires Holders(t.stack, d) == (if d in t.inDispatch then 1 else 0) && (op.HandlerFrame? ==> op.d !in t.inDispatch)
    ensures Holders(Step(t, op).stack, d) == if d in Step(t, op).inDispatch then 1 else 0
  {
    match op
    case Emit(e) => HoldersPush(t.stack, Handler(e, t.flags.inHandler, t.flags.inDelivery), d);
    case HandlerFrame(e) => HoldersPush(t.stack, Handler(e, t.flags.inHandler, t.flags.inDelivery), d);
    case EnterForeign => HoldersPush(t.stack, Foreign(t.flags.inHandler), d);
    case EnterPin(display) => HoldersPush(t.stack, Pin(display, t.flags.display), d);
    case Leave =>
      if t.stack != [] {
        var rest, g := t.stack[..|t.stack| - 1], t.stack[|t.stack| - 1];
        assert t.stack == rest + [g];
        HoldersPush(rest, g, d);
      }
  }

  lemma StepKeepsExclusive(t: Thread, op: Op)
    requires Exclusive(t) && (op.HandlerFrame? ==> op.d !in t.inDispatch)
    ensures Exclusive(Step(t, op))
  {
    forall d ensures Holders(Step(t, op).stack, d) == if d in Step(t, op).inDispatch then 1 else 0 {
      StepKeepsHolders(t, op, d);
    }
  }

  lemma {:induction false} GuardedRunIsExclusive(ops: seq<Op>)
    requires Guarded(ops)
    ensures Exclusive(Run(ops))
  {
    if ops != [] {
      GuardedRunIsExclusive(ops[..|ops| - 1]);
      StepKeepsExclusive(Run(ops[..|ops| - 1]), ops[|ops| - 1]);
    }
  }

  // At no moment of the run did any dispatcher have two handlers holding its state.
  ghost predicate NeverAliased(ops: seq<Op>) {
    (forall d :: Holders(Run(ops).stack, d) <= 1) && (ops == [] || NeverAliased(ops[..|ops| - 1]))
  }

  /** There is never a second `&mut S` if, and only if, `in_handler_frame` is only ever entered while its own
      dispatcher is not dispatching. */
  lemma {:induction false} NeverAliasedIffGuarded(ops: seq<Op>)
    ensures NeverAliased(ops) <==> Guarded(ops)
  {
    if ops != [] {
      var before, op := ops[..|ops| - 1], ops[|ops| - 1];
      NeverAliasedIffGuarded(before);
      if Guarded(before) {
        GuardedRunIsExclusive(before);
        assert Run(ops) == Step(Run(before), op);
        if op.HandlerFrame? {
          HoldersPush(Run(before).stack, Handler(op.d, Run(before).flags.inHandler, Run(before).flags.inDelivery),
                      op.d);
          assert Holders(Run(ops).stack, op.d) == Holders(Run(before).stack, op.d) + 1;
        }
        if Guarded(ops) {
          GuardedRunIsExclusive(ops);
        }
      }
    }
  }

  /** What goes wrong otherwise.  A frame entered under a delivery of its own dispatcher clears the flag on the
      way out although that delivery is still running, so the next `emit` runs a second handler. */
  lemma FrameUnderDeliveryReopensEmit(ops: seq<Op>, d: nat)
    requires Guarded(ops) && d in Run(ops).inDispatch
    ensures var t := Run(ops + [HandlerFrame(d), Leave]);
            t.stack == Run(ops).stack && d !in t.inDispatch && Holders(Step(t, Emit(d)).stack, d) == 2
  {
    var s := Run(ops);
    var one, two := ops + [HandlerFrame(d)], ops + [HandlerFrame(d), Leave];
    assert one[..|ops|] == ops && two[..|ops| + 1] == one;
    var t := Run(two);
    assert Run(one) == EnterHandler(s, d) && two[|two| - 1] == Leave;
    assert t == Drop(EnterHandler(s, d));
    assert t.stack == s.stack;
    GuardedRunIsExclusive(ops);
    HoldersPush(t.stack, Handler(d, t.flags.inHandler, t.flags.inDelivery), d);
  }

  // The delivery that makes the previous lemma's hypotheses true: one emit, and its handler calls the frame.
  lemma FrameUnderDeliveryIsReachable()
    ensures Guarded([Emit(0)]) && 0 in Run([Emit(0)]).inDispatch
  {
    assert [Emit(0)][..0] == [];
  }
}
