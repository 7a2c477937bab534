/** The code of `owned_handle.rs`, `ext_workspace.rs` and `foreign_toplevel.rs`, step by step, over mutable state.

    The methods named after C calls record in `fault` whether wlroots' demand was met; nothing is assumed about the
    state they are called in.  Every method of the crate is proved to do what the machine of `Teardown` says. */
module TeardownCode {
  import opened Wrappers
  import opened Seqs
  import opened Teardown
  import opened TeardownSafety
  import opened TeardownRuns

  class World {
    var managers: map<nat, Manager>
    var slots: map<(nat, ManagerKind), Slot>
    var handles: map<nat, Handle>
    var pending: map<nat, seq<nat>>
    var stack: Stack
    // Whether some C call's demand was missed.
    var fault: bool

    constructor ()
      ensures Abs() == INITIAL
    {
      managers, slots, handles, pending, stack, fault := map[], map[], map[], map[], EMPTY_STACK, false;
    }

    // The state of the machine.
    function Abs(): State
      reads this
    {
      State(managers, slots, handles, pending, stack, fault)
    }

    // The handle with that id.
    function At(h: nat): Handle
      reads this
    {
      Hdl(Abs(), h)
    }

    // `remove_listener` on the watch of a handle, which must be linked into a manager that is not freed.
    method RemoveListener(h: nat)
      modifies this
      ensures Abs() == UnlinkWatch(old(Abs()), h)
    {
      var m := At(h).mgr;
      var x := Mgr(Abs(), m);
      fault := fault || x.freed || HandleWatch(h) !in x.listeners;
      handles := handles[h := At(h).(watchUnlinks := At(h).watchUnlinks + 1)];
      managers := managers[m := x.(listeners := x.listeners - {HandleWatch(h)})];
    }

    // Taking the stored registration and dropping it.
    method DropRegistration(h: nat)
      modifies this
      ensures Abs() == DropWatch(old(Abs()), h)
    {
      var watch := At(h).watch;
      handles := handles[h := At(h).(watch := false)];
      if watch && At(h).alive {
        RemoveListener(h);
      }
    }

    // Clearing the request listeners: the object whose signals they are linked into must not be freed.
    method ClearRequestListeners(h: nat)
      modifies this
      ensures Abs() == ClearRequests(old(Abs()), h)
    {
      if At(h).requests {
        fault := fault || At(h).freed;
        handles := handles[h := At(h).(requests := false, requestUnlinks := At(h).requestUnlinks + 1)];
      }
    }

    /** `take_live_raw`. */
    method TakeLiveRaw(h: nat) returns (raw: Option<nat>)
      modifies this
      ensures raw == if old(At(h)).alive then Some(h) else None
      ensures Abs() == if raw.Some? then TakeLive(old(Abs()), h) else old(Abs())
      ensures raw.Some? && Linked(old(Abs()), h) ==>
                fault == old(fault) && At(h).watchUnlinks == old(At(h).watchUnlinks) + 1
    {
      if !At(h).alive {
        return None;
      }
      if Linked(Abs(), h) {
        TakeLiveUnlinksOnce(Abs(), h);
      }
      DropRegistration(h);
      handles := handles[h := At(h).(alive := false)];
      raw := Some(h);
    }

    // The wlroots destroy of an object: it and its manager must not be freed, and no signal of it may be on the stack.
    method WlrDestroy(h: nat)
      modifies this
      ensures Abs() == Destroy(old(Abs()), h)
    {
      var x := At(h);
      fault := fault || x.freed || Mgr(Abs(), x.mgr).freed || Emitting(Abs(), h);
      handles := Untargeted(handles, h)[h := x.(freed := true, target := None, destroys := x.destroys + 1)];
    }

    /** `Drop` of a group or workspace handle. */
    method DropOwned(h: nat)
      requires At(h).kind != Toplevel
      modifies this
      ensures Abs() == DropHandle(old(Abs()), h)
    {
      handles := handles[h := At(h).(owned := false)];
      var raw := TakeLiveRaw(h);
      if raw.Some? {
        WlrDestroy(raw.value);
      }
    }

    // `defer_foreign_toplevel_destroy`.
    method DeferDestroy(rt: nat, h: nat)
      modifies this`pending
      ensures pending == old(pending)[rt := old(PendingOf(Abs(), rt)) + [h]]
    {
      pending := pending[rt := (if rt in pending then pending[rt] else []) + [h]];
    }

    /** `Drop` of a toplevel handle: the destroy is deferred when the thread's delivery flag is up. */
    method DropToplevel(h: nat)
      requires At(h).kind == Toplevel
      modifies this
      ensures Abs() == DropHandle(old(Abs()), h)
    {
      handles := handles[h := At(h).(owned := false)];
      if !At(h).alive {
        return;
      }
      ClearRequestListeners(h);
      DropRegistration(h);
      handles := handles[h := At(h).(alive := false)];
      if stack.thread.flags.inDelivery {
        DeferDestroy(At(h).rt, h);
      } else {
        WlrDestroy(h);
      }
    }

    /** `on_watched_destroy` and, with request listeners to clear, `on_manager_destroy`. */
    method OnWatchedDestroy(h: nat)
      modifies this
      ensures Abs() == OnHandleWatch(old(Abs()), h)
      ensures Linked(old(Abs()), h) ==> fault == old(fault) && At(h) == Inert(old(At(h)))
    {
      if Linked(Abs(), h) {
        CallbackUnlinksOnce(Abs(), h);
      }
      handles := handles[h := At(h).(alive := false)];
      ClearRequestListeners(h);
      RemoveListener(h);
      DropRegistration(h);
    }

    // `remove_listener` on the watch of a runtime.
    method RemoveRuntimeWatch(m: nat)
      modifies this
      ensures Abs() == UnlinkRuntimeWatch(old(Abs()), m)
    {
      var x := Mgr(Abs(), m);
      fault := fault || x.freed || RuntimeWatch !in x.listeners;
      managers := managers[m := x.(listeners := x.listeners - {RuntimeWatch}, unlinks := x.unlinks + 1)];
    }

    // Storing a registration, or none, in a runtime, which drops the one stored before.
    method StoreRuntimeRegistration(key: (nat, ManagerKind), watch: Option<nat>)
      modifies this
      ensures var slot := SlotOf(old(Abs()), key.0, key.1);
              var t := old(Abs()).(slots := old(slots)[key := slot.(watch := watch)]);
              Abs() == if slot.watch.Some? && slot.alive then UnlinkRuntimeWatch(t, slot.watch.value) else t
    {
      var previous := SlotOf(Abs(), key.0, key.1).watch;
      slots := slots[key := SlotOf(Abs(), key.0, key.1).(watch := watch)];
      if previous.Some? && slots[key].alive {
        RemoveRuntimeWatch(previous.value);
      }
    }

    /** `on_ext_workspace_manager_destroy` and `on_foreign_toplevel_manager_destroy`. */
    method OnManagerDestroy(m: nat)
      modifies this
      ensures Abs() == OnRuntimeWatch(old(Abs()), m)
    {
      var key := (Mgr(Abs(), m).rt, Mgr(Abs(), m).kind);
      slots := slots[key := SlotOf(Abs(), key.0, key.1).(alive := false)];
      slots := slots[key := slots[key].(pointer := None)];
      RemoveRuntimeWatch(m);
      StoreRuntimeRegistration(key, None);
    }

    /** Creating a manager: an error while the slot holds a pointer, or when wlroots returns none. */
    method CreateManager(rt: nat, k: ManagerKind, m: nat, ok: bool) returns (created: bool)
      modifies this
      ensures Abs() == Teardown.CreateManager(old(Abs()), rt, k, m, ok)
      ensures created <==> ok && old(SlotOf(Abs(), rt, k)).pointer == None
      ensures created ==>
                && SlotOf(Abs(), rt, k) == Slot(Some(m), true, Some(m)) && m in managers
                && (old(SlotOf(Abs(), rt, k)).watch == None ==>
                      managers[m] == Manager(k, rt, false, {RuntimeWatch}, 0) && fault == old(fault))
      ensures !created ==> Abs() == old(Abs())
    {
      if ((rt, k) in slots && slots[(rt, k)].pointer.Some?) || !ok {
        return false;
      }
      managers := managers[m := Manager(k, rt, false, {}, 0)];
      slots := slots[(rt, k) := SlotOf(Abs(), rt, k).(pointer := Some(m))];
      slots := slots[(rt, k) := slots[(rt, k)].(alive := true)];
      managers := managers[m := managers[m].(listeners := managers[m].listeners + {RuntimeWatch})];
      assert managers[m].listeners == {RuntimeWatch};
      assert managers == old(managers)[m := Manager(k, rt, false, {RuntimeWatch}, 0)];
      ghost var stored := slots[(rt, k)].(watch := Some(m));
      assert slots[(rt, k) := stored] == old(slots)[(rt, k) := stored];
      StoreRuntimeRegistration((rt, k), Some(m));
      created := true;
    }

    // `link_watched` into the manager's `destroy` signal, which must be alive.
    method LinkManagerWatch(m: nat, h: nat)
      modifies this
      ensures var x := Mgr(old(Abs()), m);
              Abs() == old(Abs()).(managers := old(managers)[m := x.(listeners := x.listeners + {HandleWatch(h)})],
                                   handles := old(handles)[h := old(At(h)).(watch := true)],
                                   fault := old(fault) || x.freed)
    {
      var x := Mgr(Abs(), m);
      fault := fault || x.freed;
      managers := managers[m := x.(listeners := x.listeners + {HandleWatch(h)})];
      handles := handles[h := At(h).(watch := true)];
    }

    /** Creating a group, a workspace or a toplevel against the runtime's manager. */
    method CreateHandle(rt: nat, k: Kind, h: nat, ok: bool) returns (created: bool)
      modifies this
      ensures Abs() == Teardown.CreateHandle(old(Abs()), rt, k, h, ok)
      ensures var slot := old(SlotOf(Abs(), rt, if k.Toplevel? then ForeignToplevel else ExtWorkspace));
              && (created <==> ok && slot.alive && slot.pointer.Some?)
              && (created ==>
                    var m := slot.pointer.value;
                    && At(h) == Handle(k, rt, m, true, true, k.Toplevel?, true, false, None, 0, 0, 0)
                    && Mgr(Abs(), m).listeners == Mgr(old(Abs()), m).listeners + {HandleWatch(h)}
                    && fault == (old(fault) || Mgr(old(Abs()), m).freed))
      ensures !created ==> Abs() == old(Abs())
    {
      var key := (rt, ManagerOf(k));
      if key !in slots || !slots[key].alive || slots[key].pointer == None || !ok {
        return false;
      }
      var m := slots[key].pointer.value;
      handles := handles[h := Handle(k, rt, m, true, false, k.Toplevel?, true, false, None, 0, 0, 0)];
      LinkManagerWatch(m, h);
      Overwrite(old(handles), h, Handle(k, rt, m, true, false, k.Toplevel?, true, false, None, 0, 0, 0), At(h));
      created := true;
    }

    /** `set_group` and `set_parent`: the objects handed to wlroots, and their manager, must not be freed. */
    method SetTarget(h: nat, target: Option<nat>) returns (done: bool)
      modifies this
      ensures Abs() == Teardown.SetTarget(old(Abs()), h, target)
      ensures done <==> old(At(h)).alive &&
                        (target.Some? ==> old(At(target.value)).alive && old(At(target.value).rt == At(h).rt))
      ensures done ==>
                && handles == old(handles)[h := old(At(h)).(target := target)]
                && managers == old(managers) && slots == old(slots) && pending == old(pending) && stack == old(stack)
                && fault == (old(fault) || old(At(h)).freed || Mgr(old(Abs()), old(At(h)).mgr).freed ||
                             (target.Some? && old(At(target.value)).freed))
      ensures !done ==> Abs() == old(Abs())
    {
      if !At(h).alive {
        return false;
      }
      if target.Some? {
        if At(target.value).rt != At(h).rt {
          return false;
        }
        if !At(target.value).alive {
          return false;
        }
        fault := fault || At(target.value).freed;
      }
      fault := fault || At(h).freed || Mgr(Abs(), At(h).mgr).freed;
      handles := handles[h := At(h).(target := target)];
      done := true;
    }

    // wlroots' `destroy` emission of a manager, calling the listeners in some order.
    method EmitDestroyOf(m: nat, order: seq<Listener>)
      modifies this
      ensures Abs() == EmitDestroy(old(Abs()), m, order)
    {
      ghost var s := Abs();
      for i := 0 to |order|
        invariant Abs() == EmitDestroy(s, m, order[..i])
      {
        assert order[..i + 1][..i] == order[..i];
        match order[i]
        case RuntimeWatch => OnManagerDestroy(m);
        case HandleWatch(h) => OnWatchedDestroy(h);
      }
      TakeAll(order);
    }

    // wlroots frees the manager and its objects, asserting that nobody listens any more.
    method FreeManager(m: nat)
      modifies this
      ensures Abs() == Teardown.FreeManager(old(Abs()), m)
    {
      var x := Mgr(Abs(), m);
      fault := fault || x.listeners != {} || EmittingUnder(Abs(), m);
      handles := map h | h in handles :: if handles[h].mgr == m then handles[h].(freed := true) else handles[h];
      managers := managers[m := x.(freed := true)];
    }

    /** Display teardown. */
    method TearDown(m: nat, order: seq<Listener>)
      modifies this
      ensures Abs() == Teardown.TearDown(old(Abs()), m, order)
    {
      EmitDestroyOf(m, order);
      FreeManager(m);
    }

    // The loop of the drain.
    method DestroyQueued(queue: seq<nat>)
      modifies this
      ensures Abs() == DestroyAll(old(Abs()), queue)
    {
      ghost var t := Abs();
      for i := 0 to |queue|
        invariant Abs() == DestroyAll(t, queue[..i])
      {
        assert queue[..i + 1][..i] == queue[..i];
        WlrDestroy(queue[i]);
      }
      TakeAll(queue);
    }

    /** `drain_pending_foreign_toplevel_destroys`, whatever is queued. */
    method Drain(rt: nat)
      modifies this
      ensures Abs() == Teardown.Drain(old(Abs()), rt)
    {
      var queue := if rt in pending then pending[rt] else [];
      pending := pending[rt := []];
      if (rt, ForeignToplevel) in slots && slots[(rt, ForeignToplevel)].alive {
        DestroyQueued(queue);
      }
    }

    // One operation of a run.
    method Execute(op: Op)
      modifies this
      ensures Abs() == Step(old(Abs()), op)
    {
      match op
      case NewManager(rt, k, m, ok) => var created := CreateManager(rt, k, m, ok);
      case NewHandle(rt, kind, h, ok) => var created := CreateHandle(rt, kind, h, ok);
      case Retarget(h, target) => var done := SetTarget(h, target);
      case DropOf(h) =>
        if At(h).kind == Toplevel {
          DropToplevel(h);
        } else {
          DropOwned(h);
        }
      case DisplayDies(m, order) => TearDown(m, order);
      case Guard(g) => stack := stack.(thread := Guards.Step(stack.thread, g));
      case EmissionBegins(h) => stack := stack.(emissions := stack.emissions + [Emission(h, |stack.thread.stack|)]);
      case EmissionEnds =>
        if stack.emissions != [] {
          stack := stack.(emissions := stack.emissions[..|stack.emissions| - 1]);
        }
      case TurnEnds(rt) => Drain(rt);
    }

    /** Any run: the state is the machine's, and every demand of wlroots was met if and only if every drain found a
        fresh queue and every drop under its own emission found the flag up. */
    method RunAll(ops: seq<Op>)
      requires Abs() == INITIAL && Feasible(ops)
      modifies this
      ensures Abs() == Run(ops) && (!fault <==> FreshDrains(ops) && DropsDefer(ops))
    {
      for i := 0 to |ops|
        invariant Abs() == Run(ops[..i])
      {
        Execute(ops[i]);
        assert ops[..i + 1][..i] == ops[..i];
      }
      TakeAll(ops);
      FaultFreeIff(ops);
    }
  }
}
