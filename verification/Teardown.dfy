/** Owned handles whose manager may die first: `ext_workspace.rs` and `foreign_toplevel.rs` as one machine.

    A state holds the managers and objects of wlroots, the slots of the runtimes, the Rust handles, the destroys a
    runtime deferred, and the frames on the stack.  `fault` becomes true when a C call touches freed memory, unlinks
    a listener that is not linked, or frees an object whose signal is being emitted. */
module Teardown {
  import opened Wrappers
  import Guards = ThreadGuards

  datatype Kind = Group | Workspace | Toplevel

  datatype ManagerKind = ExtWorkspace | ForeignToplevel

  function ManagerOf(k: Kind): ManagerKind {
    if k.Toplevel? then ForeignToplevel else ExtWorkspace
  }

  // A listener on the `destroy` signal of a manager: the runtime's own watch, or the watch of a handle.
  datatype Listener = RuntimeWatch | HandleWatch(h: nat)

  // `unlinks` counts how often the runtime's watch was unlinked from this manager.
  datatype Manager = Manager(kind: ManagerKind, rt: nat, freed: bool, listeners: set<Listener>, unlinks: nat)

  // What `RuntimeInner` stores per manager kind: the pointer, the liveness flag, and the manager whose watch it holds.
  datatype Slot = Slot(pointer: Option<nat>, alive: bool, watch: Option<nat>)

  const NO_SLOT := Slot(None, false, None)

  /** A Rust handle and its wlroots object.  `watch` and `requests` say whether the registrations are still held (the
      six request listeners are cleared together), `owned` whether the Rust value was not dropped yet, `freed` whether
      the object's memory is gone, by one of its `destroys` or with its manager, `target` its group or parent
      pointer. */
  datatype Handle = Handle(kind: Kind, rt: nat, mgr: nat, alive: bool, watch: bool, requests: bool, owned: bool,
                           freed: bool, target: Option<nat>, watchUnlinks: nat, requestUnlinks: nat, destroys: nat)

  // wlroots emitting a request signal of toplevel h; `depth` guards were on the stack when it began.
  datatype Emission = Emission(h: nat, depth: nat)

  /** The call stack: the guards of the thread with the flags they keep, and the emissions that run between them,
      outermost first. */
  datatype Stack = Stack(thread: Guards.Thread, emissions: seq<Emission>)

  datatype State = State(managers: map<nat, Manager>, slots: map<(nat, ManagerKind), Slot>, handles: map<nat, Handle>,
                         pending: map<nat, seq<nat>>, stack: Stack, fault: bool)

  const EMPTY_STACK := Stack(Guards.IDLE, [])

  const INITIAL := State(map[], map[], map[], map[], EMPTY_STACK, false)

  function SlotOf(s: State, rt: nat, k: ManagerKind): Slot {
    if (rt, k) in s.slots then s.slots[(rt, k)] else NO_SLOT
  }

  function PendingOf(s: State, rt: nat): seq<nat> {
    if rt in s.pending then s.pending[rt] else []
  }

  // `in_delivery()`.
  predicate InDelivery(s: State) {
    s.stack.thread.flags.inDelivery
  }

  // The innermost frame is an emission: wlroots' own code runs.
  predicate OnEmission(k: Stack) {
    k.emissions != [] && k.emissions[|k.emissions| - 1].depth >= |k.thread.stack|
  }

  /** Consumer code runs at the bottom of the stack, or directly under a handler guard or a foreign frame.  Under a bare
      emission wlroots runs, and under a display pin the loop of a run. */
  predicate ConsumerRuns(s: State) {
    var guards := s.stack.thread.stack;
    !OnEmission(s.stack) && (guards != [] ==> !guards[|guards| - 1].Pin?)
  }

  // The loop turn has returned: nothing but pins is left on the stack.
  predicate AtLoop(s: State) {
    s.stack.emissions == [] && forall i :: 0 <= i < |s.stack.thread.stack| ==> s.stack.thread.stack[i].Pin?
  }

  predicate Emitting(s: State, h: nat) {
    exists i :: 0 <= i < |s.stack.emissions| && s.stack.emissions[i].h == h
  }

  // A signal of one of the manager's objects is being emitted.
  predicate EmittingUnder(s: State, m: nat) {
    exists i :: 0 <= i < |s.stack.emissions| && Hdl(s, s.stack.emissions[i].h).mgr == m
  }

  // What an unknown id reads as: a freed manager, an inert handle to a freed object.
  const NO_MANAGER := Manager(ExtWorkspace, 0, true, {}, 0)
  const NO_HANDLE := Handle(Group, 0, 0, false, false, false, false, true, None, 0, 0, 0)

  function Mgr(s: State, m: nat): Manager {
    if m in s.managers then s.managers[m] else NO_MANAGER
  }

  function Hdl(s: State, h: nat): Handle {
    if h in s.handles then s.handles[h] else NO_HANDLE
  }

  // `wl_list_remove` on the watch of handle h.
  function UnlinkWatch(s: State, h: nat): State {
    var x := Hdl(s, h);
    var m := Mgr(s, x.mgr);
    s.(handles := s.handles[h := x.(watchUnlinks := x.watchUnlinks + 1)],
       managers := s.managers[x.mgr := m.(listeners := m.listeners - {HandleWatch(h)})],
       fault := s.fault || m.freed || HandleWatch(h) !in m.listeners)
  }

  // Taking the stored watch and dropping it: `Registration::drop` unlinks only while `alive` is true.
  function DropWatch(s: State, h: nat): State {
    var x := Hdl(s, h);
    var t := s.(handles := s.handles[h := x.(watch := false)]);
    if x.watch && x.alive then UnlinkWatch(t, h) else t
  }

  // Clearing the request listeners, which always unlinks them from the signals of the object.
  function ClearRequests(s: State, h: nat): State {
    var x := Hdl(s, h);
    if x.requests then
      s.(handles := s.handles[h := x.(requests := false, requestUnlinks := x.requestUnlinks + 1)],
         fault := s.fault || x.freed)
    else s
  }

  function MarkDead(s: State, h: nat): State {
    s.(handles := s.handles[h := Hdl(s, h).(alive := false)])
  }

  // Every pointer to h nulled.
  function Untargeted(handles: map<nat, Handle>, h: nat): map<nat, Handle> {
    map y | y in handles :: if handles[y].target == Some(h) then handles[y].(target := None) else handles[y]
  }

  // The wlroots destroy of an object: frees it, and nulls every pointer that names it.
  function Destroy(s: State, h: nat): State {
    var x := Hdl(s, h);
    s.(handles := Untargeted(s.handles, h)[h := x.(freed := true, target := None, destroys := x.destroys + 1)],
       fault := s.fault || x.freed || Mgr(s, x.mgr).freed || Emitting(s, h))
  }

  // `take_live_raw`: drop the watch, then mark dead.
  function TakeLive(s: State, h: nat): State {
    MarkDead(DropWatch(s, h), h)
  }

  /** `Drop` of a handle.  A toplevel also clears its request listeners first, and defers the destroy inside a
      delivery. */
  function DropHandle(s: State, h: nat): State {
    var x := Hdl(s, h);
    var t := s.(handles := s.handles[h := x.(owned := false)]);
    if !x.alive then t
    else if x.kind != Toplevel then Destroy(TakeLive(t, h), h)
    else
      var u := TakeLive(ClearRequests(t, h), h);
      if InDelivery(s) then u.(pending := u.pending[x.rt := PendingOf(u, x.rt) + [h]]) else Destroy(u, h)
  }

  /** The manager-death callback of a handle: mark dead, clear the request listeners, unlink the firing listener, then
      drop the stored registration. */
  function OnHandleWatch(s: State, h: nat): State {
    DropWatch(UnlinkWatch(ClearRequests(MarkDead(s, h), h), h), h)
  }

  function UnlinkRuntimeWatch(s: State, m: nat): State {
    var x := Mgr(s, m);
    s.(managers := s.managers[m := x.(listeners := x.listeners - {RuntimeWatch}, unlinks := x.unlinks + 1)],
       fault := s.fault || x.freed || RuntimeWatch !in x.listeners)
  }

  /** The manager-death callback of a runtime: clear the flag and the pointer, unlink the firing listener, then drop
      the stored registration. */
  function OnRuntimeWatch(s: State, m: nat): State {
    var key := (Mgr(s, m).rt, Mgr(s, m).kind);
    var slot := SlotOf(s, key.0, key.1);
    var t := s.(slots := s.slots[key := slot.(alive := false, pointer := None)]);
    var u := UnlinkRuntimeWatch(t, m);
    var v := u.(slots := u.slots[key := SlotOf(u, key.0, key.1).(watch := None)]);
    if slot.watch.Some? && SlotOf(u, key.0, key.1).alive then UnlinkRuntimeWatch(v, slot.watch.value) else v
  }

  function Callback(s: State, m: nat, l: Listener): State {
    match l
    case RuntimeWatch => OnRuntimeWatch(s, m)
    case HandleWatch(h) => OnHandleWatch(s, h)
  }

  // The `destroy` emission of a manager, in some order of its listeners.
  function EmitDestroy(s: State, m: nat, order: seq<Listener>): State {
    if order == [] then s
    else Callback(EmitDestroy(s, m, order[..|order| - 1]), m, order[|order| - 1])
  }

  // wlroots asserts that nobody listens to the manager any more, and frees it with its objects.
  function FreeManager(s: State, m: nat): State {
    s.(managers := s.managers[m := Mgr(s, m).(freed := true)],
       handles := map h | h in s.handles ::
                    if s.handles[h].mgr == m then s.handles[h].(freed := true) else s.handles[h],
       fault := s.fault || Mgr(s, m).listeners != {} || EmittingUnder(s, m))
  }

  /** Display teardown: wlroots emits the manager's `destroy`, and frees the manager. */
  function TearDown(s: State, m: nat, order: seq<Listener>): State {
    FreeManager(EmitDestroy(s, m, order), m)
  }

  /** Creating a manager; `ok` is whether wlroots returned one.  Refused while the slot holds a pointer.  Storing the
      watch drops the one stored before, which unlinks it: the flag is up already. */
  function CreateManager(s: State, rt: nat, k: ManagerKind, m: nat, ok: bool): State {
    var slot := SlotOf(s, rt, k);
    if slot.pointer.Some? || !ok then s
    else
      var t := s.(managers := s.managers[m := Manager(k, rt, false, {RuntimeWatch}, 0)],
                  slots := s.slots[(rt, k) := Slot(Some(m), true, Some(m))]);
      if slot.watch.Some? then UnlinkRuntimeWatch(t, slot.watch.value) else t
  }

  // Creating a handle: a miss unless the flag is up and the pointer is there.
  function CreateHandle(s: State, rt: nat, k: Kind, h: nat, ok: bool): State {
    var slot := SlotOf(s, rt, ManagerOf(k));
    if !slot.alive || slot.pointer == None || !ok then s
    else
      var m := slot.pointer.value;
      var x := Mgr(s, m);
      s.(handles := s.handles[h := Handle(k, rt, m, true, true, k.Toplevel?, true, false, None, 0, 0, 0)],
         managers := s.managers[m := x.(listeners := x.listeners + {HandleWatch(h)})],
         fault := s.fault || x.freed)
  }

  function LiveRaw(s: State, h: nat): Option<nat> {
    if Hdl(s, h).alive then Some(h) else None
  }

  // `set_group` and `set_parent`: refused for an inert handle on either side and across runtimes.
  function SetTarget(s: State, h: nat, target: Option<nat>): State {
    var x := Hdl(s, h);
    if LiveRaw(s, h) == None then s
    else if target.Some? && Hdl(s, target.value).rt != x.rt then s
    else if target.Some? && LiveRaw(s, target.value) == None then s
    else
      s.(handles := s.handles[h := x.(target := target)],
         fault := s.fault || x.freed || Mgr(s, x.mgr).freed || (target.Some? && Hdl(s, target.value).freed))
  }

  function DestroyAll(s: State, hs: seq<nat>): State {
    if hs == [] then s else Destroy(DestroyAll(s, hs[..|hs| - 1]), hs[|hs| - 1])
  }

  /** The drain at the end of a loop turn: the queue is emptied, and its objects are destroyed if the runtime has a
      live manager. */
  function Drain(s: State, rt: nat): State {
    var t := s.(pending := s.pending[rt := []]);
    if SlotOf(s, rt, ForeignToplevel).alive then DestroyAll(t, PendingOf(s, rt)) else t
  }
}
