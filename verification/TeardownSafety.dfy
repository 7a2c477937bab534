/** What every run of the teardown machine keeps. */
module TeardownSafety {
  import opened Wrappers
  import opened Teardown

  // The stored pointer, the liveness flag and the held watch agree, and what is stored is a live manager.
  ghost predicate SlotOk(s: State, rt: nat, k: ManagerKind) {
    var slot := SlotOf(s, rt, k);
    && (slot.pointer.Some? <==> slot.alive) && slot.watch == slot.pointer
    && (slot.pointer.Some? ==>
          var m := slot.pointer.value;
          m in s.managers && !s.managers[m].freed && s.managers[m].rt == rt && s.managers[m].kind == k)
  }

  // A live manager is the one its runtime points at and is listened to by exactly the runtime and its live handles;
  // a freed one has no listeners left, and the runtime's watch was unlinked from it once.
  ghost predicate ManagerOk(s: State, m: nat)
    requires m in s.managers
  {
    var x := s.managers[m];
    && (!x.freed ==> SlotOf(s, x.rt, x.kind).pointer == Some(m))
    && (RuntimeWatch in x.listeners <==> !x.freed)
    && x.unlinks == (if x.freed then 1 else 0)
    && forall h :: HandleWatch(h) in x.listeners <==> Hdl(s, h).alive && Hdl(s, h).mgr == m
  }

  ghost predicate TargetOk(s: State, x: Handle) {
    x.target.Some? && !x.freed && !Mgr(s, x.mgr).freed ==>
      var t := x.target.value;
      && t in s.handles && s.handles[t].mgr == x.mgr && !s.handles[t].freed
      && s.handles[t].kind == (if x.kind == Toplevel then Toplevel else Group)
  }

  // The registrations a handle still holds and the unlinks it has behind it follow from one flag: each listener is
  // unlinked exactly once, when the handle goes inert.
  function Booked(x: Handle): Handle {
    x.(watch := x.alive,
       requests := x.alive && x.kind == Toplevel,
       watchUnlinks := if x.alive then 0 else 1,
       requestUnlinks := if x.kind == Toplevel && !x.alive then 1 else 0)
  }

  // A handle belongs to a manager of its runtime; while it is live so is its object; an object is freed by the one
  // destroy it gets or with its manager, and one that is neither live nor freed waits in the runtime's queue.
  ghost predicate HandleOk(s: State, h: nat)
    requires h in s.handles
  {
    var x := s.handles[h];
    && x == Booked(x)
    && x.mgr in s.managers && s.managers[x.mgr].rt == x.rt && s.managers[x.mgr].kind == ManagerOf(x.kind)
    && (x.alive ==> x.owned && !x.freed)
    && x.destroys <= 1 && (x.freed <==> x.destroys == 1 || s.managers[x.mgr].freed)
    && (!x.alive && !x.freed ==> h in PendingOf(s, x.rt))
    && TargetOk(s, x)
  }

  ghost predicate PendingOk(s: State, rt: nat) {
    var p := PendingOf(s, rt);
    && (forall i, j :: 0 <= i < j < |p| ==> p[i] != p[j])
    && (forall h :: h in p ==>
          h in s.handles && s.handles[h].kind == Toplevel && s.handles[h].rt == rt
          && !s.handles[h].alive && !s.handles[h].owned && s.handles[h].destroys == 0)
  }

  ghost predicate FramesOk(s: State) {
    forall h :: Emitting(s, h) ==> h in s.handles && s.handles[h].kind == Toplevel && !s.handles[h].freed
  }

  ghost predicate LinksOk(s: State) {
    (forall rt, k :: SlotOk(s, rt, k)) && (forall m :: m in s.managers ==> ManagerOk(s, m))
  }

  ghost predicate HandlesOk(s: State) {
    forall h :: h in s.handles ==> HandleOk(s, h)
  }

  ghost predicate QueuesOk(s: State) {
    (forall rt :: PendingOk(s, rt)) && FramesOk(s)
  }

  ghost predicate Inv(s: State) {
    LinksOk(s) && HandlesOk(s) && QueuesOk(s) && !s.fault
  }

  // Nothing in a queue or under an emission noticed the step from s to t.
  ghost predicate Quiet(s: State, t: State) {
    && t.pending == s.pending && t.stack == s.stack
    && forall h :: h in s.handles ==>
         && h in t.handles && t.handles[h].kind == s.handles[h].kind && t.handles[h].rt == s.handles[h].rt
         && (t.handles[h].owned ==> s.handles[h].owned) && t.handles[h].destroys == s.handles[h].destroys
         && (Emitting(s, h) ==> t.handles[h].freed == s.handles[h].freed)
         && (!s.handles[h].alive ==> !t.handles[h].alive)
  }

  lemma QuietKeepsQueues(s: State, t: State)
    requires QueuesOk(s) && Quiet(s, t)
    ensures QueuesOk(t)
  {
    forall r ensures PendingOk(t, r) {
      assert PendingOk(s, r);
    }
    assert forall h :: Emitting(t, h) <==> Emitting(s, h);
  }

  // Managers keep their identity and their life; only the listeners may differ.
  ghost predicate SameManagers(s: State, t: State) {
    forall m :: m in s.managers ==>
      m in t.managers && t.managers[m] == s.managers[m].(listeners := t.managers[m].listeners)
  }

  lemma SlotsFrame(s: State, t: State)
    requires LinksOk(s) && t.slots == s.slots && SameManagers(s, t)
    ensures forall r, j :: SlotOk(t, r, j)
  {
    forall r, j ensures SlotOk(t, r, j) {
      assert SlotOk(s, r, j);
    }
  }

  lemma LinksFrame(s: State, t: State)
    requires LinksOk(s) && t.slots == s.slots && t.managers == s.managers
    requires forall h :: Hdl(t, h).alive == Hdl(s, h).alive && Hdl(t, h).mgr == Hdl(s, h).mgr
    ensures LinksOk(t)
  {
    SlotsFrame(s, t);
    forall n | n in t.managers ensures ManagerOk(t, n) {
      assert ManagerOk(s, n);
    }
  }

  // A handle untouched by a step, but for its target pointer being nulled.
  lemma HandleFrame(s: State, t: State, g: nat)
    requires g in s.handles && HandleOk(s, g) && SameManagers(s, t)
    requires g in t.handles && t.handles[g] == s.handles[g].(target := t.handles[g].target)
    requires g in PendingOf(s, s.handles[g].rt) ==> g in PendingOf(t, s.handles[g].rt)
    requires var u := t.handles[g].target;
             u.Some? ==> u == s.handles[g].target && (u.value in s.handles ==>
               u.value in t.handles && t.handles[u.value].mgr == s.handles[u.value].mgr
               && t.handles[u.value].kind == s.handles[u.value].kind
               && t.handles[u.value].freed == s.handles[u.value].freed)
    ensures HandleOk(t, g)
  {
  }

  // A new manager replaces no stored watch: an empty slot holds none.
  lemma CreationDropsNothing(s: State, rt: nat, k: ManagerKind, m: nat)
    requires Inv(s) && SlotOf(s, rt, k).pointer == None
    ensures CreateManager(s, rt, k, m, true) ==
            s.(managers := s.managers[m := Manager(k, rt, false, {RuntimeWatch}, 0)],
               slots := s.slots[(rt, k) := Slot(Some(m), true, Some(m))])
  {
    assert SlotOk(s, rt, k);
  }

  lemma CreateManagerKeepsLinks(s: State, rt: nat, k: ManagerKind, m: nat)
    requires Inv(s) && m !in s.managers && SlotOf(s, rt, k).pointer == None
    ensures LinksOk(CreateManager(s, rt, k, m, true))
  {
    var t := CreateManager(s, rt, k, m, true);
    CreationDropsNothing(s, rt, k, m);
    forall r, j ensures SlotOk(t, r, j) {
      assert SlotOk(s, r, j);
    }
    forall n | n in t.managers ensures ManagerOk(t, n) {
      if n != m {
        assert ManagerOk(s, n);
      }
      forall h | h in s.handles ensures s.handles[h].mgr != m {
        assert HandleOk(s, h);
      }
    }
  }

  lemma NewManagerFrame(s: State, t: State, m: nat)
    requires HandlesOk(s) && m !in s.managers && m in t.managers
    requires t == s.(managers := s.managers[m := t.managers[m]], slots := t.slots)
    ensures HandlesOk(t)
  {
    forall h | h in t.handles ensures HandleOk(t, h) {
      HandleFrame(s, t, h);
    }
  }

  lemma CreateManagerKeepsInv(s: State, rt: nat, k: ManagerKind, m: nat, ok: bool)
    requires Inv(s) && m !in s.managers
    ensures Inv(CreateManager(s, rt, k, m, ok))
  {
    var t := CreateManager(s, rt, k, m, ok);
    if t != s {
      CreateManagerKeepsLinks(s, rt, k, m);
      CreationDropsNothing(s, rt, k, m);
      NewManagerFrame(s, t, m);
      QuietKeepsQueues(s, t);
    }
  }

  lemma CreateHandleKeepsLinks(s: State, rt: nat, k: Kind, h: nat, ok: bool)
    requires Inv(s) && h !in s.handles
    ensures LinksOk(CreateHandle(s, rt, k, h, ok)) && !CreateHandle(s, rt, k, h, ok).fault
  {
    var t := CreateHandle(s, rt, k, h, ok);
    assert SlotOk(s, rt, ManagerOf(k));
    if t != s {
      var m := SlotOf(s, rt, ManagerOf(k)).pointer.value;
      assert ManagerOk(s, m);
      forall r, j ensures SlotOk(t, r, j) {
        assert SlotOk(s, r, j);
      }
      forall n | n in t.managers ensures ManagerOk(t, n) {
        assert ManagerOk(s, n);
      }
    }
  }

  lemma CreateHandleKeepsInv(s: State, rt: nat, k: Kind, h: nat, ok: bool)
    requires Inv(s) && h !in s.handles
    ensures Inv(CreateHandle(s, rt, k, h, ok))
  {
    var t := CreateHandle(s, rt, k, h, ok);
    CreateHandleKeepsLinks(s, rt, k, h, ok);
    assert SlotOk(s, rt, ManagerOf(k));
    if t != s {
      forall g | g in t.handles ensures HandleOk(t, g) {
        if g != h {
          HandleFrame(s, t, g);
        }
      }
      QuietKeepsQueues(s, t);
    }
  }

  // Replacing target pointers touches no link.
  ghost predicate SameButTargets(s: State, t: State) {
    && t.managers == s.managers && t.slots == s.slots && t.pending == s.pending && t.stack == s.stack
    && t.handles.Keys == s.handles.Keys
    && forall h :: h in s.handles ==> t.handles[h] == s.handles[h].(target := t.handles[h].target)
  }

  lemma RetargetKeepsLinks(s: State, t: State)
    requires Inv(s) && SameButTargets(s, t)
    ensures LinksOk(t) && QueuesOk(t)
  {
    LinksFrame(s, t);
    QuietKeepsQueues(s, t);
  }

  ghost predicate MayTarget(s: State, h: nat, target: Option<nat>) {
    && h in s.handles && s.handles[h].kind != Group
    && (target.Some? ==> target.value in s.handles
                         && s.handles[target.value].kind == (if s.handles[h].kind == Toplevel then Toplevel else Group))
  }

  // An accepted target is a live object of the same manager: runtimes have at most one live manager of a kind.
  lemma AcceptedTarget(s: State, h: nat, target: Option<nat>)
    requires Inv(s) && MayTarget(s, h, target) && SetTarget(s, h, target) != s
    ensures var x := s.handles[h].(target := target);
            SetTarget(s, h, target) == s.(handles := s.handles[h := x]) && TargetOk(s, x)
  {
    assert HandleOk(s, h);
    if target.Some? {
      assert HandleOk(s, target.value);
      assert ManagerOk(s, s.handles[h].mgr) && ManagerOk(s, s.handles[target.value].mgr);
    }
  }

  lemma SetTargetKeepsInv(s: State, h: nat, target: Option<nat>)
    requires Inv(s) && MayTarget(s, h, target)
    ensures Inv(SetTarget(s, h, target))
  {
    var t := SetTarget(s, h, target);
    if t != s {
      AcceptedTarget(s, h, target);
      RetargetKeepsLinks(s, t);
      forall g | g in t.handles ensures HandleOk(t, g) {
        assert HandleOk(s, g);
        if g != h {
          HandleFrame(s, t, g);
        }
      }
    }
  }

  // A handle after either path unlinked it.
  function Inert(x: Handle): Handle {
    x.(alive := false, watch := false, requests := false, watchUnlinks := x.watchUnlinks + 1,
       requestUnlinks := x.requestUnlinks + if x.requests then 1 else 0)
  }

  // The state once the Rust side of a live handle is dropped, before the destroy.
  function Released(s: State, h: nat): State {
    var x := Hdl(s, h);
    var m := Mgr(s, x.mgr);
    s.(handles := s.handles[h := Inert(x).(owned := false)],
       managers := s.managers[x.mgr := m.(listeners := m.listeners - {HandleWatch(h)})])
  }

  function Deferred(s: State, h: nat): State {
    var rt := Hdl(s, h).rt;
    Released(s, h).(pending := s.pending[rt := PendingOf(s, rt) + [h]])
  }

  lemma Overwrite<K, V>(m: map<K, V>, k: K, a: V, b: V)
    ensures m[k := a][k := b] == m[k := b]
  {
  }

  // A step that leaves the stack alone and forgets no fault.
  ghost predicate Steady(s: State, t: State) {
    t.stack == s.stack && (s.fault ==> t.fault)
  }

  lemma UnlinkIsSteady(s: State, h: nat)
    ensures Steady(s, UnlinkWatch(s, h)) && Steady(s, DropWatch(s, h))
  {
  }

  lemma TakeLiveIsSteady(s: State, h: nat)
    ensures Steady(s, TakeLive(s, h))
  {
    UnlinkIsSteady(s, h);
  }

  lemma ClearIsSteady(s: State, h: nat)
    ensures Steady(s, ClearRequests(s, h))
  {
  }

  lemma DestroyIsSteady(s: State, h: nat)
    ensures Steady(s, Destroy(s, h))
  {
  }

  lemma DropIsSteady(s: State, h: nat)
    ensures Steady(s, DropHandle(s, h))
  {
    var x := Hdl(s, h);
    var t := s.(handles := s.handles[h := x.(owned := false)]);
    if x.alive {
      var c := if x.kind == Toplevel then ClearRequests(t, h) else t;
      ClearIsSteady(t, h);
      TakeLiveIsSteady(c, h);
      var u := TakeLive(c, h);
      DestroyIsSteady(u, h);
      assert DropHandle(s, h) == if x.kind == Toplevel && InDelivery(s)
                                 then u.(pending := u.pending[x.rt := PendingOf(u, x.rt) + [h]]) else Destroy(u, h);
    }
  }

  // What the invariant says about a live handle.
  ghost predicate Linked(s: State, h: nat) {
    && h in s.handles && s.handles[h].mgr in s.managers && !s.managers[s.handles[h].mgr].freed
    && s.handles[h].alive && s.handles[h].watch && !s.handles[h].freed
    && HandleWatch(h) in s.managers[s.handles[h].mgr].listeners
  }

  // `take_live_raw` unlinks the watch exactly once, because `alive` still reads true when the registration drops.
  lemma TakeLiveUnlinksOnce(s: State, h: nat)
    requires Linked(s, h)
    ensures var x := s.handles[h];
            var m := s.managers[x.mgr];
            TakeLive(s, h) ==
              s.(handles := s.handles[h := x.(alive := false, watch := false, watchUnlinks := x.watchUnlinks + 1)],
                                 managers := s.managers[x.mgr := m.(listeners := m.listeners - {HandleWatch(h)})])
  {
    var x := s.handles[h];
    var y := x.(watch := false);
    var z := y.(watchUnlinks := x.watchUnlinks + 1);
    Overwrite(s.handles, h, y, z);
    Overwrite(s.handles, h, z, z.(alive := false));
  }

  // `Drop` unlinks each listener of a live handle once, and only then destroys or defers.
  lemma DropReleases(s: State, h: nat)
    requires Linked(s, h) && s.handles[h].requests == (s.handles[h].kind == Toplevel)
    ensures var x, u := s.handles[h], Released(s, h);
            DropHandle(s, h) == if x.kind == Toplevel && InDelivery(s)
                                then Deferred(s, h) else Destroy(u, h)
  {
    var x := s.handles[h];
    var y := x.(owned := false);
    var t := s.(handles := s.handles[h := y]);
    var z := if x.kind == Toplevel then y.(requests := false, requestUnlinks := x.requestUnlinks + 1) else y;
    Overwrite(s.handles, h, y, z);
    var c := if x.kind == Toplevel then ClearRequests(t, h) else t;
    assert c.handles == s.handles[h := z];
    TakeLiveUnlinksOnce(c, h);
    Overwrite(s.handles, h, z, Inert(x).(owned := false));
    assert TakeLive(c, h) == Released(s, h);
  }

  lemma LiveHandleIsLinked(s: State, h: nat)
    requires Inv(s) && h in s.handles && s.handles[h].alive
    ensures Linked(s, h) && s.handles[h].requests == (s.handles[h].kind == Toplevel)
  {
    assert HandleOk(s, h);
    assert ManagerOk(s, s.handles[h].mgr);
  }

  lemma ReleaseKeepsLinks(s: State, h: nat, t: State)
    requires Inv(s) && h in s.handles && s.handles[h].alive
    requires t.managers == Released(s, h).managers && t.slots == s.slots
    requires forall g :: Hdl(t, g).alive == (g != h && Hdl(s, g).alive) && Hdl(t, g).mgr == Hdl(s, g).mgr
    ensures LinksOk(t) && SameManagers(s, t)
  {
    LiveHandleIsLinked(s, h);
    SlotsFrame(s, t);
    forall n | n in t.managers ensures ManagerOk(t, n) {
      assert ManagerOk(s, n);
    }
  }

  lemma DeferKeepsQueues(s: State, h: nat)
    requires Inv(s) && h in s.handles && s.handles[h].alive && s.handles[h].kind == Toplevel
    ensures QueuesOk(Deferred(s, h))
  {
    var t := Deferred(s, h);
    assert HandleOk(s, h);
    forall r ensures PendingOk(t, r) {
      assert PendingOk(s, r);
    }
    assert forall g :: Emitting(t, g) <==> Emitting(s, g);
  }

  lemma DeferKeepsHandles(s: State, h: nat)
    requires HandlesOk(s) && h in s.handles && s.handles[h].alive && s.handles[h].kind == Toplevel
    requires SameManagers(s, Deferred(s, h))
    ensures HandlesOk(Deferred(s, h))
  {
    var t := Deferred(s, h);
    forall g | g in t.handles ensures HandleOk(t, g) {
      assert HandleOk(s, g);
      if g != h {
        HandleFrame(s, t, g);
      }
    }
  }

  lemma DeferKeepsInv(s: State, h: nat)
    requires Inv(s) && h in s.handles && s.handles[h].alive && s.handles[h].kind == Toplevel
    ensures Inv(Deferred(s, h))
  {
    ReleaseKeepsLinks(s, h, Deferred(s, h));
    DeferKeepsQueues(s, h);
    DeferKeepsHandles(s, h);
  }

  // Deferring queues the object and frees nothing.
  lemma DeferredEffect(s: State, h: nat, g: nat)
    requires h in s.handles
    ensures var t := Deferred(s, h);
            && PendingOf(t, s.handles[h].rt) == PendingOf(s, s.handles[h].rt) + [h] && t.fault == s.fault
            && Hdl(t, g).freed == Hdl(s, g).freed && Hdl(t, g).destroys == Hdl(s, g).destroys
  {
  }

  // Destroying an object frees it and nulls the pointers to it; nothing else changes.
  lemma DestroyEffect(s: State, h: nat, g: nat)
    requires h in s.handles
    ensures var x, y := Hdl(s, g), Hdl(Destroy(s, h), g);
            if g == h then y == x.(freed := true, target := None, destroys := x.destroys + 1)
            else y == x.(target := if g in s.handles && x.target == Some(h) then None else x.target)
  {
  }

  lemma ReleaseAndDestroyKeepsHandles(s: State, h: nat)
    requires Inv(s) && h in s.handles && s.handles[h].alive
    requires SameManagers(s, Destroy(Released(s, h), h))
    ensures HandlesOk(Destroy(Released(s, h), h))
  {
    var u, t := Released(s, h), Destroy(Released(s, h), h);
    forall g | g in t.handles ensures HandleOk(t, g) {
      assert HandleOk(s, g);
      DestroyEffect(u, h, g);
      if g != h {
        var v := t.handles[g].target;
        if v.Some? {
          DestroyEffect(u, h, v.value);
        }
        HandleFrame(s, t, g);
      }
    }
  }

  lemma ReleaseAndDestroyKeepsQueues(s: State, h: nat)
    requires Inv(s) && h in s.handles && s.handles[h].alive && !Emitting(s, h)
    ensures QueuesOk(Destroy(Released(s, h), h))
  {
    var u, t := Released(s, h), Destroy(Released(s, h), h);
    forall r ensures PendingOk(t, r) {
      assert PendingOk(s, r);
      forall g | g in PendingOf(s, r) ensures t.handles[g] == s.handles[g].(target := t.handles[g].target) {
        DestroyEffect(u, h, g);
      }
    }
    forall g | Emitting(t, g) ensures g in t.handles && t.handles[g].kind == Toplevel && !t.handles[g].freed {
      assert Emitting(s, g);
      DestroyEffect(u, h, g);
    }
  }

  // The destroy of an object nobody is emitting on, right after its handle was released.
  lemma ReleaseAndDestroyKeepsInv(s: State, h: nat)
    requires Inv(s) && h in s.handles && s.handles[h].alive && !Emitting(s, h)
    ensures Inv(Destroy(Released(s, h), h))
  {
    var u, t := Released(s, h), Destroy(Released(s, h), h);
    LiveHandleIsLinked(s, h);
    forall g ensures Hdl(t, g).alive == (g != h && Hdl(s, g).alive) && Hdl(t, g).mgr == Hdl(s, g).mgr {
      DestroyEffect(u, h, g);
    }
    ReleaseKeepsLinks(s, h, t);
    ReleaseAndDestroyKeepsHandles(s, h);
    ReleaseAndDestroyKeepsQueues(s, h);
    assert Emitting(u, h) <==> Emitting(s, h);
  }

  // A live toplevel whose own signal is being emitted is dropped with the delivery flag up.
  ghost predicate DefersUnderEmission(s: State, h: nat) {
    Hdl(s, h).alive && Hdl(s, h).kind == Toplevel && Emitting(s, h) ==> InDelivery(s)
  }

  /** Dropping a handle, wherever the flag is up under its own emission. */
  lemma DropKeepsInv(s: State, h: nat)
    requires Inv(s) && h in s.handles && s.handles[h].owned && DefersUnderEmission(s, h)
    ensures Inv(DropHandle(s, h))
  {
    var x := s.handles[h];
    if x.alive {
      LiveHandleIsLinked(s, h);
      DropReleases(s, h);
      if x.kind == Toplevel && InDelivery(s) {
        DeferKeepsInv(s, h);
      } else {
        assert x.kind != Toplevel ==> !Emitting(s, h);
        ReleaseAndDestroyKeepsInv(s, h);
      }
    } else {
      DropInertKeepsInv(s, h);
    }
  }

  lemma InertHandles(s: State, t: State, h: nat)
    requires HandlesOk(s) && h in s.handles && !s.handles[h].alive
    requires t == s.(handles := s.handles[h := s.handles[h].(owned := false)])
    ensures HandlesOk(t)
  {
    forall g | g in t.handles ensures HandleOk(t, g) {
      assert HandleOk(s, g);
      if g != h {
        HandleFrame(s, t, g);
      }
    }
  }

  lemma DropInertKeepsInv(s: State, h: nat)
    requires Inv(s) && h in s.handles && !s.handles[h].alive
    ensures Inv(DropHandle(s, h))
  {
    var t := DropHandle(s, h);
    assert t == s.(handles := s.handles[h := s.handles[h].(owned := false)]);
    LinksFrame(s, t);
    QuietKeepsQueues(s, t);
    InertHandles(s, t, h);
  }

  // The state of a `destroy` emission of manager m after the listeners in `done` were called, in any order.
  function AfterCallbacks(s: State, m: nat, done: set<Listener>): State {
    var x := Mgr(s, m);
    s.(handles := map h | h in s.handles :: if HandleWatch(h) in done then Inert(s.handles[h]) else s.handles[h],
       managers := s.managers[m := x.(listeners := x.listeners - done,
                                      unlinks := x.unlinks + if RuntimeWatch in done then 1 else 0)],
       slots := if RuntimeWatch in done then s.slots[(x.rt, x.kind) := NO_SLOT] else s.slots)
  }

  ghost predicate Listening(s: State, m: nat, done: set<Listener>, l: Listener) {
    && m in s.managers && !s.managers[m].freed && done <= s.managers[m].listeners
    && l in s.managers[m].listeners && l !in done
  }

  /** A handle's callback unlinks its listener exactly once: `alive` already reads false when the registration drops. */
  lemma CallbackUnlinksOnce(s: State, h: nat)
    requires Linked(s, h)
    ensures var x := s.handles[h];
            var m := s.managers[x.mgr];
            OnHandleWatch(s, h) == s.(handles := s.handles[h := Inert(x)],
                                      managers := s.managers[x.mgr := m.(listeners := m.listeners - {HandleWatch(h)})])
  {
    var x := s.handles[h];
    var y := x.(alive := false);
    var z := y.(requests := false, requestUnlinks := x.requestUnlinks + if x.requests then 1 else 0);
    var w := z.(watchUnlinks := x.watchUnlinks + 1);
    Overwrite(s.handles, h, y, z);
    Overwrite(s.handles, h, z, w);
    Overwrite(s.handles, h, w, Inert(x));
    assert ClearRequests(MarkDead(s, h), h).handles == s.handles[h := z];
  }

  lemma HandleCallbackStep(s: State, m: nat, done: set<Listener>, h: nat)
    requires Linked(s, h) && s.handles[h].mgr == m && HandleWatch(h) !in done
    ensures Callback(AfterCallbacks(s, m, done), m, HandleWatch(h)) == AfterCallbacks(s, m, done + {HandleWatch(h)})
  {
    var now := done + {HandleWatch(h)};
    var a, b := AfterCallbacks(s, m, done), AfterCallbacks(s, m, now);
    var x := s.managers[m];
    assert a.handles[h] == s.handles[h];
    CallbackUnlinksOnce(a, h);
    assert a.handles[h := Inert(s.handles[h])] == b.handles;
    assert x.listeners - done - {HandleWatch(h)} == x.listeners - now;
    Overwrite(s.managers, m, a.managers[m], b.managers[m]);
    assert a.slots == b.slots;
  }

  lemma RuntimeCallbackStep(s: State, m: nat, done: set<Listener>)
    requires Inv(s) && Listening(s, m, done, RuntimeWatch)
    ensures Callback(AfterCallbacks(s, m, done), m, RuntimeWatch) == AfterCallbacks(s, m, done + {RuntimeWatch})
  {
    assert ManagerOk(s, m);
    var a, b := AfterCallbacks(s, m, done), AfterCallbacks(s, m, done + {RuntimeWatch});
    var key := (s.managers[m].rt, s.managers[m].kind);
    assert SlotOk(s, key.0, key.1);
    var slot := SlotOf(s, key.0, key.1);
    var y := slot.(alive := false, pointer := None);
    Overwrite(a.slots, key, y, NO_SLOT);
    assert a.handles == b.handles;
    assert s.managers[m].listeners - done - {RuntimeWatch} == s.managers[m].listeners - (done + {RuntimeWatch});
    Overwrite(s.managers, m, a.managers[m], b.managers[m]);
  }

  ghost predicate Enumerates(order: seq<Listener>, listeners: set<Listener>) {
    && (forall i, j :: 0 <= i < j < |order| ==> order[i] != order[j])
    && (forall l :: l in order <==> l in listeners)
  }

  function Called(order: seq<Listener>): set<Listener> {
    set l | l in order
  }

  // Whatever the order, the emission calls every listener in the same good state.
  lemma {:induction false} EmissionInAnyOrder(s: State, m: nat, order: seq<Listener>)
    requires Inv(s) && m in s.managers && !s.managers[m].freed
    requires (forall i, j :: 0 <= i < j < |order| ==> order[i] != order[j]) && Called(order) <= s.managers[m].listeners
    ensures EmitDestroy(s, m, order) == AfterCallbacks(s, m, Called(order))
  {
    if order == [] {
      assert AfterCallbacks(s, m, {}).handles == s.handles;
      assert Called(order) == {} && s.managers[m].listeners - {} == s.managers[m].listeners;
      assert s.managers[m := s.managers[m]] == s.managers;
    } else {
      var front, l := order[..|order| - 1], order[|order| - 1];
      assert order == front + [l] && Called(order) == Called(front) + {l};
      EmissionInAnyOrder(s, m, front);
      if l == RuntimeWatch {
        RuntimeCallbackStep(s, m, Called(front));
      } else {
        assert ManagerOk(s, m);
        LiveHandleIsLinked(s, l.h);
        HandleCallbackStep(s, m, Called(front), l.h);
      }
    }
  }

  // A handle whose manager was torn down.
  function Orphan(x: Handle): Handle {
    (if x.alive then Inert(x) else x).(freed := true)
  }

  // The state after the teardown of manager m: it is freed with its objects, nobody listens, every handle of it is
  // inert, and the runtime's slot is empty.
  function TornDown(s: State, m: nat): State {
    var x := Mgr(s, m);
    s.(handles := map h | h in s.handles :: if s.handles[h].mgr == m then Orphan(s.handles[h]) else s.handles[h],
       managers := s.managers[m := x.(listeners := {}, unlinks := x.unlinks + 1, freed := true)],
       slots := s.slots[(x.rt, x.kind) := NO_SLOT])
  }

  // The teardown of manager m: it is alive, none of its objects is being emitted on, and every listener is called.
  ghost predicate MayTearDown(s: State, m: nat, order: seq<Listener>) {
    && m in s.managers && !s.managers[m].freed && !EmittingUnder(s, m)
    && Enumerates(order, s.managers[m].listeners)
  }

  // Once every listener was called, only the free itself is missing.
  lemma AllInert(s: State, m: nat)
    requires Inv(s) && m in s.managers
    ensures FreeManager(AfterCallbacks(s, m, s.managers[m].listeners), m).handles == TornDown(s, m).handles
  {
    assert ManagerOk(s, m);
  }

  lemma AllCalled(s: State, m: nat)
    requires Inv(s) && m in s.managers && !s.managers[m].freed && !EmittingUnder(s, m)
    ensures FreeManager(AfterCallbacks(s, m, s.managers[m].listeners), m) == TornDown(s, m)
  {
    assert ManagerOk(s, m);
    var a := AfterCallbacks(s, m, s.managers[m].listeners);
    AllInert(s, m);
    assert !EmittingUnder(a, m);
    Overwrite(s.managers, m, a.managers[m], TornDown(s, m).managers[m]);
  }

  /** Teardown in one step: whatever the order of the callbacks, no listener is left, every object of the manager is
      freed, and nothing faults. */
  lemma TearDownInOneStep(s: State, m: nat, order: seq<Listener>)
    requires Inv(s) && MayTearDown(s, m, order)
    ensures TearDown(s, m, order) == TornDown(s, m)
  {
    assert Called(order) == s.managers[m].listeners;
    EmissionInAnyOrder(s, m, order);
    AllCalled(s, m);
  }

  lemma TornDownLinks(s: State, m: nat)
    requires Inv(s) && m in s.managers && !s.managers[m].freed
    ensures LinksOk(TornDown(s, m))
  {
    var t, x := TornDown(s, m), s.managers[m];
    assert ManagerOk(s, m);
    forall r, j ensures SlotOk(t, r, j) {
      assert SlotOk(s, r, j);
    }
    forall n | n in t.managers ensures ManagerOk(t, n) {
      assert ManagerOk(s, n);
    }
  }

  lemma TornDownHandles(s: State, m: nat)
    requires Inv(s) && m in s.managers && !s.managers[m].freed
    ensures HandlesOk(TornDown(s, m))
  {
    var t := TornDown(s, m);
    forall h | h in t.handles ensures HandleOk(t, h) {
      assert HandleOk(s, h);
    }
  }

  lemma TearDownKeepsInv(s: State, m: nat, order: seq<Listener>)
    requires Inv(s) && MayTearDown(s, m, order)
    ensures Inv(TearDown(s, m, order))
  {
    TearDownInOneStep(s, m, order);
    TornDownLinks(s, m);
    TornDownHandles(s, m);
    assert forall h :: Emitting(s, h) ==> Hdl(s, h).mgr != m;
    QuietKeepsQueues(s, TornDown(s, m));
  }
}
