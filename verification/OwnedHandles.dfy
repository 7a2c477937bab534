/** `owned_handle.rs` on the heap: a handle, the registration it holds, and the signal its listener is linked into. */
module OwnedHandles {
  import opened Wrappers

  // The owner's `destroy` signal: the listeners linked into it, in order.
  class Signal<T> {
    var listeners: seq<Registration<T>>

    constructor ()
      ensures listeners == []
    {
      listeners := [];
    }

    // Every listener is the watch of a live handle, and no handle is linked twice.
    ghost predicate Valid()
      reads this, listeners, set r | r in listeners :: r.ctx
    {
      && (forall r :: r in listeners ==> r.signal == this && r.ctx.Watching(r))
      && DistinctOwners(listeners)
    }

    /** Emitting `destroy`, as wlroots does before it frees the owner: afterwards nobody is listening, and every handle
        that was linked is inert, with its listener unlinked exactly once. */
    method EmitDestroy()
      requires Valid()
      modifies this, set r | r in listeners :: r.ctx
      ensures listeners == []
      ensures forall r :: r in old(listeners) ==> r.ctx.Inert() && r.ctx.unlinks == old(r.ctx.unlinks) + 1
    {
      var all := listeners;
      for i := 0 to |all|
        invariant listeners == all[i..]
        invariant forall j :: 0 <= j < i ==> all[j].ctx.Inert() && all[j].ctx.unlinks == old(all[j].ctx.unlinks) + 1
        invariant forall j :: i <= j < |all| ==>
                    all[j].ctx.Watching(all[j]) && all[j].ctx.unlinks == old(all[j].ctx.unlinks)
      {
        assert all[i..][0] == all[i] && all[i] in all;
        all[i].ctx.OnWatchedDestroy(all[i]);
        assert all[i..][1..] == all[i + 1..];
      }
    }
  }

  // `Registration`: where the listener is linked, and the handle whose `alive` cell it watches.
  class Registration<T> {
    const signal: Signal<T>
    const ctx: OwnedHandle<T>

    constructor (signal: Signal<T>, ctx: OwnedHandle<T>)
      ensures this.signal == signal && this.ctx == ctx
    {
      this.signal := signal;
      this.ctx := ctx;
    }
  }

  function Without<T(==)>(s: seq<T>, x: T): seq<T> {
    if s == [] then [] else if s[0] == x then s[1..] else [s[0]] + Without(s[1..], x)
  }

  ghost predicate DistinctOwners<T>(s: seq<Registration<T>>) {
    forall i, j :: 0 <= i < j < |s| ==> s[i].ctx != s[j].ctx
  }

  lemma {:induction false} WithoutHas<T>(s: seq<Registration<T>>, x: Registration<T>, y: Registration<T>)
    requires DistinctOwners(s)
    ensures y in Without(s, x) <==> y in s && y != x
  {
    if s != [] {
      assert s == [s[0]] + s[1..];
      if s[0] == x {
        assert y in s[1..] ==> y != x;
      } else {
        WithoutHas(s[1..], x, y);
        assert Without(s, x) == [s[0]] + Without(s[1..], x);
      }
    }
  }

  // Taking a registration out of a list leaves the owners distinct.
  lemma {:induction false} WithoutIsDistinct<T>(s: seq<Registration<T>>, x: Registration<T>)
    requires DistinctOwners(s)
    ensures DistinctOwners(Without(s, x))
  {
    if s != [] && s[0] != x {
      var rest := Without(s[1..], x);
      WithoutIsDistinct(s[1..], x);
      forall j | 0 <= j < |rest| ensures rest[j].ctx != s[0].ctx {
        WithoutHas(s[1..], x, rest[j]);
        assert rest[j] in s[1..];
      }
      assert Without(s, x) == [s[0]] + rest;
    }
  }

  class OwnedHandle<T> {
    const raw: T
    var alive: bool
    var watchedDestroy: Option<Registration<T>>
    // How often this handle's listener was unlinked.
    ghost var unlinks: nat

    constructor (raw: T)
      ensures this.raw == raw && alive && watchedDestroy == None && unlinks == 0
    {
      this.raw := raw;
      alive, watchedDestroy, unlinks := true, None, 0;
    }

    ghost predicate Watching(r: Registration<T>)
      reads this
    {
      alive && watchedDestroy == Some(r) && r.ctx == this
    }

    // The registration of a live handle is linked into `signal`.
    ghost predicate LinkedInto(signal: Signal<T>)
      reads this, signal
    {
      && watchedDestroy.Some? && Watching(watchedDestroy.value)
      && watchedDestroy.value.signal == signal && watchedDestroy.value in signal.listeners
    }

    predicate Inert()
      reads this
    {
      !alive && watchedDestroy == None
    }

    function LiveRaw(): Option<T>
      reads this
    {
      if alive then Some(raw) else None
    }

    // Linking the watch, once the context is boxed.
    method LinkWatch(signal: Signal<T>)
      requires alive && watchedDestroy == None && signal.Valid()
      modifies this, signal
      ensures signal.Valid() && unlinks == old(unlinks)
      ensures exists r ::
                fresh(r) && Watching(r) && r.signal == signal && signal.listeners == old(signal.listeners) + [r]
    {
      assert forall r :: r in signal.listeners ==> r.ctx != this;
      var r := new Registration(signal, this);
      signal.listeners := signal.listeners + [r];
      watchedDestroy := Some(r);
    }

    // `remove_listener`.
    method RemoveListener(r: Registration<T>)
      requires r.ctx == this && r in r.signal.listeners
      modifies r.signal, `unlinks
      ensures r.signal.listeners == Without(old(r.signal.listeners), r) && unlinks == old(unlinks) + 1
    {
      r.signal.listeners := Without(r.signal.listeners, r);
      unlinks := unlinks + 1;
    }

    // `Registration::drop`: unlinks only while the watched cell still reads true.
    method DropRegistration(r: Registration<T>)
      requires r.ctx == this && (alive ==> r in r.signal.listeners)
      modifies r.signal, `unlinks
      ensures r.signal.listeners == if alive then Without(old(r.signal.listeners), r) else old(r.signal.listeners)
      ensures unlinks == old(unlinks) + if alive then 1 else 0
    {
      if alive {
        RemoveListener(r);
      }
    }

    /** `take_live_raw`: the object to destroy, with the watch unlinked once and the handle inert; nothing at all when
        the owner died first.  Every other listener of the signal stays linked, in place. */
    method TakeLiveRaw(ghost signal: Signal<T>) returns (r: Option<T>)
      requires alive ==> LinkedInto(signal) && signal.Valid()
      modifies this, signal
      ensures r == old(LiveRaw()) == if old(alive) then Some(raw) else None
      ensures old(alive) ==>
                && Inert() && unlinks == old(unlinks) + 1 && signal.Valid()
                && signal.listeners == Without(old(signal.listeners), old(watchedDestroy.value))
                && forall y :: y in signal.listeners <==> y in old(signal.listeners) && y.ctx != this
      ensures !old(alive) ==>
                && !alive && watchedDestroy == old(watchedDestroy) && unlinks == old(unlinks)
                && signal.listeners == old(signal.listeners)
    {
      if !alive {
        return None;
      }
      var watch := watchedDestroy.value;
      ghost var linked := signal.listeners;
      forall y: Registration<T> {
        WithoutHas(linked, watch, y);
      }
      WithoutIsDistinct(linked, watch);
      assert forall y :: y in linked && y.ctx == this ==> y == watch;
      watchedDestroy := None;
      DropRegistration(watch);
      alive := false;
      assert forall y :: y in signal.listeners <==> y in linked && y != watch;
      r := Some(raw);
    }

    /** `on_watched_destroy`: the same outcome by the opposite order, from inside the signal's own emission. */
    method OnWatchedDestroy(l: Registration<T>)
      requires Watching(l) && l in l.signal.listeners
      modifies this, l.signal
      ensures Inert() && unlinks == old(unlinks) + 1
      ensures l.signal.listeners == Without(old(l.signal.listeners), l)
    {
      alive := false;
      RemoveListener(l);
      var registration := watchedDestroy.value;
      watchedDestroy := None;
      DropRegistration(registration);
    }
  }

  // What happens to the handles of one owner before it dies: one more is created, or number i is dropped.
  datatype Event = Created | Dropped(i: nat)

  // Whether each handle created so far is live.
  function Live(events: seq<Event>): seq<bool> {
    if events == [] then []
    else
      var before, e := Live(events[..|events| - 1]), events[|events| - 1];
      match e
      case Created => before + [true]
      case Dropped(i) => if i < |before| then before[i := false] else before
  }

  // Handle i was dropped after it had been created.
  ghost predicate WasDropped(events: seq<Event>, i: nat) {
    exists k :: 0 <= k < |events| && events[k] == Dropped(i) && i < multiset(events[..k])[Created]
  }

  /** There are as many handles as creations, and the live ones are those not dropped since. */
  lemma {:induction false} LiveIff(events: seq<Event>, i: nat)
    ensures |Live(events)| == multiset(events)[Created]
    ensures i < |Live(events)| ==> (Live(events)[i] <==> !WasDropped(events, i))
  {
    if events != [] {
      var n := |events| - 1;
      var before, last := events[..n], events[n];
      LiveIff(before, i);
      assert events == before + [last];
      DroppedSnoc(before, last, i);
      assert i >= |Live(before)| ==> !WasDropped(before, i);
    }
  }

  lemma DroppedSnoc(before: seq<Event>, last: Event, i: nat)
    ensures WasDropped(before + [last], i) <==>
            WasDropped(before, i) || (last == Dropped(i) && i < multiset(before)[Created])
    ensures WasDropped(before, i) ==> i < multiset(before)[Created]
  {
    var events := before + [last];
    assert forall k :: 0 <= k < |before| ==> events[..k] == before[..k];
    assert events[..|before|] == before;
    if WasDropped(before, i) {
      var k :| 0 <= k < |before| && before[k] == Dropped(i) && i < multiset(before[..k])[Created];
      assert before == before[..k] + before[k..];
      assert events[k] == Dropped(i);
    }
  }

  // The handles and their signal, in the middle of their lives.
  ghost predicate Household<T>(signal: Signal<T>, handles: seq<OwnedHandle<T>>, live: seq<bool>)
    reads signal, signal.listeners, set r | r in signal.listeners :: r.ctx, handles
  {
    && signal.Valid() && |handles| == |live|
    && (forall i, j :: 0 <= i < j < |handles| ==> handles[i] != handles[j])
    && (forall r :: r in signal.listeners ==> r.ctx in handles)
    && (forall i :: 0 <= i < |handles| ==>
          if live[i] then handles[i].LinkedInto(signal) && handles[i].unlinks == 0
          else handles[i].Inert() && handles[i].unlinks == 1)
  }

  method Create<T>(signal: Signal<T>, handles: seq<OwnedHandle<T>>, ghost live: seq<bool>, raw: T)
    returns (more: seq<OwnedHandle<T>>)
    requires Household(signal, handles, live)
    modifies signal
    ensures Household(signal, more, live + [true])
    ensures |more| == |handles| + 1 && more[..|handles|] == handles && fresh(more[|handles|])
    ensures forall r :: r in signal.listeners ==> r in old(signal.listeners) || fresh(r)
  {
    var h := new OwnedHandle(raw);
    h.LinkWatch(signal);
    more := handles + [h];
  }

  /** Any number of handles created against one owner and dropped in any order, then the owner's death: nobody is
      listening any more, every handle is inert and was unlinked exactly once, by its own drop or by the emission. */
  method OwnerDies<T>(raw: T, events: seq<Event>) returns (signal: Signal<T>, handles: seq<OwnedHandle<T>>)
    ensures |handles| == multiset(events)[Created] && signal.listeners == []
    ensures forall i :: 0 <= i < |handles| ==> handles[i].Inert() && handles[i].unlinks == 1
  {
    LiveIff(events, 0);
    signal := new Signal();
    handles := [];
    for k := 0 to |events|
      invariant fresh(signal) && (forall i :: 0 <= i < |handles| ==> fresh(handles[i]))
      invariant Household(signal, handles, Live(events[..k]))
    {
      assert events[..k + 1][..k] == events[..k];
      match events[k]
      case Created => handles := Create(signal, handles, Live(events[..k]), raw);
      case Dropped(i) =>
        if i < |handles| {
          Release(signal, handles, Live(events[..k]), i);
        }
    }
    assert events[..|events|] == events;
    Bury(signal, handles, Live(events));
  }

  method Release<T>(signal: Signal<T>, handles: seq<OwnedHandle<T>>, ghost live: seq<bool>, i: nat)
    requires Household(signal, handles, live) && i < |handles|
    modifies signal, handles[i]
    ensures Household(signal, handles, live[i := false])
  {
    var raw := handles[i].TakeLiveRaw(signal);
  }

  method Bury<T>(signal: Signal<T>, handles: seq<OwnedHandle<T>>, ghost live: seq<bool>)
    requires Household(signal, handles, live)
    modifies signal, handles
    ensures signal.listeners == []
    ensures forall i :: 0 <= i < |handles| ==> handles[i].Inert() && handles[i].unlinks == 1
  {
    ghost var linked := signal.listeners;
    signal.EmitDestroy();
    forall i | 0 <= i < |handles| ensures handles[i].Inert() && handles[i].unlinks == 1 {
      if live[i] {
        assert old(handles[i].watchedDestroy.value) in linked;
      } else {
        assert forall r :: r in linked ==> old(r.ctx.alive);
      }
    }
  }
}
