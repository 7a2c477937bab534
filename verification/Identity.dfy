/** Object ids: the counter, the addons that carry them, and the functions that attach and find them. */
module Identity {
  import opened Wrappers

  const WORD := 0x1_0000_0000_0000_0000

  // The `(owner, interface)` pair an addon is filed under; each of the crate's kinds is one static.
  datatype Kind = RoleKind | SurfaceKind | OtherKind(name: nat)

  // What a set carries: at most one payload of each kind.
  type Carried = map<Kind, nat>

  // `NEXT_ID.fetch_add(1)`, on 64 bits.
  function Successor(next: nat): nat {
    (next + 1) % WORD
  }

  class Counter {
    var next: nat

    constructor ()
      ensures next == 1
    {
      next := 1;
    }

    method NextId() returns (id: nat)
      modifies this
      ensures id == old(next) && next == Successor(id)
    {
      id := next;
      next := (next + 1) % WORD;
    }
  }

  /** A boxed payload, the `wlr_addon` that links it into a set first. */
  class Addon {
    const kind: Kind
    const data: nat
    var linked: bool
    var boxed: bool

    constructor (kind: Kind, data: nat)
      ensures this.kind == kind && this.data == data && linked && boxed
    {
      this.kind, this.data, linked, boxed := kind, data, true, true;
    }

    // `finish_and_free`: unlink, then free.
    method FinishAndFree()
      requires linked && boxed
      modifies this
      ensures !linked && !boxed
    {
      linked := false;
      boxed := false;
    }
  }

  function Contents(addons: seq<Addon>): Carried {
    if addons == [] then map[] else Contents(addons[1..])[addons[0].kind := addons[0].data]
  }

  lemma {:induction false} ContentsAt(addons: seq<Addon>, i: nat)
    requires i < |addons| && forall j, k :: 0 <= j < k < |addons| ==> addons[j].kind != addons[k].kind
    ensures addons[i].kind in Contents(addons) && Contents(addons)[addons[i].kind] == addons[i].data
  {
    if i > 0 {
      ContentsAt(addons[1..], i - 1);
    }
  }

  lemma {:induction false} ContentsKind(addons: seq<Addon>, kind: Kind)
    requires kind in Contents(addons)
    ensures exists i :: 0 <= i < |addons| && addons[i].kind == kind
  {
    if addons[0].kind != kind {
      ContentsKind(addons[1..], kind);
      var i :| 0 <= i < |addons[1..]| && addons[1..][i].kind == kind;
      assert addons[i + 1].kind == kind;
    }
  }

  /** A `wlr_addon_set`, newest addon first. */
  class AddonSet {
    var addons: seq<Addon>

    constructor ()
      ensures Valid() && addons == []
    {
      addons := [];
    }

    ghost predicate Valid()
      reads this, addons
    {
      && (forall a :: a in addons ==> a.linked && a.boxed)
      && (forall j, k :: 0 <= j < k < |addons| ==> addons[j].kind != addons[k].kind)
    }

    ghost function Carries(): Carried
      reads this
    {
      Contents(addons)
    }

    // `wlr_addon_find`.
    method Find(kind: Kind) returns (found: Addon?)
      requires Valid()
      ensures found == null <==> kind !in Carries()
      ensures found != null ==> found in addons && Carries()[kind] == found.data
    {
      for i := 0 to |addons|
        invariant forall j :: 0 <= j < i ==> addons[j].kind != kind
      {
        if addons[i].kind == kind {
          ContentsAt(addons, i);
          return addons[i];
        }
      }
      if kind in Carries() {
        ContentsKind(addons, kind);
      }
      found := null;
    }

    /** `Addon::attach`: the precondition is the one wlroots aborts on. */
    method Attach(kind: Kind, data: nat) returns (a: Addon)
      requires Valid() && kind !in Carries()
      modifies this
      ensures Valid() && fresh(a) && Carries() == old(Carries())[kind := data] && addons == [a] + old(addons)
    {
      forall i | 0 <= i < |addons| ensures addons[i].kind != kind {
        ContentsAt(addons, i);
      }
      a := new Addon(kind, data);
      addons := [a] + addons;
    }

    /** `wlr_addon_set_finish`, which runs every payload's destroy hook: each is unlinked and freed, once. */
    method Finish()
      requires Valid()
      modifies this, addons
      ensures Valid() && Carries() == map[]
      ensures forall a :: a in old(addons) ==> !a.linked && !a.boxed
    {
      ghost var all, i := addons, 0;
      while addons != []
        invariant Valid() && i <= |all| && addons == all[i..]
        invariant forall j :: 0 <= j < i ==> !all[j].linked && !all[j].boxed
        decreases |addons|
      {
        var first := addons[0];
        first.FinishAndFree();
        addons := addons[1..];
        i := i + 1;
      }
    }
  }

  // `find_id_in`.
  method FindIdIn(carrier: AddonSet, kind: Kind) returns (id: Option<nat>)
    requires carrier.Valid()
    ensures id == if kind in carrier.Carries() then Some(carrier.Carries()[kind]) else None
  {
    var found := carrier.Find(kind);
    id := if found == null then None else Some(found.data);
  }

  // `attach_fresh_id`.
  method AttachFreshId(counter: Counter, carrier: AddonSet, kind: Kind) returns (id: nat)
    requires carrier.Valid() && kind !in carrier.Carries()
    modifies counter, carrier
    ensures carrier.Valid() && carrier.Carries() == old(carrier.Carries())[kind := id]
    ensures id == old(counter.next) && counter.next == Successor(id)
  {
    id := counter.NextId();
    var _ := carrier.Attach(kind, id);
  }

  datatype Panic = AlreadyAttached

  /** `attach_id`: panics on a second role id, and changes nothing then. */
  method AttachId(counter: Counter, carrier: AddonSet) returns (r: Result<nat, Panic>)
    requires carrier.Valid()
    modifies counter, carrier
    ensures carrier.Valid() && (r.Err? <==> RoleKind in old(carrier.Carries()))
    ensures r.Err? ==> carrier.Carries() == old(carrier.Carries()) && counter.next == old(counter.next)
    ensures r.Ok? ==> carrier.Carries() == old(carrier.Carries())[RoleKind := r.value] &&
                      r.value == old(counter.next) && counter.next == Successor(r.value)
  {
    var present := FindIdIn(carrier, RoleKind);
    if present.Some? {
      return Err(AlreadyAttached);
    }
    var id := AttachFreshId(counter, carrier, RoleKind);
    r := Ok(id);
  }

  /** `attach_surface_id`: reports a second surface id. */
  method AttachSurfaceId(counter: Counter, carrier: AddonSet) returns (id: Option<nat>)
    requires carrier.Valid()
    modifies counter, carrier
    ensures carrier.Valid() && (id.None? <==> SurfaceKind in old(carrier.Carries()))
    ensures id.None? ==> carrier.Carries() == old(carrier.Carries()) && counter.next == old(counter.next)
    ensures id.Some? ==> carrier.Carries() == old(carrier.Carries())[SurfaceKind := id.value] &&
                         id.value == old(counter.next) && counter.next == Successor(id.value)
  {
    var present := FindIdIn(carrier, SurfaceKind);
    if present.Some? {
      return None;
    }
    var minted := AttachFreshId(counter, carrier, SurfaceKind);
    id := Some(minted);
  }

  // The id an object has of a kind, given one from the counter if it has none: with what the set then carries and the
  // counter's next value.
  function Ensure(next: nat, carried: Carried, kind: Kind): (nat, Carried, nat) {
    if kind in carried then (carried[kind], carried, next) else (next, carried[kind := next], Successor(next))
  }

  /** `ensure_surface_id_raw`: the third lookup and its `expect` are never reached. */
  method EnsureSurfaceIdRaw(counter: Counter, carrier: AddonSet) returns (id: nat)
    requires carrier.Valid()
    modifies counter, carrier
    ensures carrier.Valid() &&
            (id, carrier.Carries(), counter.next) == Ensure(old(counter.next), old(carrier.Carries()), SurfaceKind)
    ensures if SurfaceKind in old(carrier.Carries())
            then id == old(carrier.Carries())[SurfaceKind] && carrier.Carries() == old(carrier.Carries()) &&
                 counter.next == old(counter.next)
            else id == old(counter.next) && carrier.Carries() == old(carrier.Carries())[SurfaceKind := id] &&
                 counter.next == (id + 1) % WORD
  {
    var present := FindIdIn(carrier, SurfaceKind);
    if present.Some? {
      return present.value;
    }
    var attached := AttachSurfaceId(counter, carrier);
    assert attached.Some?;
    id := attached.value;
  }

  /** `ensure_id_raw`: the assertion in `attach_id` is never reached. */
  method EnsureIdRaw(counter: Counter, carrier: AddonSet) returns (id: nat)
    requires carrier.Valid()
    modifies counter, carrier
    ensures carrier.Valid() &&
            (id, carrier.Carries(), counter.next) == Ensure(old(counter.next), old(carrier.Carries()), RoleKind)
    ensures if RoleKind in old(carrier.Carries())
            then id == old(carrier.Carries())[RoleKind] && carrier.Carries() == old(carrier.Carries()) &&
                 counter.next == old(counter.next)
            else id == old(counter.next) && carrier.Carries() == old(carrier.Carries())[RoleKind := id] &&
                 counter.next == (id + 1) % WORD
  {
    var present := FindIdIn(carrier, RoleKind);
    match present
    case Some(value) => id := value;
    case None =>
      var attached := AttachId(counter, carrier);
      assert attached.Ok?;
      id := attached.value;
  }

  // `dangling_test_id`.
  function DanglingTestId(n: nat): nat {
    WORD - 1 - n % 0x1_0000_0000
  }

  /** The dangling band: the top 2^32 ids, disjoint from every id below it, and two of its ids are equal exactly when
      their numbers agree modulo 2^32. */
  lemma DanglingBand(n: nat, m: nat)
    ensures WORD - 0x1_0000_0000 <= DanglingTestId(n) < WORD
    ensures DanglingTestId(n) == DanglingTestId(m) <==> n % 0x1_0000_0000 == m % 0x1_0000_0000
    ensures DanglingTestId(n) == WORD - 1 <==> n % 0x1_0000_0000 == 0
    ensures n < 0x1_0000_0000 ==> DanglingTestId(n) + n == WORD - 1
  {
  }
}
