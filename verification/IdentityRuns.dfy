/** Identity over whole runs: objects come and go at reused addresses, while ids are drawn, queued and looked up. */
module IdentityRuns {
  import opened Wrappers
  import opened Identity

  // A live object: which one it is among all that ever lived, and what its addon set carries.
  datatype Object = Object(birth: nat, carried: Carried)

  // One value drawn from the counter, and what it was drawn for.
  datatype Draw = Draw(id: nat, owner: Option<(nat, Kind)>)

  // A queued event names an object by its id of some kind; `birth` says which object was meant.
  datatype Event = Event(kind: Kind, id: nat, birth: nat)

  datatype World = World(next: nat, objects: map<nat, Object>, births: nat, draws: seq<Draw>, queue: seq<Event>)

  const START := World(1, map[], 0, [], [])

  datatype Op =
    | Create(at: nat)
    | Free(at: nat)
    | EnsureId(at: nat, kind: Kind)
    | AttachRole(at: nat)
    | AttachOther(at: nat, name: nat, data: nat)
    | DrawPlain
    | Enqueue(at: nat, kind: Kind)
    | Deliver

  predicate IsIdKind(kind: Kind) {
    kind.RoleKind? || kind.SurfaceKind?
  }

  // Attaching under `kind` a value drawn for it, if there is none.
  function AttachTo(w: World, at: nat, kind: Kind): World
    requires at in w.objects
  {
    var o := w.objects[at];
    var (id, carried, next) := Ensure(w.next, o.carried, kind);
    w.(next := next, objects := w.objects[at := o.(carried := carried)],
       draws := if kind in o.carried then w.draws else w.draws + [Draw(id, Some((o.birth, kind)))])
  }

  function Step(w: World, op: Op): World {
    match op
    case Create(at) =>
      if at in w.objects then w
      else w.(objects := w.objects[at := Object(w.births, map[])], births := w.births + 1)
    case Free(at) => w.(objects := w.objects - {at})
    case EnsureId(at, kind) => if at in w.objects && IsIdKind(kind) then AttachTo(w, at, kind) else w
    case AttachRole(at) =>
      if at in w.objects && RoleKind !in w.objects[at].carried then AttachTo(w, at, RoleKind) else w
    case AttachOther(at, name, data) =>
      if at in w.objects && OtherKind(name) !in w.objects[at].carried
      then
        var o := w.objects[at];
        w.(objects := w.objects[at := o.(carried := o.carried[OtherKind(name) := data])])
      else w
    case DrawPlain => w.(next := Successor(w.next), draws := w.draws + [Draw(w.next, None)])
    case Enqueue(at, kind) =>
      if at in w.objects && IsIdKind(kind) && kind in w.objects[at].carried
      then w.(queue := w.queue + [Event(kind, w.objects[at].carried[kind], w.objects[at].birth)]) else w
    case Deliver => w.(queue := if w.queue == [] then [] else w.queue[1..])
  }

  function Run(w: World, ops: seq<Op>): World
    decreases ops
  {
    if ops == [] then w else Run(Step(w, ops[0]), ops[1..])
  }

  // The counter: draw number k (from 0) yields k + 1, modulo the word.
  ghost predicate Counts(w: World) {
    w.next == (|w.draws| + 1) % WORD && forall k :: 0 <= k < |w.draws| ==> w.draws[k].id == (k + 1) % WORD
  }

  ghost predicate Drawn(draws: seq<Draw>, id: nat, birth: nat, kind: Kind) {
    Draw(id, Some((birth, kind))) in draws
  }

  // Every id on a live object was drawn for that object and that kind.
  ghost predicate Objects(w: World) {
    && (forall at :: at in w.objects ==> w.objects[at].birth < w.births)
    && (forall a, b :: a in w.objects && b in w.objects && w.objects[a].birth == w.objects[b].birth ==> a == b)
    && (forall at, kind :: at in w.objects && IsIdKind(kind) && kind in w.objects[at].carried ==>
          Drawn(w.draws, w.objects[at].carried[kind], w.objects[at].birth, kind))
  }

  // Every queued id was drawn for the object meant, which still carries it if it still lives.
  ghost predicate Queue(w: World) {
    forall e :: e in w.queue ==>
      && IsIdKind(e.kind) && e.birth < w.births && Drawn(w.draws, e.id, e.birth, e.kind)
      && forall at :: at in w.objects && w.objects[at].birth == e.birth ==>
           e.kind in w.objects[at].carried && w.objects[at].carried[e.kind] == e.id
  }

  ghost predicate Inv(w: World) {
    Counts(w) && Objects(w) && Queue(w)
  }

  lemma CountOn(n: nat)
    ensures Successor((n + 1) % WORD) == (n + 2) % WORD
  {
  }

  lemma AttachKeepsInv(w: World, at: nat, kind: Kind)
    requires Inv(w) && at in w.objects && IsIdKind(kind)
    ensures Inv(AttachTo(w, at, kind))
  {
    var n := AttachTo(w, at, kind);
    if kind !in w.objects[at].carried {
      CountOn(|w.draws|);
      assert n.draws == w.draws + [Draw(w.next, Some((w.objects[at].birth, kind)))];
    } else {
      assert n.objects == w.objects;
    }
  }

  lemma CreateKeepsInv(w: World, at: nat)
    requires Inv(w)
    ensures Inv(Step(w, Create(at)))
  {
  }

  lemma FreeKeepsInv(w: World, at: nat)
    requires Inv(w)
    ensures Inv(Step(w, Free(at)))
  {
  }

  lemma OtherKeepsInv(w: World, at: nat, name: nat, data: nat)
    requires Inv(w)
    ensures Inv(Step(w, AttachOther(at, name, data)))
  {
  }

  lemma PlainKeepsInv(w: World)
    requires Inv(w)
    ensures Inv(Step(w, DrawPlain))
  {
    CountOn(|w.draws|);
  }

  lemma EnqueueKeepsInv(w: World, at: nat, kind: Kind)
    requires Inv(w)
    ensures Inv(Step(w, Enqueue(at, kind)))
  {
  }

  lemma DeliverKeepsInv(w: World)
    requires Inv(w)
    ensures Inv(Step(w, Deliver))
  {
  }

  lemma StepKeepsInv(w: World, op: Op)
    requires Inv(w)
    ensures Inv(Step(w, op))
  {
    match op
    case Create(at) => CreateKeepsInv(w, at);
    case Free(at) => FreeKeepsInv(w, at);
    case EnsureId(at, kind) => if at in w.objects && IsIdKind(kind) { AttachKeepsInv(w, at, kind); }
    case AttachRole(at) => if at in w.objects { AttachKeepsInv(w, at, RoleKind); }
    case AttachOther(at, name, data) => OtherKeepsInv(w, at, name, data);
    case DrawPlain => PlainKeepsInv(w);
    case Enqueue(at, kind) => EnqueueKeepsInv(w, at, kind);
    case Deliver => DeliverKeepsInv(w);
  }

  lemma {:induction false} RunKeepsInv(w: World, ops: seq<Op>)
    requires Inv(w)
    ensures Inv(Run(w, ops))
    decreases ops
  {
    if ops != [] {
      StepKeepsInv(w, ops[0]);
      RunKeepsInv(Step(w, ops[0]), ops[1..]);
    }
  }

  ghost predicate Lives(w: World, birth: nat) {
    exists at :: at in w.objects && w.objects[at].birth == birth
  }

  predicate Carries(carried: Carried, kind: Kind, id: nat) {
    kind in carried && carried[kind] == id
  }

  // Looking an id up finds the object of that birth.
  ghost predicate ResolvesTo(w: World, kind: Kind, id: nat, birth: nat) {
    exists at :: at in w.objects && w.objects[at].birth == birth && Carries(w.objects[at].carried, kind, id)
  }

  // A queued event's id resolves to the object meant while it lives, and to nothing afterwards.
  ghost predicate EventsNameTheirObject(w: World) {
    forall e, birth :: e in w.queue ==> (ResolvesTo(w, e.kind, e.id, birth) <==> birth == e.birth && Lives(w, e.birth))
  }

  // No id is carried twice, by two objects or under two kinds.
  ghost predicate IdsAreUnique(w: World) {
    forall a, b, k, l ::
      Carrying(w, a, k) && Carrying(w, b, l) && w.objects[a].carried[k] == w.objects[b].carried[l] ==> a == b && k == l
  }

  ghost predicate Carrying(w: World, at: nat, kind: Kind) {
    at in w.objects && IsIdKind(kind) && kind in w.objects[at].carried
  }

  lemma DrawsAreDistinct(w: World, j: nat, k: nat)
    requires Counts(w) && |w.draws| <= WORD && j < |w.draws| && k < |w.draws| && w.draws[j].id == w.draws[k].id
    ensures j == k
  {
  }

  lemma OneOwner(w: World, id: nat, birth: nat, kind: Kind, other: nat, otherKind: Kind)
    requires Counts(w) && |w.draws| <= WORD
    requires Drawn(w.draws, id, birth, kind) && Drawn(w.draws, id, other, otherKind)
    ensures birth == other && kind == otherKind
  {
    var j: nat :| j < |w.draws| && w.draws[j] == Draw(id, Some((birth, kind)));
    var k: nat :| k < |w.draws| && w.draws[k] == Draw(id, Some((other, otherKind)));
    DrawsAreDistinct(w, j, k);
  }

  lemma EventsHold(w: World)
    requires Inv(w) && |w.draws| <= WORD
    ensures EventsNameTheirObject(w)
  {
    forall e, birth | e in w.queue
      ensures ResolvesTo(w, e.kind, e.id, birth) <==> birth == e.birth && Lives(w, e.birth)
    {
      if ResolvesTo(w, e.kind, e.id, birth) {
        OneOwner(w, e.id, birth, e.kind, e.birth, e.kind);
      }
    }
  }

  lemma IdsHold(w: World)
    requires Inv(w) && |w.draws| <= WORD
    ensures IdsAreUnique(w)
  {
    forall a, b, k, l | Carrying(w, a, k) && Carrying(w, b, l) && w.objects[a].carried[k] == w.objects[b].carried[l]
      ensures a == b && k == l
    {
      OneOwner(w, w.objects[a].carried[k], w.objects[a].birth, k, w.objects[b].birth, l);
    }
  }

  lemma StartHolds()
    ensures Inv(START)
  {
  }

  /** As long as the counter has not wrapped, every run keeps ids unique and every queued event names its object or
      nothing, whatever addresses wlroots reuses. */
  lemma IdentityHolds(ops: seq<Op>)
    requires |Run(START, ops).draws| <= WORD
    ensures IdsAreUnique(Run(START, ops)) && EventsNameTheirObject(Run(START, ops))
  {
    StartHolds();
    RunKeepsInv(START, ops);
    EventsHold(Run(START, ops));
    IdsHold(Run(START, ops));
  }

  function Plain(n: nat): seq<Op> {
    if n == 0 then [] else [DrawPlain] + Plain(n - 1)
  }

  lemma {:induction false} PlainDraws(w: World, n: nat)
    requires w.next < WORD
    ensures var v := Run(w, Plain(n));
            v.next == (w.next + n) % WORD && |v.draws| == |w.draws| + n &&
            v.objects == w.objects && v.births == w.births && v.queue == w.queue
    decreases n
  {
    if n > 0 {
      var v := Step(w, DrawPlain);
      assert Plain(n)[1..] == Plain(n - 1);
      PlainDraws(v, n - 1);
      ShiftBack(w.next, n);
    }
  }

  lemma ShiftBack(next: nat, n: nat)
    requires n > 0 && next < WORD
    ensures (Successor(next) + (n - 1)) % WORD == (next + n) % WORD
  {
    if next + 1 == WORD {
      assert Successor(next) == 0 && next + n == WORD + (n - 1);
      AddWord(n - 1);
    } else {
      assert Successor(next) == next + 1;
    }
  }

  lemma AddWord(n: nat)
    ensures (WORD + n) % WORD == n % WORD
  {
    var q, r := n / WORD, n % WORD;
    assert n == q * WORD + r;
    ModOf(q, r);
    ModOf(q + 1, r);
  }

  lemma ModOf(q: nat, r: nat)
    requires r < WORD
    ensures (q * WORD + r) % WORD == r
  {
  }

  lemma {:induction false} RunConcat(w: World, a: seq<Op>, b: seq<Op>)
    ensures Run(w, a + b) == Run(Run(w, a), b)
    decreases a
  {
    if a == [] {
      assert a + b == b;
    } else {
      assert (a + b)[1..] == a[1..] + b;
      RunConcat(Step(w, a[0]), a[1..], b);
    }
  }

  lemma RunTwo(w: World, x: Op, y: Op)
    ensures Run(w, [x, y]) == Step(Step(w, x), y)
  {
    var v := Step(w, x);
    assert [x, y][1..] == [y] && [y][1..] == [];
    assert Run(Step(v, y), []) == Step(v, y);
    assert Run(v, [y]) == Step(v, y);
  }

  // An object is named, announced and freed; the counter goes once round; another object takes its address and its id.
  function OnceRound(): seq<Op> {
    [Create(0), EnsureId(0, RoleKind)] +
      ([Enqueue(0, RoleKind), Free(0)] + (Plain(WORD - 1) + [Create(0), EnsureId(0, RoleKind)]))
  }

  lemma OnceRoundConfuses()
    ensures var w := Run(START, OnceRound());
            |w.draws| == WORD + 1 && w.queue == [Event(RoleKind, 1, 0)] && ResolvesTo(w, RoleKind, 1, 1)
    ensures !EventsNameTheirObject(Run(START, OnceRound()))
  {
    var announce, again := [Enqueue(0, RoleKind), Free(0)], [Create(0), EnsureId(0, RoleKind)];
    var rest := Plain(WORD - 1) + again;
    RunConcat(START, again, announce + rest);
    RunTwo(START, again[0], again[1]);
    var a := Run(START, again);
    assert a == World(2, map[0 := Object(0, map[RoleKind := 1])], 1, [Draw(1, Some((0, RoleKind)))], []);
    RunConcat(a, announce, rest);
    RunTwo(a, announce[0], announce[1]);
    var b := Run(a, announce);
    assert b == World(2, map[], 1, [Draw(1, Some((0, RoleKind)))], [Event(RoleKind, 1, 0)]);
    RunConcat(b, Plain(WORD - 1), again);
    PlainDraws(b, WORD - 1);
    var c := Run(b, Plain(WORD - 1));
    assert c.next == 1;
    RunTwo(c, again[0], again[1]);
    var w := Run(c, again);
    assert w.objects == map[0 := Object(1, map[RoleKind := 1])];
    assert ResolvesTo(w, RoleKind, 1, 1);
    assert Event(RoleKind, 1, 0) in w.queue;
  }

  function DrawCount(ops: seq<Op>): nat {
    |Run(START, ops).draws|
  }

  ghost predicate EventsSafeAfter(ops: seq<Op>) {
    EventsNameTheirObject(Run(START, ops))
  }

  /** Ids are safe for exactly as many draws as the counter has values. */
  lemma SafeIffWithinTheWord(bound: nat)
    ensures (forall ops :: DrawCount(ops) <= bound ==> EventsSafeAfter(ops)) <==> bound <= WORD
  {
    if bound <= WORD {
      forall ops | DrawCount(ops) <= bound ensures EventsSafeAfter(ops) {
        IdentityHolds(ops);
      }
    } else {
      OnceRoundConfuses();
      assert DrawCount(OnceRound()) <= bound && !EventsSafeAfter(OnceRound());
    }
  }

  /** No id ever drawn lies in the dangling band exactly when fewer than 2^64 - 2^32 have been drawn. */
  lemma DanglingBandIsFreeIff(ops: seq<Op>)
    ensures var draws := Run(START, ops).draws;
            (forall d, n: nat :: d in draws ==> d.id != DanglingTestId(n)) <==> |draws| < WORD - 0x1_0000_0000
  {
    StartHolds();
    RunKeepsInv(START, ops);
    var draws := Run(START, ops).draws;
    if |draws| < WORD - 0x1_0000_0000 {
      forall d, n: nat | d in draws ensures d.id != DanglingTestId(n) {
        DanglingBand(n, n);
      }
    } else {
      var d := draws[WORD - 0x1_0000_0000 - 1];
      assert d in draws && d.id == DanglingTestId(0xffff_ffff);
    }
  }
}
