/** The mapping guard: wlroots' per-buffer bracket, the thread's count of open mappings, and the calls that refuse. */
module Buffers {
  import opened Wrappers
  import opened Extents

  // What a buffer implementation answers when its data pointer is asked for.
  datatype Impl = Refuses | NullPointer | Region(format: FourCc, stride: nat)

  /** A `wlr_buffer`. The preconditions are the assertions of `types/buffer.c`. */
  class WlrBuffer {
    const width: int
    const height: int
    var accessing: bool
    // The caller's reference was given up; nothing may touch the buffer any more.
    var released: bool

    constructor (width: int, height: int)
      ensures this.width == width && this.height == height && !accessing && !released
    {
      this.width, this.height, accessing, released := width, height, false, false;
    }

    method BeginAccess(impl: Impl) returns (ok: bool)
      requires !accessing && !released
      modifies this`accessing
      ensures ok == !impl.Refuses? && accessing == ok
    {
      ok := !impl.Refuses?;
      accessing := ok;
    }

    method EndAccess()
      requires accessing && !released
      modifies this`accessing
      ensures !accessing
    {
      accessing := false;
    }

    // A renderer's own bracket, opened and closed inside one call.
    method TextureBracket(impl: Impl)
      requires !accessing && !released
      modifies this`accessing
      ensures !accessing
    {
      var ok := BeginAccess(impl);
      if ok {
        EndAccess();
      }
    }

    // `wlr_buffer_drop` and `wlr_buffer_unlock`.
    method GiveUp()
      requires !accessing && !released
      modifies this`released
      ensures released
    {
      released := true;
    }
  }

  /** The guard. */
  class BufferDataAccess {
    const raw: WlrBuffer
    const len: nat
    const stride: nat

    constructor (raw: WlrBuffer, len: nat, stride: nat)
      ensures this.raw == raw && this.len == len && this.stride == stride
    {
      this.raw, this.len, this.stride := raw, len, stride;
    }
  }

  // Whether `begin_data_ptr_access` grants a mapping of a buffer that has none.
  predicate Grants(width: int, height: int, impl: Impl, max: nat) {
    impl.Region? && MappedLen(impl.format, width, height, impl.stride, max).Some?
  }

  // `usize::saturating_sub`.
  function SaturatingSub(a: nat, b: nat): nat {
    if a < b then 0 else a - b
  }

  /** One thread: its count, and the guards that are live on it. */
  class Mappings {
    var open: nat
    ghost var live: set<BufferDataAccess>

    constructor ()
      ensures open == 0 && live == {}
    {
      open, live := 0, {};
    }

    // The count is the number of live guards; a buffer is being accessed exactly when a guard is live on it, and no
    // buffer has two.
    ghost predicate Valid(bufs: set<WlrBuffer>)
      reads this, bufs
    {
      && open == |live|
      && (forall g :: g in live ==> g.raw in bufs && g.raw.accessing && !g.raw.released)
      && (forall b :: b in bufs && b.accessing ==> exists g :: g in live && g.raw == b)
      && (forall g, h :: g in live && h in live && g.raw == h.raw ==> g == h)
    }

    /** `begin_data_ptr_access`. */
    method Begin(ghost bufs: set<WlrBuffer>, b: WlrBuffer, impl: Impl, max: nat) returns (guard: BufferDataAccess?)
      requires Valid(bufs) && b in bufs && !b.released
      modifies this, b`accessing
      ensures Valid(bufs)
      ensures guard != null <==>
                !old(b.accessing) && impl.Region? && MappedLen(impl.format, b.width, b.height, impl.stride, max).Some?
      ensures guard == null ==> live == old(live) && b.accessing == old(b.accessing)
      ensures guard != null ==>
                && fresh(guard) && live == old(live) + {guard} && guard.raw == b && guard.stride == impl.stride
                && Some(guard.len) == MappedLen(impl.format, b.width, b.height, impl.stride, max)
    {
      if b.accessing {
        return null;
      }
      var ok := b.BeginAccess(impl);
      if !ok {
        return null;
      }
      if impl.NullPointer? {
        b.EndAccess();
        return null;
      }
      var len := MappedLen(impl.format, b.width, b.height, impl.stride, max);
      if len.None? {
        b.EndAccess();
        return null;
      }
      open := open + 1;
      guard := new BufferDataAccess(b, len.value, impl.stride);
      live := live + {guard};
    }

    /** The guard's `Drop`: the decrement saturates in the source, and never has to. */
    method Drop(ghost bufs: set<WlrBuffer>, guard: BufferDataAccess)
      requires Valid(bufs) && guard in live
      modifies this, guard.raw`accessing
      ensures Valid(bufs) && live == old(live) - {guard} && !guard.raw.accessing
      ensures old(open) > 0 && open == old(open) - 1
    {
      guard.raw.EndAccess();
      open := SaturatingSub(open, 1);
      live := live - {guard};
    }

    /** The calls handed one buffer: `texture_from_buffer`, `begin_buffer_pass`, `update_from_buffer` and
        `buffer_image`. */
    method UseBuffer(ghost bufs: set<WlrBuffer>, b: WlrBuffer, impl: Impl) returns (refused: bool)
      requires Valid(bufs) && b in bufs && !b.released
      modifies b`accessing
      ensures Valid(bufs) && b.accessing == old(b.accessing)
      ensures refused <==> exists g :: g in live && g.raw == b
    {
      if b.accessing {
        return true;
      }
      b.TextureBracket(impl);
      refused := false;
    }

    /** The commits, which texture whatever buffers the scene holds. */
    method Commit(ghost bufs: set<WlrBuffer>, scene: seq<(WlrBuffer, Impl)>) returns (refused: bool)
      requires Valid(bufs) && forall s :: s in scene ==> s.0 in bufs && !s.0.released
      modifies bufs`accessing
      ensures Valid(bufs) && forall b :: b in bufs ==> b.accessing == old(b.accessing)
      ensures refused <==> live != {}
    {
      if open != 0 {
        return true;
      }
      for i := 0 to |scene|
        invariant forall b :: b in bufs ==> !b.accessing
      {
        scene[i].0.TextureBracket(scene[i].1);
      }
      refused := false;
    }

    /** Dropping the owner of a buffer: the borrow a guard holds keeps it away until the guard is gone, and then the
        assertion of wlroots holds. */
    method Release(ghost bufs: set<WlrBuffer>, b: WlrBuffer)
      requires Valid(bufs) && b in bufs && !b.released && forall g :: g in live ==> g.raw != b
      modifies b`released
      ensures Valid(bufs) && b.released
    {
      b.GiveUp();
    }
  }

  /** One client operation on buffer number `buffer`.  A guard is dropped only by whoever holds one; a buffer is used
      only while its owner is there, and the owner is given up only while nothing borrows from it. */
  datatype Op =
    | Begin(buffer: nat, impl: Impl)
    | DropGuard(buffer: nat)
    | Use(buffer: nat, impl: Impl)
    | CommitAll(impl: Impl)
    | GiveUp(buffer: nat)

  // The buffers with an open mapping, and those that were given up.
  datatype Table = Table(open: set<nat>, gone: set<nat>)

  datatype Answer = Done | Refused

  // The table after `op`, and what the caller sees.
  function Next(t: Table, op: Op, sizes: seq<(int, int)>, max: nat): (Table, Answer) {
    match op
    case Begin(i, impl) =>
      if i < |sizes| && i !in t.gone && i !in t.open && Grants(sizes[i].0, sizes[i].1, impl, max)
      then (t.(open := t.open + {i}), Done) else (t, Refused)
    case DropGuard(i) => if i in t.open then (t.(open := t.open - {i}), Done) else (t, Refused)
    case Use(i, _) => (t, if i < |sizes| && i !in t.gone && i !in t.open then Done else Refused)
    case CommitAll(_) => (t, if t.open == {} then Done else Refused)
    case GiveUp(i) =>
      if i < |sizes| && i !in t.gone && i !in t.open then (t.(gone := t.gone + {i}), Done) else (t, Refused)
  }

  function After(t: Table, ops: seq<Op>, sizes: seq<(int, int)>, max: nat): Table
    decreases ops
  {
    if ops == [] then t else After(Next(t, ops[0], sizes, max).0, ops[1..], sizes, max)
  }

  function Answers(t: Table, ops: seq<Op>, sizes: seq<(int, int)>, max: nat): seq<Answer>
    decreases ops
  {
    if ops == [] then []
    else
      var step := Next(t, ops[0], sizes, max);
      [step.1] + Answers(step.0, ops[1..], sizes, max)
  }

  // What the answers up to operation k say about buffer i.

  ghost predicate Did(ops: seq<Op>, answers: seq<Answer>, j: nat, op: Op) {
    j < |ops| && j < |answers| && ops[j] == op && answers[j] == Done
  }

  // Operation j began a mapping of buffer i.
  ghost predicate Began(ops: seq<Op>, answers: seq<Answer>, j: nat, i: nat) {
    exists impl :: Did(ops, answers, j, Begin(i, impl))
  }

  // A mapping of buffer i was begun and not dropped since.
  ghost predicate IsOpen(ops: seq<Op>, answers: seq<Answer>, k: nat, i: nat) {
    exists j: nat :: j < k && Began(ops, answers, j, i) &&
                     forall l: nat :: j < l < k ==> !Did(ops, answers, l, DropGuard(i))
  }

  ghost predicate IsGone(ops: seq<Op>, answers: seq<Answer>, k: nat, i: nat) {
    exists j: nat :: j < k && Did(ops, answers, j, GiveUp(i))
  }

  ghost predicate IsFree(ops: seq<Op>, answers: seq<Answer>, sizes: seq<(int, int)>, k: nat, i: nat) {
    i < |sizes| && !IsOpen(ops, answers, k, i) && !IsGone(ops, answers, k, i)
  }

  lemma {:induction false} AnswerAt(t: Table, ops: seq<Op>, sizes: seq<(int, int)>, max: nat, k: nat)
    requires k < |ops|
    ensures var next := Next(After(t, ops[..k], sizes, max), ops[k], sizes, max);
            && |Answers(t, ops, sizes, max)| == |ops| && Answers(t, ops, sizes, max)[k] == next.1
            && After(t, ops[..k + 1], sizes, max) == next.0
    decreases ops
  {
    var step := Next(t, ops[0], sizes, max);
    assert ops[..k + 1][1..] == ops[1..][..k];
    if k > 0 {
      assert ops[..k][1..] == ops[1..][..k - 1] && ops[1..][k - 1] == ops[k];
      AnswerAt(step.0, ops[1..], sizes, max, k - 1);
    } else {
      assert ops[..1] == [ops[0]] && ops[1..][..0] == [];
      if |ops| > 1 {
        AnswerAt(step.0, ops[1..], sizes, max, 0);
      }
    }
  }

  // The table after k operations, read off the answers.
  lemma {:induction false} TableIs(ops: seq<Op>, sizes: seq<(int, int)>, max: nat, k: nat, i: nat)
    requires k <= |ops|
    ensures var t, answers := After(Table({}, {}), ops[..k], sizes, max), Answers(Table({}, {}), ops, sizes, max);
            (i in t.open <==> IsOpen(ops, answers, k, i)) && (i in t.gone <==> IsGone(ops, answers, k, i))
  {
    if k > 0 {
      var answers := Answers(Table({}, {}), ops, sizes, max);
      TableIs(ops, sizes, max, k - 1, i);
      AnswerAt(Table({}, {}), ops, sizes, max, k - 1);
      OpenSnoc(ops, answers, k - 1, i);
      GoneSnoc(ops, answers, k - 1, i);
    }
  }

  lemma OpenSnoc(ops: seq<Op>, answers: seq<Answer>, k: nat, i: nat)
    requires k < |ops| == |answers|
    ensures IsOpen(ops, answers, k + 1, i) <==>
            if answers[k] == Done && ops[k].Begin? && ops[k].buffer == i then true
            else IsOpen(ops, answers, k, i) && !Did(ops, answers, k, DropGuard(i))
  {
    if answers[k] == Done && ops[k].Begin? && ops[k].buffer == i {
      assert Did(ops, answers, k, Begin(i, ops[k].impl));
      assert Began(ops, answers, k, i);
    }
  }

  lemma GoneSnoc(ops: seq<Op>, answers: seq<Answer>, k: nat, i: nat)
    requires k < |ops| == |answers|
    ensures IsGone(ops, answers, k + 1, i) <==> IsGone(ops, answers, k, i) || Did(ops, answers, k, GiveUp(i))
  {
  }

  /** Which operations are refused, said of the answers before: a mapping is granted on a free buffer whose extent is
      bounded, a guard is dropped while there is one, a free buffer is used or given up, and a commit goes through while
      no mapping is open. */
  lemma AnswersAreExact(ops: seq<Op>, sizes: seq<(int, int)>, max: nat, k: nat)
    requires k < |ops|
    ensures var answers := Answers(Table({}, {}), ops, sizes, max);
            && |answers| == |ops|
            && (answers[k] == Done <==>
                match ops[k]
                case Begin(i, impl) =>
                  && IsFree(ops, answers, sizes, k, i) && impl.Region?
                  && MappedLen(impl.format, sizes[i].0, sizes[i].1, impl.stride, max).Some?
                case DropGuard(i) => IsOpen(ops, answers, k, i)
                case Use(i, _) => IsFree(ops, answers, sizes, k, i)
                case CommitAll(_) => forall i: nat :: !IsOpen(ops, answers, k, i)
                case GiveUp(i) => IsFree(ops, answers, sizes, k, i))
  {
    AnswerAt(Table({}, {}), ops, sizes, max, k);
    forall i: nat {
      TableIs(ops, sizes, max, k, i);
    }
  }

  ghost function All(bufs: seq<WlrBuffer>): set<WlrBuffer> {
    set b | b in bufs
  }

  ghost predicate Sized(bufs: seq<WlrBuffer>, sizes: seq<(int, int)>) {
    && |bufs| == |sizes| && (forall i :: 0 <= i < |bufs| ==> (bufs[i].width, bufs[i].height) == sizes[i])
    && (forall i, j :: 0 <= i < j < |bufs| ==> bufs[i] != bufs[j])
  }

  // `guards` are the live guards, each under the number of its buffer.
  ghost predicate Holds(live: set<BufferDataAccess>, bufs: seq<WlrBuffer>, guards: map<nat, BufferDataAccess>) {
    && (forall i :: i in guards ==> i < |bufs| && guards[i].raw == bufs[i] && guards[i] in live)
    && (forall g :: g in live ==> exists i :: i in guards && guards[i] == g)
  }

  // The heap realises a table: the keys of `guards`, and the buffers given up.
  ghost predicate Realises(m: Mappings, bufs: seq<WlrBuffer>, sizes: seq<(int, int)>,
                           guards: map<nat, BufferDataAccess>, gone: set<nat>)
    reads m, bufs
  {
    && m.Valid(All(bufs)) && Sized(bufs, sizes) && Holds(m.live, bufs, guards)
    && forall i :: 0 <= i < |bufs| ==> (bufs[i].released <==> i in gone)
  }

  // Buffer i is being accessed exactly when its client holds a guard.
  lemma AccessedIffOpen(m: Mappings, bufs: seq<WlrBuffer>, sizes: seq<(int, int)>, guards: map<nat, BufferDataAccess>,
                        gone: set<nat>, i: nat)
    requires Realises(m, bufs, sizes, guards, gone) && i < |bufs|
    ensures bufs[i] in All(bufs) && (bufs[i].accessing <==> i in guards)
    ensures i !in guards ==> forall g :: g in m.live ==> g.raw != bufs[i]
  {
    forall g | g in m.live && g.raw == bufs[i] ensures i in guards {
      var j :| j in guards && guards[j] == g;
      assert bufs[j] == bufs[i];
    }
  }

  lemma NoneLive(live: set<BufferDataAccess>, bufs: seq<WlrBuffer>, guards: map<nat, BufferDataAccess>)
    requires Holds(live, bufs, guards)
    ensures live == {} <==> guards.Keys == {}
  {
    if live != {} {
      var g :| g in live;
      assert exists i :: i in guards && guards[i] == g;
    }
  }

  lemma OpenIsCount(m: Mappings, bufs: seq<WlrBuffer>, sizes: seq<(int, int)>, guards: map<nat, BufferDataAccess>,
                    gone: set<nat>)
    requires Realises(m, bufs, sizes, guards, gone)
    ensures m.open == |guards.Keys|
  {
    SameCount(guards, m.live);
  }

  lemma {:induction false} SameCount(guards: map<nat, BufferDataAccess>, live: set<BufferDataAccess>)
    requires forall i :: i in guards ==> guards[i] in live
    requires forall g :: g in live ==> exists i :: i in guards && guards[i] == g
    requires forall i, j :: i in guards && j in guards && i != j ==> guards[i] != guards[j]
    ensures |guards.Keys| == |live|
  {
    if guards.Keys == {} {
      assert live == {};
    } else {
      var i :| i in guards;
      var rest := guards - {i};
      assert rest.Keys == guards.Keys - {i};
      forall g | g in live - {guards[i]} ensures exists j :: j in rest && rest[j] == g {
        var j :| j in guards && guards[j] == g;
        assert j in rest;
      }
      SameCount(rest, live - {guards[i]});
    }
  }

  lemma NewGuard(bufs: seq<WlrBuffer>, guards: map<nat, BufferDataAccess>, live: set<BufferDataAccess>, i: nat,
                 guard: BufferDataAccess)
    requires Holds(live, bufs, guards) && i !in guards && i < |bufs| && guard.raw == bufs[i]
    ensures Holds(live + {guard}, bufs, guards[i := guard]) && guards[i := guard].Keys == guards.Keys + {i}
  {
    var held := guards[i := guard];
    assert held.Keys == guards.Keys + {i};
    forall g | g in live + {guard} ensures exists j :: j in held && held[j] == g {
      if g in live {
        var j :| j in guards && guards[j] == g;
        assert held[j] == g;
      } else {
        assert held[i] == g;
      }
    }
  }

  lemma LessGuard(bufs: seq<WlrBuffer>, sizes: seq<(int, int)>, guards: map<nat, BufferDataAccess>,
                  live: set<BufferDataAccess>, i: nat)
    requires Holds(live, bufs, guards) && Sized(bufs, sizes) && i in guards
    ensures Holds(live - {guards[i]}, bufs, guards - {i}) && (guards - {i}).Keys == guards.Keys - {i}
  {
    var held := guards - {i};
    forall g | g in live - {guards[i]} ensures exists j :: j in held && held[j] == g {
      var j :| j in guards && guards[j] == g;
      assert held[j] == g;
    }
  }

  // The operations of a client that holds `guards`.

  method DoBegin(m: Mappings, bufs: seq<WlrBuffer>, ghost sizes: seq<(int, int)>, guards: map<nat, BufferDataAccess>,
                 ghost gone: set<nat>, i: nat, impl: Impl, max: nat)
    returns (answer: Answer, held: map<nat, BufferDataAccess>)
    requires Realises(m, bufs, sizes, guards, gone)
    modifies m, bufs
    ensures Realises(m, bufs, sizes, held, gone)
    ensures (Table(held.Keys, gone), answer) == Next(Table(guards.Keys, gone), Begin(i, impl), sizes, max)
  {
    answer, held := Refused, guards;
    if i < |bufs| && !bufs[i].released {
      var granted;
      granted, held := BeginAt(m, bufs, sizes, guards, gone, i, impl, max);
      answer := if granted then Done else Refused;
    }
  }

  method BeginAt(m: Mappings, bufs: seq<WlrBuffer>, ghost sizes: seq<(int, int)>, guards: map<nat, BufferDataAccess>,
                 ghost gone: set<nat>, i: nat, impl: Impl, max: nat)
    returns (granted: bool, held: map<nat, BufferDataAccess>)
    requires Realises(m, bufs, sizes, guards, gone) && i < |bufs| && !bufs[i].released
    modifies m, bufs
    ensures Realises(m, bufs, sizes, held, gone)
    ensures granted <==> i !in guards && Grants(sizes[i].0, sizes[i].1, impl, max)
    ensures held.Keys == if granted then guards.Keys + {i} else guards.Keys
  {
    AccessedIffOpen(m, bufs, sizes, guards, gone, i);
    assert sizes[i] == (bufs[i].width, bufs[i].height);
    ghost var before := m.live;
    var guard := m.Begin(All(bufs), bufs[i], impl, max);
    granted, held := guard != null, guards;
    if guard != null {
      NewGuard(bufs, guards, before, i, guard);
      held := guards[i := guard];
    }
  }

  method DoDrop(m: Mappings, bufs: seq<WlrBuffer>, ghost sizes: seq<(int, int)>, guards: map<nat, BufferDataAccess>,
                ghost gone: set<nat>, i: nat, max: nat)
    returns (answer: Answer, held: map<nat, BufferDataAccess>)
    requires Realises(m, bufs, sizes, guards, gone)
    modifies m, bufs
    ensures Realises(m, bufs, sizes, held, gone)
    ensures (Table(held.Keys, gone), answer) == Next(Table(guards.Keys, gone), DropGuard(i), sizes, max)
  {
    answer, held := Refused, guards;
    if i in guards {
      LessGuard(bufs, sizes, guards, m.live, i);
      m.Drop(All(bufs), guards[i]);
      answer, held := Done, guards - {i};
    }
  }

  method DoUse(m: Mappings, bufs: seq<WlrBuffer>, ghost sizes: seq<(int, int)>,
               ghost guards: map<nat, BufferDataAccess>, ghost gone: set<nat>, i: nat, impl: Impl, max: nat)
    returns (answer: Answer)
    requires Realises(m, bufs, sizes, guards, gone)
    modifies bufs
    ensures Realises(m, bufs, sizes, guards, gone)
    ensures (Table(guards.Keys, gone), answer) == Next(Table(guards.Keys, gone), Use(i, impl), sizes, max)
  {
    answer := Refused;
    if i < |bufs| && !bufs[i].released {
      AccessedIffOpen(m, bufs, sizes, guards, gone, i);
      var refused := m.UseBuffer(All(bufs), bufs[i], impl);
      AccessedIffOpen(m, bufs, sizes, guards, gone, i);
      answer := if refused then Refused else Done;
    }
  }

  // The scene holds every buffer that is still there.
  method Scene(bufs: seq<WlrBuffer>, impl: Impl) returns (scene: seq<(WlrBuffer, Impl)>)
    ensures forall s :: s in scene ==> s.0 in All(bufs) && !s.0.released
  {
    scene := [];
    for i := 0 to |bufs|
      invariant forall s :: s in scene ==> s.0 in All(bufs) && !s.0.released
    {
      if !bufs[i].released {
        scene := scene + [(bufs[i], impl)];
      }
    }
  }

  method DoCommit(m: Mappings, bufs: seq<WlrBuffer>, ghost sizes: seq<(int, int)>,
                  ghost guards: map<nat, BufferDataAccess>, ghost gone: set<nat>, impl: Impl, max: nat)
    returns (answer: Answer)
    requires Realises(m, bufs, sizes, guards, gone)
    modifies bufs
    ensures Realises(m, bufs, sizes, guards, gone)
    ensures (Table(guards.Keys, gone), answer) == Next(Table(guards.Keys, gone), CommitAll(impl), sizes, max)
  {
    NoneLive(m.live, bufs, guards);
    var refused := CommitScene(m, bufs, impl);
    answer := if refused then Refused else Done;
  }

  method CommitScene(m: Mappings, bufs: seq<WlrBuffer>, impl: Impl) returns (refused: bool)
    requires m.Valid(All(bufs))
    modifies bufs`accessing
    ensures m.Valid(All(bufs)) && (refused <==> m.live != {})
  {
    var scene := Scene(bufs, impl);
    refused := m.Commit(All(bufs), scene);
  }

  method DoGiveUp(m: Mappings, bufs: seq<WlrBuffer>, ghost sizes: seq<(int, int)>, guards: map<nat, BufferDataAccess>,
                  ghost gone: set<nat>, i: nat, max: nat)
    returns (answer: Answer, ghost now: set<nat>)
    requires Realises(m, bufs, sizes, guards, gone)
    modifies bufs
    ensures Realises(m, bufs, sizes, guards, now)
    ensures (Table(guards.Keys, now), answer) == Next(Table(guards.Keys, gone), GiveUp(i), sizes, max)
  {
    answer, now := Refused, gone;
    if i < |bufs| && !bufs[i].released && i !in guards {
      AccessedIffOpen(m, bufs, sizes, guards, gone, i);
      m.Release(All(bufs), bufs[i]);
      answer, now := Done, gone + {i};
    }
  }

  method Do(m: Mappings, bufs: seq<WlrBuffer>, ghost sizes: seq<(int, int)>, guards: map<nat, BufferDataAccess>,
            ghost gone: set<nat>, op: Op, max: nat)
    returns (answer: Answer, held: map<nat, BufferDataAccess>, ghost now: set<nat>)
    requires Realises(m, bufs, sizes, guards, gone)
    modifies m, bufs
    ensures Realises(m, bufs, sizes, held, now)
    ensures (Table(held.Keys, now), answer) == Next(Table(guards.Keys, gone), op, sizes, max)
  {
    held, now := guards, gone;
    match op
    case Begin(i, impl) => answer, held := DoBegin(m, bufs, sizes, guards, gone, i, impl, max);
    case DropGuard(i) => answer, held := DoDrop(m, bufs, sizes, guards, gone, i, max);
    case Use(i, impl) => answer := DoUse(m, bufs, sizes, guards, gone, i, impl, max);
    case CommitAll(impl) => answer := DoCommit(m, bufs, sizes, guards, gone, impl, max);
    case GiveUp(i) => answer, now := DoGiveUp(m, bufs, sizes, guards, gone, i, max);
  }

  /** Every run of client operations gives the answers of the table and keeps the count equal to the mappings that are
      open: no operation meets an assertion of wlroots, nor touches a buffer that was given up. */
  method Run(sizes: seq<(int, int)>, ops: seq<Op>, max: nat)
    returns (answers: seq<Answer>, m: Mappings, bufs: seq<WlrBuffer>)
    ensures answers == Answers(Table({}, {}), ops, sizes, max)
    ensures var t := After(Table({}, {}), ops, sizes, max);
            && m.open == |t.open| && |bufs| == |sizes|
            && forall i :: 0 <= i < |sizes| ==>
                 (bufs[i].accessing <==> i in t.open) && (bufs[i].released <==> i in t.gone)
  {
    m := new Mappings();
    bufs := Allocate(sizes);
    answers := [];
    var held: map<nat, BufferDataAccess> := map[];
    ghost var gone: set<nat> := {};
    ghost var start := Table({}, {});
    assert ops[0..] == ops && held.Keys == {};
    for k := 0 to |ops|
      invariant fresh(m) && (forall i :: 0 <= i < |bufs| ==> fresh(bufs[i])) && Realises(m, bufs, sizes, held, gone)
      invariant answers + Answers(Table(held.Keys, gone), ops[k..], sizes, max) == Answers(start, ops, sizes, max)
      invariant After(Table(held.Keys, gone), ops[k..], sizes, max) == After(start, ops, sizes, max)
    {
      assert ops[k..][0] == ops[k] && ops[k..][1..] == ops[k + 1..];
      var answer;
      answer, held, gone := Do(m, bufs, sizes, held, gone, ops[k], max);
      answers := answers + [answer];
    }
    OpenIsCount(m, bufs, sizes, held, gone);
    forall i | 0 <= i < |bufs| ensures bufs[i].accessing <==> i in held {
      AccessedIffOpen(m, bufs, sizes, held, gone, i);
    }
  }

  method Allocate(sizes: seq<(int, int)>) returns (bufs: seq<WlrBuffer>)
    ensures Sized(bufs, sizes)
    ensures forall i :: 0 <= i < |bufs| ==> fresh(bufs[i]) && !bufs[i].accessing && !bufs[i].released
  {
    bufs := [];
    for k := 0 to |sizes|
      invariant Sized(bufs, sizes[..k])
      invariant forall i :: 0 <= i < |bufs| ==> fresh(bufs[i]) && !bufs[i].accessing && !bufs[i].released
    {
      var b := new WlrBuffer(sizes[k].0, sizes[k].1);
      assert b !in bufs;
      bufs := bufs + [b];
    }
  }
}
