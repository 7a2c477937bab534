/** The chains of causes in a script: which events are delivered, said without a queue and without a traversal. */
module Causes {
  import opened Causation
  import Trees

  // Act chain[0] causes an event or enters a frame, act chain[1] inside it does so, and so on; the last act causes one.
  ghost predicate LeadsTo<E>(acts: seq<Act<E>>, chain: seq<nat>) {
    && chain != [] && chain[0] < |acts|
    && match acts[chain[0]]
       case Cause(_, script) => |chain| == 1 || LeadsTo(script, chain[1..])
       case InForeignFrame(body) => LeadsTo(body, chain[1..])
       case DriveLoop(_) => false
       case Flush => false
  }

  ghost function EventAt<E>(acts: seq<Act<E>>, chain: seq<nat>): E
    requires LeadsTo(acts, chain)
  {
    match acts[chain[0]]
    case Cause(ev, script) => if |chain| == 1 then ev else EventAt(script, chain[1..])
    case InForeignFrame(body) => EventAt(body, chain[1..])
  }

  ghost predicate Distinct(chains: seq<seq<nat>>) {
    forall i, j :: 0 <= i < j < |chains| ==> chains[i] != chains[j]
  }

  // All chains, once each.
  ghost predicate AllChains<E>(acts: seq<Act<E>>, chains: seq<seq<nat>>) {
    && Distinct(chains)
    && (forall chain :: chain in chains <==> LeadsTo(acts, chain))
  }

  // Event k is at the end of chain k.
  ghost predicate AtEnds<E>(acts: seq<Act<E>>, events: seq<E>, chains: seq<seq<nat>>) {
    && |events| == |chains|
    && forall k :: 0 <= k < |chains| ==> LeadsTo(acts, chains[k]) && events[k] == EventAt(acts, chains[k])
  }

  // The chains that begin with the first act, or with a later one, once each.
  ghost predicate Beginning<E>(acts: seq<Act<E>>, chains: seq<seq<nat>>, first: bool) {
    && Distinct(chains)
    && (forall chain :: chain in chains <==> LeadsTo(acts, chain) && (chain[0] == 0 <==> first))
  }

  // What the first act causes itself, and what runs inside it.
  ghost function Own<E>(act: Act<E>): seq<E> {
    if act.Cause? then [act.ev] else []
  }

  ghost function Inside<E>(act: Act<E>): seq<Act<E>> {
    match act
    case Cause(_, script) => script
    case InForeignFrame(body) => body
    case DriveLoop(_) => []
    case Flush => []
  }

  ghost function FirstChains<E>(act: Act<E>, below: seq<seq<nat>>): seq<seq<nat>> {
    (if act.Cause? then [[0]] else []) + Trees.Prefixed(0, below)
  }

  // Into the first act.
  lemma Into<E>(acts: seq<Act<E>>, chain: seq<nat>)
    requires acts != [] && chain != []
    ensures LeadsTo(acts, [0] + chain) <==> LeadsTo(Inside(acts[0]), chain)
    ensures LeadsTo(Inside(acts[0]), chain) ==> EventAt(acts, [0] + chain) == EventAt(Inside(acts[0]), chain)
  {
    assert ([0] + chain)[1..] == chain;
  }

  // Past the first act.
  lemma Past<E>(acts: seq<Act<E>>, chain: seq<nat>)
    requires acts != [] && chain != []
    ensures var further := [chain[0] + 1] + chain[1..];
            && (LeadsTo(acts, further) <==> LeadsTo(acts[1..], chain))
            && (LeadsTo(acts[1..], chain) ==> EventAt(acts, further) == EventAt(acts[1..], chain))
  {
    var further := [chain[0] + 1] + chain[1..];
    assert further[1..] == chain[1..] && further[0] == chain[0] + 1;
    assert chain[0] + 1 < |acts| ==> acts[1..][chain[0]] == acts[chain[0] + 1];
  }

  // Everything inside the first act.
  lemma Nested<E>(acts: seq<Act<E>>, events: seq<E>, below: seq<seq<nat>>)
    requires acts != [] && AllChains(Inside(acts[0]), below) && AtEnds(Inside(acts[0]), events, below)
    ensures AtEnds(acts, events, Trees.Prefixed(0, below)) && Distinct(Trees.Prefixed(0, below))
    ensures forall k :: 0 <= k < |below| ==> |Trees.Prefixed(0, below)[k]| > 1
  {
    var chains := Trees.Prefixed(0, below);
    forall k | 0 <= k < |chains|
      ensures LeadsTo(acts, chains[k]) && events[k] == EventAt(acts, chains[k]) && |chains[k]| > 1
    {
      assert below[k] in below;
      Into(acts, below[k]);
    }
    forall i, j | 0 <= i < j < |chains| ensures chains[i] != chains[j] {
      assert chains[i][1..] == below[i] && chains[j][1..] == below[j];
    }
  }

  lemma NestedIsThere<E>(acts: seq<Act<E>>, below: seq<seq<nat>>, chain: seq<nat>)
    requires acts != [] && AllChains(Inside(acts[0]), below) && LeadsTo(acts, chain) && chain[0] == 0 && |chain| > 1
    ensures chain in Trees.Prefixed(0, below)
  {
    assert chain == [0] + chain[1..];
    Into(acts, chain[1..]);
    var k :| 0 <= k < |below| && below[k] == chain[1..];
    assert Trees.Prefixed(0, below)[k] == chain;
  }

  lemma InFirstAct<E>(acts: seq<Act<E>>, events: seq<E>, below: seq<seq<nat>>)
    requires acts != [] && AllChains(Inside(acts[0]), below) && AtEnds(Inside(acts[0]), events, below)
    ensures Beginning(acts, FirstChains(acts[0], below), true)
    ensures AtEnds(acts, Own(acts[0]) + events, FirstChains(acts[0], below))
  {
    var nested := Trees.Prefixed(0, below);
    Nested(acts, events, below);
    if acts[0].Cause? {
      OwnFirst(acts, events, nested);
    } else {
      assert FirstChains(acts[0], below) == nested && Own(acts[0]) + events == events;
    }
    forall chain | LeadsTo(acts, chain) && chain[0] == 0 ensures chain in FirstChains(acts[0], below) {
      if |chain| > 1 {
        NestedIsThere(acts, below, chain);
      } else {
        assert chain == [0] && chain[1..] == [] && !LeadsTo(Inside(acts[0]), []);
        assert FirstChains(acts[0], below)[0] == [0];
      }
    }
  }

  lemma OwnFirst<E>(acts: seq<Act<E>>, events: seq<E>, nested: seq<seq<nat>>)
    requires acts != [] && acts[0].Cause? && AtEnds(acts, events, nested) && Distinct(nested)
    requires forall k :: 0 <= k < |nested| ==> |nested[k]| > 1
    ensures AtEnds(acts, Own(acts[0]) + events, [[0]] + nested) && Distinct([[0]] + nested)
  {
    assert LeadsTo(acts, [0]) && EventAt(acts, [0]) == acts[0].ev;
  }

  lemma InLaterActs<E>(acts: seq<Act<E>>, events: seq<E>, after: seq<seq<nat>>)
    requires acts != [] && AllChains(acts[1..], after) && AtEnds(acts[1..], events, after)
    ensures Beginning(acts, Trees.Bumped(after), false) && AtEnds(acts, events, Trees.Bumped(after))
  {
    var chains := Trees.Bumped(after);
    forall k | 0 <= k < |chains|
      ensures LeadsTo(acts, chains[k]) && events[k] == EventAt(acts, chains[k]) && chains[k][0] > 0
    {
      Past(acts, after[k]);
    }
    Trees.BumpedAreDistinct(after);
    forall chain | LeadsTo(acts, chain) && chain[0] != 0 ensures chain in chains {
      LaterIsBumped(acts, after, chain);
    }
  }

  lemma LaterIsBumped<E>(acts: seq<Act<E>>, after: seq<seq<nat>>, chain: seq<nat>)
    requires acts != [] && AllChains(acts[1..], after) && LeadsTo(acts, chain) && chain[0] != 0
    ensures chain in Trees.Bumped(after)
  {
    var nearer := [chain[0] - 1] + chain[1..];
    assert [nearer[0] + 1] + nearer[1..] == chain;
    Past(acts, nearer);
    var k :| 0 <= k < |after| && after[k] == nearer;
    assert Trees.Bumped(after)[k] == chain;
  }

  lemma FirstAndLater<E>(acts: seq<Act<E>>, f: seq<E>, a: seq<seq<nat>>, g: seq<E>, b: seq<seq<nat>>)
    requires Beginning(acts, a, true) && Beginning(acts, b, false) && AtEnds(acts, f, a) && AtEnds(acts, g, b)
    ensures AllChains(acts, a + b) && AtEnds(acts, f + g, a + b)
  {
    forall i, j | 0 <= i < |a| && 0 <= j < |b| ensures a[i] != b[j] {
      assert a[i] in a && b[j] in b;
    }
  }

  /** What delivering every event inside its cause delivers is the event at the end of every chain, once each. */
  lemma {:induction false} ChainsOf<E>(acts: seq<Act<E>>) returns (chains: seq<seq<nat>>)
    ensures AllChains(acts, chains) && AtEnds(acts, NaiveScript(acts), chains)
    decreases acts
  {
    if acts == [] {
      chains := [];
    } else {
      var below: seq<seq<nat>> := [];
      match acts[0] {
        case Cause(_, script) => below := ChainsOf(script);
        case InForeignFrame(body) => below := ChainsOf(body);
        case _ =>
      }
      var after := ChainsOf(acts[1..]);
      var first := FirstChains(acts[0], below);
      InFirstAct(acts, NaiveScript(Inside(acts[0])), below);
      InLaterActs(acts, NaiveScript(acts[1..]), after);
      chains := first + Trees.Bumped(after);
      var events := Own(acts[0]) + NaiveScript(Inside(acts[0]));
      FirstAndLater(acts, events, first, NaiveScript(acts[1..]), Trees.Bumped(after));
    }
  }

  // A queue as the script that would cause it.
  ghost function Causing<E>(queue: seq<Job<E>>): seq<Act<E>> {
    if queue == [] then [] else [Cause(queue[0].ev, queue[0].script)] + Causing(queue[1..])
  }

  lemma {:induction false} NaiveOfCausing<E>(queue: seq<Job<E>>)
    ensures NaiveScript(Causing(queue)) == Naive(queue)
  {
    if queue != [] {
      NaiveOfCausing(queue[1..]);
      assert Causing(queue)[1..] == Causing(queue[1..]);
    }
  }

  /** The queue delivers the event at the end of every chain of causes that starts from it, once each, and no other. */
  lemma DeliveredIffCaused<E>(queue: seq<Job<E>>) returns (chains: seq<seq<nat>>, events: seq<E>)
    ensures AllChains(Causing(queue), chains) && AtEnds(Causing(queue), events, chains)
    ensures multiset(Drained(queue)) == multiset(events)
  {
    chains := ChainsOf(Causing(queue));
    events := NaiveScript(Causing(queue));
    NaiveOfCausing(queue);
    DrainedIsLevelOrder(queue);
    DeferralConserves(queue);
  }
}
