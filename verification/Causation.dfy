/** Finite causation trees of events, and the order in which a queue delivers them. */
module Causation {
  import opened Seqs

  // An event together with what its handler will do when it is delivered.
  datatype Job<E> = Job(ev: E, script: seq<Act<E>>)

  /** What consumer code can do while it runs: cause an event, do things inside a foreign frame, try to drive the
      loop (`incoming` is what the loop would emit), or try to flush the clients. */
  datatype Act<E> =
    | Cause(ev: E, script: seq<Act<E>>)
    | InForeignFrame(body: seq<Act<E>>)
    | DriveLoop(incoming: seq<Job<E>>)
    | Flush

  // The events one action causes itself.  A refused loop turn causes none.
  function ChildrenOf<E>(act: Act<E>): seq<Job<E>> {
    match act
    case Cause(ev, script) => [Job(ev, script)]
    case InForeignFrame(body) => Children(body)
    case DriveLoop(_) => []
    case Flush => []
  }

  function Children<E>(acts: seq<Act<E>>): seq<Job<E>> {
    if acts == [] then [] else ChildrenOf(acts[0]) + Children(acts[1..])
  }

  // Number of events below a script, and in a forest.
  function Below<E>(acts: seq<Act<E>>): nat {
    if acts == [] then 0
    else
      (match acts[0]
       case Cause(_, script) => 1 + Below(script)
       case InForeignFrame(body) => Below(body)
       case DriveLoop(_) => 0
       case Flush => 0) + Below(acts[1..])
  }

  function Nodes<E>(forest: seq<Job<E>>): nat {
    if forest == [] then 0 else 1 + Below(forest[0].script) + Nodes(forest[1..])
  }

  lemma {:induction false} NodesConcat<E>(a: seq<Job<E>>, b: seq<Job<E>>)
    ensures Nodes(a + b) == Nodes(a) + Nodes(b)
  {
    if a == [] {
      assert a + b == b;
    } else {
      assert (a + b)[1..] == a[1..] + b;
      NodesConcat(a[1..], b);
    }
  }

  lemma {:induction false} NodesOfChildren<E>(acts: seq<Act<E>>)
    ensures Nodes(Children(acts)) == Below(acts)
  {
    if acts != [] {
      NodesOfChildren(acts[1..]);
      match acts[0]
      case Cause(ev, script) =>
        var kids := [Job(ev, script)] + Children(acts[1..]);
        assert Children(acts) == kids && kids[1..] == Children(acts[1..]);
      case InForeignFrame(body) =>
        NodesOfChildren(body);
        NodesConcat(Children(body), Children(acts[1..]));
      case _ =>
        assert ChildrenOf(acts[0]) == [] && Children(acts) == Children(acts[1..]);
    }
  }

  function Events<E>(forest: seq<Job<E>>): seq<E> {
    if forest == [] then [] else [forest[0].ev] + Events(forest[1..])
  }

  // The next generation: the children of every member of the forest, left to right.
  function NextGeneration<E>(forest: seq<Job<E>>): seq<Job<E>> {
    if forest == [] then [] else Children(forest[0].script) + NextGeneration(forest[1..])
  }

  lemma {:induction false} NodesOfNextGeneration<E>(forest: seq<Job<E>>)
    ensures Nodes(forest) == |forest| + Nodes(NextGeneration(forest))
  {
    if forest != [] {
      NodesOfNextGeneration(forest[1..]);
      NodesOfChildren(forest[0].script);
      NodesConcat(Children(forest[0].script), NextGeneration(forest[1..]));
    }
  }

  /** Level order, generation by generation; no queue is involved. */
  function LevelOrder<E>(forest: seq<Job<E>>): seq<E>
    decreases Nodes(forest)
  {
    if forest == [] then []
    else
      NodesOfNextGeneration(forest);
      Events(forest) + LevelOrder(NextGeneration(forest))
  }

  // What popping the front of a queue and appending its children delivers.
  function Drained<E>(queue: seq<Job<E>>): seq<E>
    decreases Nodes(queue)
  {
    if queue == [] then []
    else
      PopShrinks(queue);
      [queue[0].ev] + Drained(queue[1..] + Children(queue[0].script))
  }

  // The measure of the drain loop: events left in the queued forest.
  lemma PopShrinks<E>(queue: seq<Job<E>>)
    requires queue != []
    ensures Nodes(queue[1..] + Children(queue[0].script)) == Nodes(queue) - 1
  {
    NodesConcat(queue[1..], Children(queue[0].script));
    NodesOfChildren(queue[0].script);
  }

  // Draining a block at the front delivers the block, then goes on with its next generation at the back.
  lemma {:induction false} DrainBlock<E>(block: seq<Job<E>>, rest: seq<Job<E>>)
    ensures Drained(block + rest) == Events(block) + Drained(rest + NextGeneration(block))
    decreases |block|
  {
    if block == [] {
      assert block + rest == rest && rest + NextGeneration(block) == rest;
    } else {
      var kids, later := Children(block[0].script), NextGeneration(block[1..]);
      assert (block + rest)[1..] == block[1..] + rest;
      Assoc(block[1..], rest, kids);
      DrainBlock(block[1..], rest + kids);
      Assoc(rest, kids, later);
      Assoc([block[0].ev], Events(block[1..]), Drained(rest + (kids + later)));
    }
  }

  /** The queue delivers level order, whatever forest it starts from. */
  lemma {:induction false} DrainedIsLevelOrder<E>(queue: seq<Job<E>>)
    ensures Drained(queue) == LevelOrder(queue)
    decreases Nodes(queue)
  {
    if queue != [] {
      DrainBlock(queue, []);
      assert queue + [] == queue && [] + NextGeneration(queue) == NextGeneration(queue);
      NodesOfNextGeneration(queue);
      DrainedIsLevelOrder(NextGeneration(queue));
    }
  }

  // What delivering every event at once, inside its cause, would deliver.
  function NaiveScript<E>(acts: seq<Act<E>>): seq<E> {
    if acts == [] then []
    else
      (match acts[0]
       case Cause(ev, script) => [ev] + NaiveScript(script)
       case InForeignFrame(body) => NaiveScript(body)
       case DriveLoop(_) => []
       case Flush => []) + NaiveScript(acts[1..])
  }

  function Naive<E>(forest: seq<Job<E>>): seq<E> {
    if forest == [] then [] else [forest[0].ev] + NaiveScript(forest[0].script) + Naive(forest[1..])
  }

  lemma {:induction false} NaiveConcat<E>(a: seq<Job<E>>, b: seq<Job<E>>)
    ensures Naive(a + b) == Naive(a) + Naive(b)
  {
    if a == [] {
      assert a + b == b;
    } else {
      assert (a + b)[1..] == a[1..] + b;
      NaiveConcat(a[1..], b);
    }
  }

  lemma {:induction false} NaiveOfChildren<E>(acts: seq<Act<E>>)
    ensures Naive(Children(acts)) == NaiveScript(acts)
  {
    if acts != [] {
      NaiveOfChildren(acts[1..]);
      match acts[0]
      case Cause(ev, script) =>
        var kids := [Job(ev, script)] + Children(acts[1..]);
        assert Children(acts) == kids && kids[1..] == Children(acts[1..]);
      case InForeignFrame(body) =>
        NaiveOfChildren(body);
        NaiveConcat(Children(body), Children(acts[1..]));
      case _ =>
        assert ChildrenOf(acts[0]) == [] && Children(acts) == Children(acts[1..]);
    }
  }

  lemma {:induction false} NaiveByGeneration<E>(forest: seq<Job<E>>)
    ensures multiset(Naive(forest)) == multiset(Events(forest)) + multiset(Naive(NextGeneration(forest)))
  {
    if forest != [] {
      var kids := Children(forest[0].script);
      NaiveByGeneration(forest[1..]);
      NaiveOfChildren(forest[0].script);
      NaiveConcat(kids, NextGeneration(forest[1..]));
      assert Events(forest) == [forest[0].ev] + Events(forest[1..]);
    }
  }

  /** Deferral reorders deliveries but neither loses nor duplicates one. */
  lemma {:induction false} DeferralConserves<E>(forest: seq<Job<E>>)
    ensures multiset(LevelOrder(forest)) == multiset(Naive(forest))
    decreases Nodes(forest)
  {
    if forest != [] {
      NodesOfNextGeneration(forest);
      DeferralConserves(NextGeneration(forest));
      NaiveByGeneration(forest);
    }
  }
}
