/** libwayland's intrusive list and the cursor-ahead iterator of `wl_list_for_each_safe`.

    A `Link` is a `struct wl_list`.  The container that embeds it is the constant `item`: recovering
    the container from the link (`container_of`) is reading that field. */
module WlList {
  import opened Wrappers
  import opened Seqs

  class Link<T> {
    var prev: Link?<T>
    var next: Link?<T>
    const item: T

    constructor (item: T)
      ensures this.item == item && prev == null && next == null
    {
      this.item := item;
      prev, next := null, null;
    }
  }

  // Position i on the circle head, xs[0], .., xs[n-1], head.
  function At<T>(head: Link<T>, xs: seq<Link<T>>, i: nat): Link<T>
    requires i <= |xs| + 1
  {
    if i == 0 || i == |xs| + 1 then head else xs[i - 1]
  }

  ghost predicate Injective<T>(xs: seq<Link<T>>) {
    forall i, j :: 0 <= i < j < |xs| ==> xs[i] != xs[j]
  }

  // Positions i and i + 1 point at each other.
  ghost predicate Joined<T>(head: Link<T>, xs: seq<Link<T>>, i: nat)
    requires i <= |xs|
    reads head, xs
  {
    At(head, xs, i).next == At(head, xs, i + 1) && At(head, xs, i + 1).prev == At(head, xs, i)
  }

  // `head` is the sentinel of a well formed circular list whose entries are xs, in order.
  ghost predicate Circle<T>(head: Link<T>, xs: seq<Link<T>>)
    reads head, xs
  {
    && Injective(xs)
    && head !in xs
    && (forall i :: 0 <= i <= |xs| ==> Joined(head, xs, i))
  }

  // `wl_list_init`.
  method Init<T>(head: Link<T>)
    modifies head
    ensures Circle(head, [])
  {
    head.prev, head.next := head, head;
    assert Joined(head, [], 0);
  }

  // `wl_list_insert` before the sentinel: the new link becomes the last entry.
  method InsertLast<T>(head: Link<T>, ghost xs: seq<Link<T>>, elm: Link<T>)
    requires Circle(head, xs) && elm != head && elm !in xs
    modifies head, xs, elm
    ensures Circle(head, xs + [elm])
  {
    assert Joined(head, xs, |xs|);
    var last := head.prev;
    elm.prev, elm.next := last, head;
    last.next := elm;
    head.prev := elm;

    ghost var ys := xs + [elm];
    forall i | 0 <= i <= |ys| ensures Joined(head, ys, i) {
      if i < |xs| {
        assert old(Joined(head, xs, i));
        AtDistinct(head, xs, i, |xs|);
        AtDistinct(head, xs, i + 1, |xs| + 1);
      }
    }
  }

  /** Every sequence of containers is the contents of a well formed list. */
  method FromItems<T>(head: Link<T>, items: seq<T>) returns (ghost xs: seq<Link<T>>)
    modifies head
    ensures Circle(head, xs) && fresh(set x | x in xs)
    ensures |xs| == |items| && forall i :: 0 <= i < |items| ==> xs[i].item == items[i]
  {
    Init(head);
    xs := [];
    for k := 0 to |items|
      invariant Circle(head, xs) && |xs| == k && (forall i :: 0 <= i < k ==> fresh(xs[i]) && xs[i].item == items[i])
    {
      var elm := new Link(items[k]);
      InsertLast(head, xs, elm);
      xs := xs + [elm];
    }
  }

  // `wl_list_remove`: the neighbours are joined and the removed link is nulled.
  method Remove<T>(ghost head: Link<T>, ghost xs: seq<Link<T>>, ghost k: nat, elm: Link<T>)
    requires Circle(head, xs) && k < |xs| && xs[k] == elm
    modifies head, xs
    ensures Circle(head, xs[..k] + xs[k + 1..])
    ensures elm.next == null && elm.prev == null
  {
    assert Joined(head, xs, k) && Joined(head, xs, k + 1);
    var p, n := elm.prev, elm.next;
    p.next := n;
    n.prev := p;
    elm.next, elm.prev := null, null;

    ghost var ys := xs[..k] + xs[k + 1..];
    forall i | 0 <= i <= |ys| ensures Joined(head, ys, i) {
      ghost var j := if i <= k then i else i + 1;
      RemovedPositions(head, xs, k, i);
      if i == k {
        AtDistinct(head, xs, k, k + 1);
        AtDistinct(head, xs, k + 1, k + 2);
      } else {
        assert old(Joined(head, xs, j));
        AtDistinct(head, xs, j, k);
        AtDistinct(head, xs, j, k + 1);
        AtDistinct(head, xs, j + 1, k + 1);
        AtDistinct(head, xs, j + 1, k + 2);
      }
    }
  }

  lemma AtDistinct<T>(head: Link<T>, xs: seq<Link<T>>, i: nat, j: nat)
    requires Injective(xs) && head !in xs && i <= |xs| + 1 && j <= |xs| + 1
    ensures At(head, xs, i) == At(head, xs, j) ==> i == j || {i, j} == {0, |xs| + 1}
  {
  }

  // The positions of the list without entry k are the old ones, with the gap closed.
  lemma RemovedPositions<T>(head: Link<T>, xs: seq<Link<T>>, k: nat, i: nat)
    requires k < |xs| && i < |xs|
    ensures var ys := xs[..k] + xs[k + 1..];
            && At(head, ys, i) == At(head, xs, if i <= k then i else i + 1)
            && At(head, ys, i + 1) == At(head, xs, if i < k then i + 1 else i + 2)
  {
  }

  /** `wl_list_iter`.  `next` is the real cursor; the ghost fields say what the whole walk is about:
      the entries present at construction, how many were yielded, and which of those are still linked. */
  class Iter<T> {
    const head: Link<T>
    var next: Link<T>
    ghost const original: seq<Link<T>>
    ghost var pos: nat
    ghost var kept: seq<Link<T>>

    ghost predicate Valid()
      reads this, head, original
    {
      && pos <= |original|
      && head !in original && Injective(original)
      && (forall x :: x in kept ==> x in original[..pos])
      && (forall i :: 0 <= i < |Contents()| ==> Contents()[i] in original)
      && Circle(head, Contents())
      && next == if pos < |original| then original[pos] else head
    }

    // What is linked now: the surviving yielded entries, then everything not yet yielded.
    ghost function Contents(): seq<Link<T>>
      reads this
      requires pos <= |original|
    {
      kept + original[pos..]
    }

    constructor (head: Link<T>, ghost xs: seq<Link<T>>)
      requires Circle(head, xs)
      ensures Valid() && this.head == head && original == xs && pos == 0 && kept == []
    {
      assert Joined(head, xs, 0);
      this.head := head;
      this.next := head.next;
      original, pos, kept := xs, 0, [];
      new;
      assert Contents() == xs;
    }

    method Next() returns (r: Option<Link<T>>)
      requires Valid()
      modifies this
      ensures Valid()
      ensures old(pos) < |original| ==>
                r == Some(original[old(pos)]) && pos == old(pos) + 1 && kept == old(kept) + [original[old(pos)]]
      ensures old(pos) == |original| ==> r == None && pos == old(pos) && kept == old(kept)
    {
      if next == head {
        return None;
      }
      var link := next;
      assert Joined(head, Contents(), |kept| + 1);
      next := link.next;
      ghost var was := Contents();
      kept, pos := kept + [link], pos + 1;
      assert Contents() == was;
      r := Some(link);
    }

    // What a client may do between two calls of Next: unlink an entry it was already given.
    method UnlinkYielded(elm: Link<T>, ghost k: nat)
      requires Valid() && k < |kept| && kept[k] == elm
      modifies `kept, head, original
      ensures Valid() && kept == old(kept)[..k] + old(kept)[k + 1..]
    {
      ghost var was := Contents();
      assert forall i :: 0 <= i < |was| ==> was[i] in original;
      Remove(head, was, k, elm);
      kept := kept[..k] + kept[k + 1..];
      assert Contents() == was[..k] + was[k + 1..];
    }
  }

  // The entries of xs whose index is not in `gone`, in order.
  ghost function Survivors<T>(xs: seq<Link<T>>, gone: set<nat>): seq<Link<T>> {
    if xs == [] then []
    else Survivors(xs[..|xs| - 1], gone) + if |xs| - 1 in gone then [] else [xs[|xs| - 1]]
  }

  // Marking one more index removes exactly that entry and keeps the order of the others.
  lemma {:induction false} SurvivorsUnlink<T>(xs: seq<Link<T>>, gone: set<nat>, k: nat) returns (j: nat)
    requires k < |xs| && k !in gone
    ensures var s := Survivors(xs, gone);
            j < |s| && s[j] == xs[k] && Survivors(xs, gone + {k}) == s[..j] + s[j + 1..]
  {
    var front, last := xs[..|xs| - 1], |xs| - 1;
    var s := Survivors(front, gone);
    if k == last {
      SurvivorsIrrelevant(front, gone, k);
      j := |s|;
      assert s + [xs[k]] == Survivors(xs, gone) && Survivors(xs, gone + {k}) == s + [];
    } else {
      j := SurvivorsUnlink(front, gone, k);
      var end := if last in gone then [] else [xs[last]];
      assert Survivors(xs, gone) == s + end;
      DropThenAppend(s, end, j);
    }
  }

  lemma SurvivorsNext<T>(xs: seq<Link<T>>, p: nat, gone: set<nat>)
    requires p < |xs| && p !in gone
    ensures Survivors(xs[..p + 1], gone) == Survivors(xs[..p], gone) + [xs[p]]
  {
    assert xs[..p + 1][..p] == xs[..p];
  }

  lemma {:induction false} SurvivorsIrrelevant<T>(xs: seq<Link<T>>, gone: set<nat>, k: nat)
    requires |xs| <= k
    ensures Survivors(xs, gone + {k}) == Survivors(xs, gone)
  {
    if xs != [] {
      SurvivorsIrrelevant(xs[..|xs| - 1], gone, k);
    }
  }

  ghost function Elements(ks: seq<nat>): set<nat> {
    set k | k in ks
  }

  // The indices the first n client turns asked to unlink.
  ghost function Unlinked(client: seq<seq<nat>>, n: nat): set<nat>
    requires n <= |client|
  {
    if n == 0 then {} else Unlinked(client, n - 1) + Elements(client[n - 1])
  }

  lemma {:induction false} UnlinkedIff(client: seq<seq<nat>>, n: nat, k: nat)
    requires n <= |client|
    ensures k in Unlinked(client, n) <==> exists i :: 0 <= i < n && k in client[i]
  {
    if n > 0 {
      UnlinkedIff(client, n - 1, k);
    }
  }

  // What is left when nothing is unlinked.
  lemma {:induction false} NoneUnlinked<T>(xs: seq<Link<T>>)
    ensures Survivors(xs, {}) == xs
  {
    if xs != [] {
      NoneUnlinked(xs[..|xs| - 1]);
    }
  }

  lemma {:induction false} SurvivorsIff<T>(xs: seq<Link<T>>, gone: set<nat>, x: Link<T>)
    ensures x in Survivors(xs, gone) <==> exists k: nat :: k < |xs| && k !in gone && xs[k] == x
  {
    if xs != [] {
      var front, last := xs[..|xs| - 1], |xs| - 1;
      SurvivorsIff(front, gone, x);
      assert xs == front + [xs[last]];
      if last !in gone {
        assert Survivors(xs, gone) == Survivors(front, gone) + [xs[last]];
      }
    }
  }

  // One client turn: unlink the already yielded entries xs[k], k in ks, that are still linked.
  method ClientTurn<T>(it: Iter<T>, ks: seq<nat>, results: seq<Option<Link<T>>>, gone: set<nat>) returns (now: set<nat>)
    requires it.Valid() && it.kept == Survivors(it.original[..it.pos], gone)
    requires it.pos <= |results| && forall k :: 0 <= k < it.pos ==> results[k] == Some(it.original[k])
    requires forall k :: k in ks ==> k < it.pos
    modifies it`kept, it.head, it.original
    ensures it.Valid() && it.kept == Survivors(it.original[..it.pos], now)
    ensures now == gone + Elements(ks)
  {
    now := gone;
    ghost var seen := it.original[..it.pos];
    for j := 0 to |ks|
      invariant it.Valid() && it.kept == Survivors(seen, now)
      invariant now == gone + Elements(ks[..j])
    {
      var k := ks[j];
      assert k in ks && Elements(ks[..j + 1]) == Elements(ks[..j]) + {k};
      if k !in now {
        ghost var at := SurvivorsUnlink(seen, now, k);
        assert results[k] == Some(seen[k]);
        it.UnlinkYielded(results[k].value, at);
        now := now + {k};
      }
    }
    assert ks[..|ks|] == ks;
  }

  // One call of `next`, then one client turn.
  method NextThenTurn<T>(it: Iter<T>, ks: seq<nat>, results: seq<Option<Link<T>>>, gone: set<nat>)
    returns (r: Option<Link<T>>, now: set<nat>)
    requires it.Valid() && it.kept == Survivors(it.original[..it.pos], gone)
    requires it.pos == Yields(it.original, |results|) && Yielded(it.original, results)
    requires forall k :: k in gone ==> k < it.pos
    requires forall k :: k in ks ==> k <= |results| && k < |it.original|
    modifies it, it.head, it.original
    ensures it.Valid() && it.kept == Survivors(it.original[..it.pos], now)
    ensures now == gone + Elements(ks) && forall k :: k in now ==> k < it.pos
    ensures it.pos == Yields(it.original, |results| + 1) && Yielded(it.original, results + [r])
  {
    if it.pos < |it.original| {
      SurvivorsNext(it.original, it.pos, gone);
    }
    r := it.Next();
    now := ClientTurn(it, ks, results + [r], gone);
  }

  /** A whole iteration under an arbitrary client.  The i-th call of `next` is followed by unlinking the
      already yielded entries client[i] (indices into xs; an entry already gone is left alone). */
  method Iterate<T>(head: Link<T>, ghost xs: seq<Link<T>>, client: seq<seq<nat>>)
    returns (results: seq<Option<Link<T>>>)
    requires Circle(head, xs)
    requires forall i, k :: 0 <= i < |client| && k in client[i] ==> k <= i && k < |xs|
    modifies head, xs
    ensures |results| == |client| && Yielded(xs, results)
    ensures Circle(head, Survivors(xs, Unlinked(client, |client|)))
  {
    var it := new Iter(head, xs);
    var gone;
    results, gone := Walk(it, client);
    SurvivorsAhead(xs, it.pos, gone);
    assert it.Contents() == Survivors(xs, gone);
  }

  // The calls and turns of an iteration.
  method Walk<T>(it: Iter<T>, client: seq<seq<nat>>) returns (results: seq<Option<Link<T>>>, gone: set<nat>)
    requires it.Valid() && it.pos == 0 && it.kept == []
    requires forall i, k :: 0 <= i < |client| && k in client[i] ==> k <= i && k < |it.original|
    modifies it, it.head, it.original
    ensures it.Valid() && it.kept == Survivors(it.original[..it.pos], gone)
    ensures |results| == |client| && Yielded(it.original, results)
    ensures gone == Unlinked(client, |client|) && forall k :: k in gone ==> k < it.pos
  {
    results, gone := [], {};
    for i := 0 to |client|
      invariant it.Valid() && it.pos == Yields(it.original, i) && Yielded(it.original, results) && |results| == i
      invariant gone == Unlinked(client, i) && forall k :: k in gone ==> k < it.pos
      invariant it.kept == Survivors(it.original[..it.pos], gone)
    {
      var r: Option<Link<T>>;
      r, gone := NextThenTurn(it, client[i], results, gone);
      results := results + [r];
    }
  }

  // How many entries n calls have yielded.
  function Yields<T>(xs: seq<T>, n: nat): nat {
    if n < |xs| then n else |xs|
  }

  // What a walk over xs has answered.
  ghost predicate Yielded<T>(xs: seq<Link<T>>, results: seq<Option<Link<T>>>) {
    forall i :: 0 <= i < |results| ==> results[i] == if i < |xs| then Some(xs[i]) else None
  }

  // Entries past every marked index all survive.
  lemma {:induction false} SurvivorsAhead<T>(xs: seq<Link<T>>, p: nat, gone: set<nat>)
    requires p <= |xs| && forall k :: k in gone ==> k < p
    ensures Survivors(xs, gone) == Survivors(xs[..p], gone) + xs[p..]
  {
    if p == |xs| {
      assert xs[..p] == xs;
    } else {
      var front := xs[..|xs| - 1];
      SurvivorsAhead(front, p, gone);
      assert front[..p] == xs[..p];
    }
  }
}
