/** Finite directory trees: the recursive traversal, and the chains of entries that lead to a leaf. */
module Trees {
  import opened Wrappers
  import opened Seqs

  /** An entry of a directory, by its own type (links are not followed): `regular` tells plain files from links and
      the rest; `contents` is what reading the path yields, if it can be read. */
  datatype Entry =
    | Leaf(name: string, regular: bool, contents: Option<string>)
    | Dir(name: string, entries: seq<Entry>)

  datatype Found = Found(path: string, name: string, regular: bool, contents: Option<string>)

  function Join(path: string, name: string): string {
    path + "/" + name
  }

  // The recursive traversal.
  function Files(path: string, entries: seq<Entry>): seq<Found>
    decreases entries
  {
    if entries == [] then []
    else
      (match entries[0]
       case Leaf(name, regular, contents) => [Found(Join(path, name), name, regular, contents)]
       case Dir(name, sub) => Files(Join(path, name), sub))
      + Files(path, entries[1..])
  }

  // Entry chain[0] is a directory, entry chain[1] of it is one, and so on; the last entry is a leaf.
  ghost predicate LeadsTo(entries: seq<Entry>, chain: seq<nat>) {
    && chain != [] && chain[0] < |entries|
    && match entries[chain[0]]
       case Leaf(_, _, _) => |chain| == 1
       case Dir(_, sub) => LeadsTo(sub, chain[1..])
  }

  ghost function LeafOf(entries: seq<Entry>, chain: seq<nat>): (leaf: Entry)
    requires LeadsTo(entries, chain)
    ensures leaf.Leaf?
  {
    match entries[chain[0]]
    case Leaf(_, _, _) => entries[chain[0]]
    case Dir(_, sub) => LeafOf(sub, chain[1..])
  }

  // The names on the way.
  ghost function NamesOf(entries: seq<Entry>, chain: seq<nat>): seq<string>
    requires LeadsTo(entries, chain)
  {
    [entries[chain[0]].name] +
    match entries[chain[0]]
    case Leaf(_, _, _) => []
    case Dir(_, sub) => NamesOf(sub, chain[1..])
  }

  // A slash before each name.
  function Slashed(names: seq<string>): string {
    if names == [] then "" else "/" + names[0] + Slashed(names[1..])
  }

  // The leaf at the end of a chain below `root`.
  ghost function FoundAt(root: string, entries: seq<Entry>, chain: seq<nat>): Found
    requires LeadsTo(entries, chain)
  {
    var leaf := LeafOf(entries, chain);
    Found(root + Slashed(NamesOf(entries, chain)), leaf.name, leaf.regular, leaf.contents)
  }

  // All chains, once each.
  ghost predicate AllChains(entries: seq<Entry>, chains: seq<seq<nat>>) {
    && (forall i, j :: 0 <= i < j < |chains| ==> chains[i] != chains[j])
    && (forall chain :: chain in chains <==> LeadsTo(entries, chain))
  }

  // File k of the traversal is at the end of chain k.
  ghost predicate AtEnds(root: string, entries: seq<Entry>, files: seq<Found>, chains: seq<seq<nat>>) {
    && |files| == |chains|
    && forall k :: 0 <= k < |chains| ==> LeadsTo(entries, chains[k]) && files[k] == FoundAt(root, entries, chains[k])
  }

  ghost function Prefixed(n: nat, chains: seq<seq<nat>>): seq<seq<nat>> {
    seq(|chains|, i requires 0 <= i < |chains| => [n] + chains[i])
  }

  ghost function Bumped(chains: seq<seq<nat>>): seq<seq<nat>> {
    seq(|chains|, i requires 0 <= i < |chains| => if chains[i] == [] then [] else [chains[i][0] + 1] + chains[i][1..])
  }

  // Into the first entry.
  lemma Into(root: string, entries: seq<Entry>, chain: seq<nat>)
    requires entries != [] && entries[0].Dir?
    ensures LeadsTo(entries, [0] + chain) <==> LeadsTo(entries[0].entries, chain)
    ensures LeadsTo(entries[0].entries, chain) ==>
              FoundAt(root, entries, [0] + chain) == FoundAt(Join(root, entries[0].name), entries[0].entries, chain)
  {
    assert ([0] + chain)[1..] == chain;
    if LeadsTo(entries[0].entries, chain) {
      var names := NamesOf(entries[0].entries, chain);
      assert NamesOf(entries, [0] + chain) == [entries[0].name] + names;
      assert ([entries[0].name] + names)[1..] == names;
      Assoc(root, "/", entries[0].name);
      Assoc(root, "/" + entries[0].name, Slashed(names));
    }
  }

  // Past the first entry.
  lemma Past(root: string, entries: seq<Entry>, chain: seq<nat>)
    requires entries != [] && chain != []
    ensures var further := [chain[0] + 1] + chain[1..];
            && (LeadsTo(entries, further) <==> LeadsTo(entries[1..], chain))
            && (LeadsTo(entries[1..], chain) ==>
                  FoundAt(root, entries, further) == FoundAt(root, entries[1..], chain))
  {
    var further := [chain[0] + 1] + chain[1..];
    assert further[1..] == chain[1..] && further[0] == chain[0] + 1;
    assert chain[0] + 1 < |entries| ==> entries[1..][chain[0]] == entries[chain[0] + 1];
  }

  // The chains that begin with the first entry, or with a later one, once each.
  ghost predicate Beginning(entries: seq<Entry>, chains: seq<seq<nat>>, first: bool) {
    && (forall i, j :: 0 <= i < j < |chains| ==> chains[i] != chains[j])
    && (forall chain :: chain in chains <==> LeadsTo(entries, chain) && (chain[0] == 0 <==> first))
  }

  lemma InFirstFile(root: string, entries: seq<Entry>)
    requires entries != [] && entries[0].Leaf?
    ensures var files := [Found(Join(root, entries[0].name), entries[0].name, entries[0].regular, entries[0].contents)];
            Beginning(entries, [[0]], true) && AtEnds(root, entries, files, [[0]])
  {
    assert LeadsTo(entries, [0]);
    assert NamesOf(entries, [0]) == [entries[0].name];
    assert Slashed([entries[0].name]) == "/" + entries[0].name;
    forall chain: seq<nat> ensures chain in [[0]] <==> LeadsTo(entries, chain) && chain[0] == 0 {
      assert |chain| == 1 && chain[0] == 0 ==> chain == [0];
    }
  }

  lemma InFirstDirectory(root: string, entries: seq<Entry>, files: seq<Found>, below: seq<seq<nat>>)
    requires entries != [] && entries[0].Dir? && AllChains(entries[0].entries, below)
    requires AtEnds(Join(root, entries[0].name), entries[0].entries, files, below)
    ensures Beginning(entries, Prefixed(0, below), true) && AtEnds(root, entries, files, Prefixed(0, below))
  {
    var chains := Prefixed(0, below);
    forall k | 0 <= k < |chains|
      ensures LeadsTo(entries, chains[k]) && files[k] == FoundAt(root, entries, chains[k])
    {
      assert below[k] in below;
      Into(root, entries, below[k]);
    }
    forall i, j | 0 <= i < j < |chains| ensures chains[i] != chains[j] {
      assert chains[i][1..] == below[i] && chains[j][1..] == below[j];
    }
    forall chain | LeadsTo(entries, chain) && chain[0] == 0 ensures chain in chains {
      assert chain == [0] + chain[1..];
      Into(root, entries, chain[1..]);
      var k :| 0 <= k < |below| && below[k] == chain[1..];
      assert chains[k] == chain;
    }
  }

  lemma InLaterEntries(root: string, entries: seq<Entry>, files: seq<Found>, after: seq<seq<nat>>)
    requires entries != [] && AllChains(entries[1..], after) && AtEnds(root, entries[1..], files, after)
    ensures Beginning(entries, Bumped(after), false) && AtEnds(root, entries, files, Bumped(after))
  {
    var chains := Bumped(after);
    forall k | 0 <= k < |chains|
      ensures LeadsTo(entries, chains[k]) && files[k] == FoundAt(root, entries, chains[k]) && chains[k][0] > 0
    {
      LaterEnd(root, entries, after, k);
    }
    BumpedAreDistinct(after);
    forall chain | LeadsTo(entries, chain) && chain[0] != 0 ensures chain in chains {
      LaterIsBumped(root, entries, after, chain);
    }
  }

  lemma LaterEnd(root: string, entries: seq<Entry>, after: seq<seq<nat>>, k: nat)
    requires entries != [] && k < |after| && LeadsTo(entries[1..], after[k])
    ensures var chain := Bumped(after)[k];
            && LeadsTo(entries, chain) && chain[0] > 0
            && FoundAt(root, entries, chain) == FoundAt(root, entries[1..], after[k])
  {
    Past(root, entries, after[k]);
  }

  lemma BumpedAreDistinct(chains: seq<seq<nat>>)
    requires (forall k :: 0 <= k < |chains| ==> chains[k] != [])
    requires forall i, j :: 0 <= i < j < |chains| ==> chains[i] != chains[j]
    ensures forall i, j :: 0 <= i < j < |chains| ==> Bumped(chains)[i] != Bumped(chains)[j]
  {
    forall i, j | 0 <= i < j < |chains| ensures Bumped(chains)[i] != Bumped(chains)[j] {
      Unbumped(chains, i);
      Unbumped(chains, j);
    }
  }

  lemma LaterIsBumped(root: string, entries: seq<Entry>, after: seq<seq<nat>>, chain: seq<nat>)
    requires entries != [] && AllChains(entries[1..], after) && LeadsTo(entries, chain) && chain[0] != 0
    ensures chain in Bumped(after)
  {
    var nearer := [chain[0] - 1] + chain[1..];
    assert [nearer[0] + 1] + nearer[1..] == chain;
    Past(root, entries, nearer);
    var k :| 0 <= k < |after| && after[k] == nearer;
    assert Bumped(after)[k] == chain;
  }

  lemma Unbumped(chains: seq<seq<nat>>, k: nat)
    requires k < |chains| && chains[k] != []
    ensures var bumped := Bumped(chains)[k];
            bumped != [] && bumped[0] > 0 && chains[k] == [bumped[0] - 1] + bumped[1..]
  {
  }

  lemma FirstAndLater(entries: seq<Entry>, a: seq<seq<nat>>, b: seq<seq<nat>>)
    requires Beginning(entries, a, true) && Beginning(entries, b, false)
    ensures AllChains(entries, a + b)
  {
    forall i, j | 0 <= i < |a| && 0 <= j < |b| ensures a[i] != b[j] {
      assert a[i] in a && b[j] in b;
    }
  }

  lemma EndsConcat(root: string, entries: seq<Entry>, f: seq<Found>, a: seq<seq<nat>>, g: seq<Found>, b: seq<seq<nat>>)
    requires AtEnds(root, entries, f, a) && AtEnds(root, entries, g, b)
    ensures AtEnds(root, entries, f + g, a + b)
  {
  }

  /** The traversal finds the leaf at the end of every chain, once each, under the names on the way. */
  lemma {:induction false} ChainsOf(root: string, entries: seq<Entry>) returns (chains: seq<seq<nat>>)
    ensures AllChains(entries, chains) && AtEnds(root, entries, Files(root, entries), chains)
    decreases entries, 1
  {
    if entries == [] {
      chains := [];
    } else {
      var first, files := FirstChains(root, entries);
      var after := ChainsOf(root, entries[1..]);
      InLaterEntries(root, entries, Files(root, entries[1..]), after);
      chains := first + Bumped(after);
      FirstAndLater(entries, first, Bumped(after));
      EndsConcat(root, entries, files, first, Files(root, entries[1..]), Bumped(after));
    }
  }

  lemma {:induction false} FirstChains(root: string, entries: seq<Entry>)
    returns (chains: seq<seq<nat>>, files: seq<Found>)
    requires entries != []
    ensures Beginning(entries, chains, true) && AtEnds(root, entries, files, chains)
    ensures Files(root, entries) == files + Files(root, entries[1..])
    decreases entries, 0
  {
    match entries[0]
    case Leaf(name, regular, contents) =>
      InFirstFile(root, entries);
      chains, files := [[0]], [Found(Join(root, name), name, regular, contents)];
    case Dir(name, sub) =>
      var below := ChainsOf(Join(root, name), sub);
      files := Files(Join(root, name), sub);
      InFirstDirectory(root, entries, files, below);
      chains := Prefixed(0, below);
  }

  /** A file is found exactly when a chain leads to it. */
  lemma FoundIff(root: string, entries: seq<Entry>, f: Found)
    ensures f in Files(root, entries) <==> exists chain :: LeadsTo(entries, chain) && FoundAt(root, entries, chain) == f
  {
    var chains := ChainsOf(root, entries);
    var files := Files(root, entries);
    if f in files {
      var k :| 0 <= k < |files| && files[k] == f;
      assert LeadsTo(entries, chains[k]) && FoundAt(root, entries, chains[k]) == f;
    }
    if exists chain :: LeadsTo(entries, chain) && FoundAt(root, entries, chain) == f {
      var chain :| LeadsTo(entries, chain) && FoundAt(root, entries, chain) == f;
      var k :| 0 <= k < |chains| && chains[k] == chain;
      assert files[k] == f;
    }
  }
}
