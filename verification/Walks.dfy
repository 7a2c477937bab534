/** The explicit-stack directory walks of the build script and the audit, over a finite tree. */
module Walks {
  import opened Wrappers
  import opened Seqs
  import opened Sorting
  import opened Trees

  // A directory still to be read: its path and what is in it.
  datatype Folder = Folder(path: string, entries: seq<Entry>)

  function StackFiles(stack: seq<Folder>): seq<Found> {
    if stack == [] then []
    else StackFiles(stack[..|stack| - 1]) + Files(stack[|stack| - 1].path, stack[|stack| - 1].entries)
  }

  function Size(entries: seq<Entry>): nat
    decreases entries
  {
    if entries == [] then 0
    else (match entries[0] case Leaf(_, _, _) => 1 case Dir(_, sub) => 1 + Size(sub)) + Size(entries[1..])
  }

  function StackSize(stack: seq<Folder>): nat {
    if stack == [] then 0 else StackSize(stack[..|stack| - 1]) + 1 + Size(stack[|stack| - 1].entries)
  }

  // `Path::extension` of a file name: what follows the last dot, unless that dot comes first.
  function Extension(name: string): Option<string> {
    if name == ".." || '.' !in name then None
    else
      var i := LastDot(name);
      if i == 0 then None else Some(name[i + 1..])
  }

  function LastDot(name: string): (i: nat)
    requires '.' in name
    ensures i < |name|
  {
    if name[|name| - 1] == '.' then |name| - 1
    else
      assert name == name[..|name| - 1] + [name[|name| - 1]];
      LastDot(name[..|name| - 1])
  }

  lemma {:induction false} LastDotIsLast(name: string)
    requires '.' in name
    ensures name[LastDot(name)] == '.' && '.' !in name[LastDot(name) + 1..]
  {
    if name[|name| - 1] != '.' {
      var init := name[..|name| - 1];
      assert name == init + [name[|name| - 1]];
      LastDotIsLast(init);
      assert name[LastDot(name) + 1..] == init[LastDot(name) + 1..] + [name[|name| - 1]];
    }
  }

  lemma {:induction false} SplitAtLastDot(stem: string, ext: string)
    requires '.' !in ext
    ensures var name := stem + "." + ext;
            '.' in name && LastDot(name) == |stem| && name[|stem| + 1..] == ext
  {
    var name := stem + "." + ext;
    assert name[|stem|] == '.' && name[|stem| + 1..] == ext;
    if ext != [] {
      var shorter := ext[..|ext| - 1];
      assert name[..|name| - 1] == stem + "." + shorter;
      assert name[|name| - 1] == ext[|ext| - 1];
      SplitAtLastDot(stem, shorter);
    }
  }

  /** The extension of a name is what follows its last dot, if something precedes that dot. */
  lemma ExtensionIff(name: string, ext: string)
    ensures Extension(name) == Some(ext) <==>
            name != ".." && '.' !in ext && exists stem :: stem != [] && name == stem + "." + ext
  {
    if Extension(name) == Some(ext) {
      LastDotIsLast(name);
      assert name == name[..LastDot(name)] + "." + ext;
    }
    if '.' !in ext && exists stem :: stem != [] && name == stem + "." + ext {
      var stem :| stem != [] && name == stem + "." + ext;
      SplitAtLastDot(stem, ext);
    }
  }

  // `replace('\\\\', "/")`.
  function Slashes(path: string): string {
    if path == [] then [] else [if path[0] == '\\' then '/' else path[0]] + Slashes(path[1..])
  }

  lemma {:induction false} SlashesAt(path: string, k: nat)
    requires k < |path|
    ensures |Slashes(path)| == |path| && Slashes(path)[k] == if path[k] == '\\' then '/' else path[k]
  {
    if |path| > 1 {
      SlashesAt(path[1..], if k > 0 then k - 1 else 0);
    }
  }

  // An entry that is listed under the relative path `rel`.
  predicate Wanted(entry: Entry, rel: string, gated: set<string>, enabled: set<string>) {
    entry.Leaf? && entry.regular && Extension(entry.name) == Some("h") && !(rel in gated && rel !in enabled)
  }

  predicate IsHeader(f: Found, gated: set<string>, enabled: set<string>) {
    Wanted(Leaf(f.name, f.regular, f.contents), Slashes(f.path), gated, enabled)
  }

  // What one file adds to the list.
  function Listing(f: Found, gated: set<string>, enabled: set<string>): seq<string> {
    if IsHeader(f, gated, enabled) then [Slashes(f.path)] else []
  }

  function Headers(files: seq<Found>, gated: set<string>, enabled: set<string>): seq<string> {
    if files == [] then [] else Listing(files[0], gated, enabled) + Headers(files[1..], gated, enabled)
  }

  lemma {:induction false} HeadersConcat(a: seq<Found>, b: seq<Found>, gated: set<string>, enabled: set<string>)
    ensures Headers(a + b, gated, enabled) == Headers(a, gated, enabled) + Headers(b, gated, enabled)
  {
    if a == [] {
      assert a + b == b;
    } else {
      HeadersConcat(a[1..], b, gated, enabled);
      assert (a + b)[1..] == a[1..] + b;
      Assoc(Listing(a[0], gated, enabled), Headers(a[1..], gated, enabled), Headers(b, gated, enabled));
    }
  }

  // One turn of the inner loop: a leaf is listed, a directory goes on the stack.
  function Visit(folder: Folder, i: nat, stack: seq<Folder>): seq<Folder>
    requires i < |folder.entries|
  {
    match folder.entries[i]
    case Leaf(_, _, _) => stack
    case Dir(name, sub) => stack + [Folder(Join(folder.path, name), sub)]
  }

  function Seen(folder: Folder, i: nat): seq<Found>
    requires i < |folder.entries|
  {
    match folder.entries[i]
    case Leaf(name, regular, contents) => [Found(Join(folder.path, name), name, regular, contents)]
    case Dir(_, _) => []
  }

  lemma VisitMoves(folder: Folder, i: nat, stack: seq<Folder>)
    requires i < |folder.entries|
    ensures multiset(Seen(folder, i)) + multiset(StackFiles(Visit(folder, i, stack))) +
            multiset(Files(folder.path, folder.entries[i + 1..])) ==
            multiset(StackFiles(stack)) + multiset(Files(folder.path, folder.entries[i..]))
    ensures StackSize(Visit(folder, i, stack)) + Size(folder.entries[i + 1..]) <=
            StackSize(stack) + Size(folder.entries[i..])
  {
    assert folder.entries[i..][1..] == folder.entries[i + 1..];
    match folder.entries[i]
    case Leaf(_, _, _) =>
    case Dir(name, sub) =>
      assert Visit(folder, i, stack)[..|stack|] == stack;
  }

  // `read` is what the walk has listed; the rest is on the stack or still ahead in the directory being read.
  ghost predicate Walked(root: Folder, read: seq<Found>, stack: seq<Folder>, folder: Folder, i: nat) {
    && i <= |folder.entries|
    && multiset(read) + multiset(StackFiles(stack)) + multiset(Files(folder.path, folder.entries[i..])) ==
       multiset(Files(root.path, root.entries))
  }

  lemma WalkStarts(root: Folder)
    ensures Walked(root, [], [root], Folder("", []), 0) && StackSize([root]) == 1 + Size(root.entries)
  {
    var stack := [root];
    assert stack[..0] == [];
    assert StackFiles(stack) == Files(root.path, root.entries);
  }

  lemma WalkPops(root: Folder, read: seq<Found>, stack: seq<Folder>, done: Folder)
    requires stack != [] && Walked(root, read, stack, done, |done.entries|)
    ensures Walked(root, read, stack[..|stack| - 1], stack[|stack| - 1], 0)
    ensures StackSize(stack[..|stack| - 1]) + Size(stack[|stack| - 1].entries) < StackSize(stack)
  {
    var top := stack[|stack| - 1];
    assert top.entries[0..] == top.entries;
  }

  lemma WalkVisits(root: Folder, read: seq<Found>, stack: seq<Folder>, folder: Folder, i: nat)
    requires i < |folder.entries| && Walked(root, read, stack, folder, i)
    ensures Walked(root, read + Seen(folder, i), Visit(folder, i, stack), folder, i + 1)
    ensures StackSize(Visit(folder, i, stack)) + Size(folder.entries[i + 1..]) <=
            StackSize(stack) + Size(folder.entries[i..])
  {
    VisitMoves(folder, i, stack);
    assert multiset(read + Seen(folder, i)) == multiset(read) + multiset(Seen(folder, i));
  }

  lemma WalkEnds(root: Folder, read: seq<Found>, done: Folder)
    requires Walked(root, read, [], done, |done.entries|)
    ensures multiset(read) == multiset(Files(root.path, root.entries))
  {
  }

  lemma HeadersWithout(files: seq<Found>, k: nat, gated: set<string>, enabled: set<string>)
    requires k < |files|
    ensures multiset(Headers(files, gated, enabled)) ==
            multiset(Listing(files[k], gated, enabled)) + multiset(Headers(files[..k] + files[k + 1..], gated, enabled))
  {
    assert files == files[..k] + files[k..];
    assert files[k..][1..] == files[k + 1..];
    HeadersConcat(files[..k], files[k..], gated, enabled);
    HeadersConcat(files[..k], files[k + 1..], gated, enabled);
  }

  lemma Without(files: seq<Found>, k: nat)
    requires k < |files|
    ensures multiset(files[..k] + files[k + 1..]) == multiset(files) - multiset{files[k]}
  {
    assert files == files[..k] + ([files[k]] + files[k + 1..]);
  }

  lemma FindIn(a: seq<Found>, b: seq<Found>) returns (k: nat)
    requires a != [] && multiset(a) == multiset(b)
    ensures k < |b| && b[k] == a[0] && multiset(a[..0] + a[1..]) == multiset(b[..k] + b[k + 1..])
  {
    assert a[0] in multiset(b);
    k :| k < |b| && b[k] == a[0];
    Without(a, 0);
    Without(b, k);
  }

  lemma {:induction false} SameHeaders(a: seq<Found>, b: seq<Found>, gated: set<string>, enabled: set<string>)
    requires multiset(a) == multiset(b)
    ensures multiset(Headers(a, gated, enabled)) == multiset(Headers(b, gated, enabled))
    decreases |a|
  {
    if a != [] {
      var k := FindIn(a, b);
      SameHeaders(a[..0] + a[1..], b[..k] + b[k + 1..], gated, enabled);
      HeadersWithout(a, 0, gated, enabled);
      HeadersWithout(b, k, gated, enabled);
    } else {
      assert |multiset(b)| == 0;
    }
  }

  lemma FirstGone(gated: set<string>, resolves: set<string>, i: nat)
    requires i < |Ascending(gated)| && Ascending(gated)[i] !in resolves
    requires forall j :: 0 <= j < i ==> Ascending(gated)[j] in resolves
    ensures IsLeast(Ascending(gated)[i], gated - resolves)
  {
    AscendingWalksTheSet(gated);
    forall g | g in gated - resolves ensures StrLe(Ascending(gated)[i], g) {
      assert g in Ascending(gated);
      StrLeTotal(g, g);
    }
  }

  lemma NoneGone(gated: set<string>, resolves: set<string>)
    requires forall j :: 0 <= j < |Ascending(gated)| ==> Ascending(gated)[j] in resolves
    ensures gated <= resolves
  {
    AscendingWalksTheSet(gated);
    forall g | g in gated ensures g in resolves {
      assert g in Ascending(gated);
    }
  }

  // The assertion over the gated headers: the first one that is gone.
  method MissingGate(gated: set<string>, resolves: set<string>) returns (gone: Option<string>)
    ensures gone.None? ==> gated <= resolves
    ensures gone.Some? ==> IsLeast(gone.value, gated - resolves)
  {
    var gates := Ascending(gated);
    for i := 0 to |gates|
      invariant forall j :: 0 <= j < i ==> gates[j] in resolves
    {
      if gates[i] !in resolves {
        FirstGone(gated, resolves, i);
        return Some(gates[i]);
      }
    }
    NoneGone(gated, resolves);
    gone := None;
  }

  lemma SameSorted(a: seq<string>, b: seq<string>)
    requires multiset(a) == multiset(b)
    ensures Sort(a, StrLe) == Sort(b, StrLe)
  {
    StrLeIsAnOrder();
    SortSorts(a, StrLe);
    SortSorts(b, StrLe);
    SortedIsUnique(Sort(a, StrLe), Sort(b, StrLe), StrLe);
  }

  // A chain from the directory `wlr` leads to a plain `.h` file that is not gated, or is enabled.
  ghost predicate HeaderChain(tree: seq<Entry>, chain: seq<nat>, gated: set<string>, enabled: set<string>) {
    && LeadsTo(tree, chain)
    && var f := FoundAt("wlr", tree, chain);
       HeaderAt(f, gated, enabled, Slashes(f.path))
  }

  // The chains that lead to a header, once each.
  ghost predicate HeaderChains(tree: seq<Entry>, chains: seq<seq<nat>>, gated: set<string>, enabled: set<string>) {
    && (forall i, j :: 0 <= i < j < |chains| ==> chains[i] != chains[j])
    && (forall chain :: chain in chains <==> HeaderChain(tree, chain, gated, enabled))
  }

  // The relative paths at the ends of some chains.
  ghost predicate PathsAre(tree: seq<Entry>, chains: seq<seq<nat>>, paths: seq<string>) {
    && |paths| == |chains|
    && forall k :: 0 <= k < |chains| ==>
         LeadsTo(tree, chains[k]) && paths[k] == Slashes(FoundAt("wlr", tree, chains[k]).path)
  }

  lemma {:induction false} FilterChains(tree: seq<Entry>, files: seq<Found>, all: seq<seq<nat>>, gated: set<string>,
                                        enabled: set<string>)
    returns (chains: seq<seq<nat>>)
    requires AtEnds("wlr", tree, files, all) && forall i, j :: 0 <= i < j < |all| ==> all[i] != all[j]
    ensures forall i, j :: 0 <= i < j < |chains| ==> chains[i] != chains[j]
    ensures forall chain :: chain in chains <==> chain in all && HeaderChain(tree, chain, gated, enabled)
    ensures PathsAre(tree, chains, Headers(files, gated, enabled))
  {
    if all == [] {
      chains := [];
    } else {
      var rest := FilterChains(tree, files[1..], all[1..], gated, enabled);
      assert all == [all[0]] + all[1..] && all[0] !in all[1..];
      chains := if HeaderChain(tree, all[0], gated, enabled) then [all[0]] + rest else rest;
      FirstPath(tree, files, all[0], rest, gated, enabled);
    }
  }

  lemma FirstPath(tree: seq<Entry>, files: seq<Found>, first: seq<nat>, rest: seq<seq<nat>>, gated: set<string>,
                  enabled: set<string>)
    requires files != [] && LeadsTo(tree, first) && files[0] == FoundAt("wlr", tree, first)
    requires PathsAre(tree, rest, Headers(files[1..], gated, enabled))
    ensures var chains := if HeaderChain(tree, first, gated, enabled) then [first] + rest else rest;
            PathsAre(tree, chains, Headers(files, gated, enabled))
  {
    var path := Slashes(files[0].path);
    ListingIsExact(files[0], gated, enabled, path);
    if HeaderChain(tree, first, gated, enabled) {
      assert Listing(files[0], gated, enabled) == [path];
      OneMorePath(tree, first, rest, path, Headers(files[1..], gated, enabled));
    } else {
      assert Listing(files[0], gated, enabled) == [];
      assert Headers(files, gated, enabled) == Headers(files[1..], gated, enabled);
    }
  }

  lemma OneMorePath(tree: seq<Entry>, first: seq<nat>, rest: seq<seq<nat>>, path: string, paths: seq<string>)
    requires LeadsTo(tree, first) && path == Slashes(FoundAt("wlr", tree, first).path) && PathsAre(tree, rest, paths)
    ensures PathsAre(tree, [first] + rest, [path] + paths)
  {
    forall k | 0 < k <= |rest| ensures LeadsTo(tree, ([first] + rest)[k]) &&
                                      ([path] + paths)[k] == Slashes(FoundAt("wlr", tree, ([first] + rest)[k]).path) {
      assert ([first] + rest)[k] == rest[k - 1] && ([path] + paths)[k] == paths[k - 1];
    }
  }

  // What the traversal lists is what the chains lead to.
  lemma ListedIffLedTo(tree: seq<Entry>, gated: set<string>, enabled: set<string>) returns (chains: seq<seq<nat>>)
    ensures HeaderChains(tree, chains, gated, enabled)
    ensures PathsAre(tree, chains, Headers(Files("wlr", tree), gated, enabled))
  {
    var all := ChainsOf("wlr", tree);
    chains := FilterChains(tree, Files("wlr", tree), all, gated, enabled);
  }

  /** `collect_headers`: refuses if a gated header is gone, and otherwise returns the paths at the ends of the chains
      that lead to a header, one for each, in order. `resolves` holds the paths that name a file. */
  method CollectHeaders(tree: seq<Entry>, gated: set<string>, enabled: set<string>, resolves: set<string>)
    returns (r: Result<seq<string>, string>, ghost chains: seq<seq<nat>>, ghost paths: seq<string>)
    ensures HeaderChains(tree, chains, gated, enabled) && PathsAre(tree, chains, paths)
    ensures match r
            case Err(gone) => IsLeast(gone, gated - resolves)
            case Ok(headers) => gated <= resolves && Sorted(headers, StrLe) && multiset(headers) == multiset(paths)
    ensures paths == Headers(Files("wlr", tree), gated, enabled) && (r.Ok? ==> r.value == Sort(paths, StrLe))
  {
    chains := ListedIffLedTo(tree, gated, enabled);
    paths := Headers(Files("wlr", tree), gated, enabled);
    var gone := MissingGate(gated, resolves);
    if gone.Some? {
      return Err(gone.value), chains, paths;
    }
    var headers := WalkHeaders(Folder("wlr", tree), gated, enabled);
    StrLeIsAnOrder();
    SortSorts(headers, StrLe);
    SameSorted(headers, paths);
    r := Ok(Sort(headers, StrLe));
  }

  method WalkHeaders(root: Folder, gated: set<string>, enabled: set<string>) returns (headers: seq<string>)
    ensures multiset(headers) == multiset(Headers(Files(root.path, root.entries), gated, enabled))
  {
    headers := [];
    var stack := [root];
    ghost var done := Folder("", []);
    ghost var read: seq<Found> := [];
    WalkStarts(root);
    while stack != []
      invariant Walked(root, read, stack, done, |done.entries|) && headers == Headers(read, gated, enabled)
      decreases StackSize(stack)
    {
      WalkPops(root, read, stack, done);
      var folder := stack[|stack| - 1];
      headers, stack, read := ListHeaders(root, folder, stack[..|stack| - 1], headers, read, gated, enabled);
      done := folder;
    }
    WalkEnds(root, read, done);
    SameHeaders(read, Files(root.path, root.entries), gated, enabled);
  }

  lemma OneHeader(read: seq<Found>, folder: Folder, i: nat, gated: set<string>, enabled: set<string>)
    requires i < |folder.entries|
    ensures var rel := Slashes(Join(folder.path, folder.entries[i].name));
            Headers(read + Seen(folder, i), gated, enabled) ==
            Headers(read, gated, enabled) + if Wanted(folder.entries[i], rel, gated, enabled) then [rel] else []
  {
    HeadersConcat(read, Seen(folder, i), gated, enabled);
    if folder.entries[i].Leaf? {
      var f := Seen(folder, i)[0];
      assert [f][1..] == [];
      assert Headers([f], gated, enabled) == Listing(f, gated, enabled);
    }
  }

  // The inner loop, over one directory.
  method ListHeaders(ghost root: Folder, folder: Folder, pending: seq<Folder>, found: seq<string>,
                     ghost before: seq<Found>, gated: set<string>, enabled: set<string>)
    returns (headers: seq<string>, stack: seq<Folder>, ghost read: seq<Found>)
    requires Walked(root, before, pending, folder, 0) && found == Headers(before, gated, enabled)
    ensures Walked(root, read, stack, folder, |folder.entries|) && headers == Headers(read, gated, enabled)
    ensures StackSize(stack) <= StackSize(pending) + Size(folder.entries)
  {
    headers, stack, read := found, pending, before;
    assert folder.entries[0..] == folder.entries;
    for i := 0 to |folder.entries|
      invariant Walked(root, read, stack, folder, i) && headers == Headers(read, gated, enabled)
      invariant StackSize(stack) + Size(folder.entries[i..]) <= StackSize(pending) + Size(folder.entries)
    {
      WalkVisits(root, read, stack, folder, i);
      OneHeader(read, folder, i, gated, enabled);
      read := read + Seen(folder, i);
      match folder.entries[i]
      case Dir(name, sub) =>
        stack := stack + [Folder(Join(folder.path, name), sub)];
      case Leaf(name, regular, _) =>
        if regular && Extension(name) == Some("h") {
          var rel := Slashes(Join(folder.path, name));
          if !(rel in gated && rel !in enabled) {
            headers := headers + [rel];
          }
        }
    }
  }

  // A plain `.h` file with that path, not gated or enabled.
  ghost predicate HeaderAt(f: Found, gated: set<string>, enabled: set<string>, path: string) {
    Slashes(f.path) == path && f.regular && Extension(f.name) == Some("h") && (path in gated ==> path in enabled)
  }

  lemma ListingIsExact(f: Found, gated: set<string>, enabled: set<string>, path: string)
    ensures path in Listing(f, gated, enabled) <==> HeaderAt(f, gated, enabled, path)
  {
  }

  ghost predicate EndsAt(tree: seq<Entry>, chain: seq<nat>, path: string) {
    LeadsTo(tree, chain) && Slashes(FoundAt("wlr", tree, chain).path) == path
  }

  /** The list is ascending and holds exactly the paths at which a chain to a header ends. */
  lemma HeadersInOrder(tree: seq<Entry>, gated: set<string>, enabled: set<string>, path: string)
    ensures var headers := Sort(Headers(Files("wlr", tree), gated, enabled), StrLe);
            && Sorted(headers, StrLe)
            && (path in headers <==>
                  exists chain :: HeaderChain(tree, chain, gated, enabled) && EndsAt(tree, chain, path))
  {
    var paths := Headers(Files("wlr", tree), gated, enabled);
    StrLeIsAnOrder();
    SortSorts(paths, StrLe);
    SortLength(paths, StrLe);
    var chains := ListedIffLedTo(tree, gated, enabled);
    ListedIffEnd(tree, chains, paths, gated, enabled, path);
  }

  lemma ListedIffEnd(tree: seq<Entry>, chains: seq<seq<nat>>, paths: seq<string>, gated: set<string>,
                     enabled: set<string>, path: string)
    requires HeaderChains(tree, chains, gated, enabled) && PathsAre(tree, chains, paths)
    ensures path in paths <==> exists chain :: HeaderChain(tree, chain, gated, enabled) && EndsAt(tree, chain, path)
  {
    if path in paths {
      var k :| 0 <= k < |paths| && paths[k] == path;
      assert chains[k] in chains && EndsAt(tree, chains[k], path);
    }
    if exists chain :: HeaderChain(tree, chain, gated, enabled) && EndsAt(tree, chain, path) {
      var chain :| HeaderChain(tree, chain, gated, enabled) && EndsAt(tree, chain, path);
      var k :| 0 <= k < |chains| && chains[k] == chain;
      assert paths[k] == path;
    }
  }
}
