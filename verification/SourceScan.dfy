/** The audit's walk over the crate's sources. */
module SourceScan {
  import opened Wrappers
  import opened SysUses
  import opened Trees
  import opened Walks

  const AUDIT_FILE := "coverage.rs"

  predicate IsScanned(f: Found) {
    Extension(f.name) == Some("rs") && f.name != AUDIT_FILE
  }

  // Some occurrence of `sys::` in the file uses `name`.
  ghost predicate Uses(f: Found, name: string) {
    && IsScanned(f) && f.contents.Some? && HasWlrPrefix(name)
    && exists p: nat :: UsedAt(f.contents.value, p, name)
  }

  ghost predicate UsedIn(files: seq<Found>, name: string) {
    exists f :: f in files && Uses(f, name)
  }

  ghost predicate Readable(files: seq<Found>) {
    forall f :: f in files && IsScanned(f) ==> f.contents.Some?
  }

  ghost predicate Unreadable(files: seq<Found>, path: string) {
    exists f :: f in files && IsScanned(f) && f.contents.None? && f.path == path
  }

  // `found` is what the files read so far use.
  ghost predicate Inventory(found: set<string>, read: seq<Found>) {
    Readable(read) && forall name :: name in found <==> UsedIn(read, name)
  }

  // A chain leads to a `.rs` entry that is not the audit itself.
  ghost predicate SourceChain(tree: seq<Entry>, chain: seq<nat>) {
    && LeadsTo(tree, chain)
    && Extension(LeafOf(tree, chain).name) == Some("rs") && LeafOf(tree, chain).name != "coverage.rs"
  }

  // The source at the end of the chain uses `name` after some occurrence of `sys::`.
  ghost predicate ChainUses(tree: seq<Entry>, chain: seq<nat>, name: string) {
    && SourceChain(tree, chain) && LeafOf(tree, chain).contents.Some? && "wlr_" <= name
    && exists p: nat :: UsedAt(LeafOf(tree, chain).contents.value, p, name)
  }

  ghost predicate ChainFails(src: string, tree: seq<Entry>, chain: seq<nat>, path: string) {
    SourceChain(tree, chain) && LeafOf(tree, chain).contents.None? && path == src + Slashed(NamesOf(tree, chain))
  }

  lemma PrefixIff(name: string)
    ensures HasWlrPrefix(name) <==> "wlr_" <= name
  {
  }

  lemma ReadableIff(src: string, tree: seq<Entry>)
    ensures Readable(Files(src, tree)) <==>
            forall chain :: SourceChain(tree, chain) ==> LeafOf(tree, chain).contents.Some?
  {
    forall chain | SourceChain(tree, chain) ensures FoundAt(src, tree, chain) in Files(src, tree) {
      FoundIff(src, tree, FoundAt(src, tree, chain));
    }
    forall f | f in Files(src, tree) ensures exists chain :: LeadsTo(tree, chain) && FoundAt(src, tree, chain) == f {
      FoundIff(src, tree, f);
    }
    if !Readable(Files(src, tree)) {
      var f :| f in Files(src, tree) && IsScanned(f) && f.contents.None?;
      var chain :| LeadsTo(tree, chain) && FoundAt(src, tree, chain) == f;
      assert SourceChain(tree, chain);
    }
  }

  lemma UsedIff(src: string, tree: seq<Entry>, name: string)
    ensures UsedIn(Files(src, tree), name) <==> exists chain :: ChainUses(tree, chain, name)
  {
    PrefixIff(name);
    if UsedIn(Files(src, tree), name) {
      var f :| f in Files(src, tree) && Uses(f, name);
      FoundIff(src, tree, f);
      var chain :| LeadsTo(tree, chain) && FoundAt(src, tree, chain) == f;
      assert ChainUses(tree, chain, name);
    }
    if exists chain :: ChainUses(tree, chain, name) {
      var chain :| ChainUses(tree, chain, name);
      FoundIff(src, tree, FoundAt(src, tree, chain));
      assert Uses(FoundAt(src, tree, chain), name);
    }
  }

  lemma UnreadableIff(src: string, tree: seq<Entry>, path: string)
    ensures Unreadable(Files(src, tree), path) <==> exists chain :: ChainFails(src, tree, chain, path)
  {
    if Unreadable(Files(src, tree), path) {
      var f :| f in Files(src, tree) && IsScanned(f) && f.contents.None? && f.path == path;
      FoundIff(src, tree, f);
      var chain :| LeadsTo(tree, chain) && FoundAt(src, tree, chain) == f;
      assert ChainFails(src, tree, chain, path);
    }
    if exists chain :: ChainFails(src, tree, chain, path) {
      var chain :| ChainFails(src, tree, chain, path);
      FoundIff(src, tree, FoundAt(src, tree, chain));
    }
  }

  /** `scan_sys_uses`: reads exactly the `.rs` entries, other than the audit itself, to which a chain of directories
      leads, and returns exactly the `wlr_` names they use; it fails exactly when one of them cannot be read. */
  method ScanSysUses(src: string, tree: seq<Entry>) returns (r: Result<set<string>, string>)
    ensures r.Ok? <==> forall chain :: SourceChain(tree, chain) ==> LeafOf(tree, chain).contents.Some?
    ensures r.Ok? ==> forall name :: name in r.value <==> exists chain :: ChainUses(tree, chain, name)
    ensures r.Err? ==> exists chain :: ChainFails(src, tree, chain, r.error)
  {
    ReadableIff(src, tree);
    r := ScanTree(src, tree);
    match r
    case Ok(_) =>
      forall name {
        UsedIff(src, tree, name);
      }
    case Err(path) => UnreadableIff(src, tree, path);
  }

  method ScanTree(src: string, tree: seq<Entry>) returns (r: Result<set<string>, string>)
    ensures r.Ok? <==> Readable(Files(src, tree))
    ensures r.Ok? ==> forall name :: name in r.value <==> UsedIn(Files(src, tree), name)
    ensures r.Err? ==> Unreadable(Files(src, tree), r.error)
  {
    var root := Folder(src, tree);
    var found: set<string> := {};
    var stack := [root];
    ghost var done := Folder("", []);
    ghost var read: seq<Found> := [];
    WalkStarts(root);
    while stack != []
      invariant Walked(root, read, stack, done, |done.entries|) && Inventory(found, read)
      decreases StackSize(stack)
    {
      WalkPops(root, read, stack, done);
      var folder := stack[|stack| - 1];
      var failed: Option<string>;
      found, stack, failed, read := ReadDir(root, folder, stack[..|stack| - 1], found, read);
      if failed.Some? {
        return Err(failed.value);
      }
      done := folder;
    }
    WalkEnds(root, read, done);
    SameFiles(read, Files(src, tree));
    r := Ok(found);
  }

  lemma SameFiles(a: seq<Found>, b: seq<Found>)
    requires multiset(a) == multiset(b)
    ensures Readable(a) <==> Readable(b)
    ensures forall name :: UsedIn(a, name) <==> UsedIn(b, name)
  {
    forall f ensures f in a <==> f in b {
      assert f in multiset(a) <==> f in multiset(b);
    }
  }

  lemma AheadIsInTree(root: Folder, read: seq<Found>, stack: seq<Folder>, folder: Folder, i: nat, f: Found)
    requires i < |folder.entries| && Walked(root, read, stack, folder, i) && f in Seen(folder, i)
    ensures f in Files(root.path, root.entries)
  {
    assert folder.entries[i..][0] == folder.entries[i];
    assert f in multiset(Files(folder.path, folder.entries[i..]));
    assert f in multiset(Files(root.path, root.entries));
  }

  lemma InventoryGrows(found: set<string>, read: seq<Found>, more: seq<Found>, bigger: set<string>)
    requires Inventory(found, read) && Readable(more)
    requires forall name :: name in bigger <==> name in found || UsedIn(more, name)
    ensures Inventory(bigger, read + more)
  {
    forall name ensures UsedIn(read + more, name) <==> UsedIn(read, name) || UsedIn(more, name) {
    }
  }

  // A path that is not a directory: skipped, or read and scanned.
  method ScanFile(f: Found, known: set<string>) returns (read: bool, found: set<string>)
    ensures read <==> Readable([f])
    ensures read ==> forall name :: name in found <==> name in known || UsedIn([f], name)
  {
    read, found := true, known;
    assert f in [f];
    if Extension(f.name) == Some("rs") && f.name != AUDIT_FILE {
      if f.contents.None? {
        return false, known;
      }
      found := CollectSysUses(f.contents.value, known);
    }
  }

  // The inner loop, over one directory.
  method ReadDir(ghost root: Folder, folder: Folder, pending: seq<Folder>, known: set<string>, ghost before: seq<Found>)
    returns (found: set<string>, stack: seq<Folder>, failed: Option<string>, ghost read: seq<Found>)
    requires Walked(root, before, pending, folder, 0) && Inventory(known, before)
    ensures failed.None? ==> Walked(root, read, stack, folder, |folder.entries|) && Inventory(found, read)
    ensures failed.None? ==> StackSize(stack) <= StackSize(pending) + Size(folder.entries)
    ensures failed.Some? ==> Unreadable(Files(root.path, root.entries), failed.value)
  {
    found, stack, failed, read := known, pending, None, before;
    assert folder.entries[0..] == folder.entries;
    for i := 0 to |folder.entries|
      invariant Walked(root, read, stack, folder, i) && Inventory(found, read)
      invariant StackSize(stack) + Size(folder.entries[i..]) <= StackSize(pending) + Size(folder.entries)
    {
      WalkVisits(root, read, stack, folder, i);
      ghost var seen := Seen(folder, i);
      match folder.entries[i]
      case Dir(name, sub) =>
        stack := stack + [Folder(Join(folder.path, name), sub)];
        InventoryGrows(found, read, seen, found);
      case Leaf(name, regular, contents) =>
        var f := Found(Join(folder.path, name), name, regular, contents);
        var ok, more := ScanFile(f, found);
        if !ok {
          AheadIsInTree(root, read, stack, folder, i, f);
          failed := Some(f.path);
          return;
        }
        InventoryGrows(found, read, seen, more);
        found := more;
      read := read + seen;
    }
  }
}
