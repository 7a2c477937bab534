/** Handing each include argument to clang once. */
module IncludeArgs {
  import opened Wrappers
  import opened Seqs
  import opened Sorting

  // First-match resolution: the first argument that `hits` holds.
  ghost function FirstMatch(args: seq<string>, hits: iset<string>): Option<string> {
    if args == [] then None
    else if args[0] in hits then Some(args[0])
    else FirstMatch(args[1..], hits)
  }

  // The first occurrences, in order, of what `seen` does not hold.
  function Firsts(args: seq<string>, seen: set<string>): seq<string> {
    if args == [] then []
    else if args[0] in seen then Firsts(args[1..], seen)
    else [args[0]] + Firsts(args[1..], seen + {args[0]})
  }

  /** `clang_args.retain(|arg| seen.insert(arg.clone()))`. */
  method Retain(args: seq<string>) returns (kept: seq<string>)
    ensures kept == Firsts(args, {})
  {
    kept := [];
    var seen: set<string> := {};
    assert args[0..] == args;
    for i := 0 to |args|
      invariant kept + Firsts(args[i..], seen) == Firsts(args, {})
    {
      assert args[i..][1..] == args[i + 1..];
      if args[i] !in seen {
        seen := seen + {args[i]};
        Assoc(kept, [args[i]], Firsts(args[i + 1..], seen));
        kept := kept + [args[i]];
      }
    }
  }

  lemma {:induction false} FirstsMatch(args: seq<string>, seen: set<string>, hits: iset<string>)
    requires forall a :: a in seen ==> a !in hits
    ensures FirstMatch(Firsts(args, seen), hits) == FirstMatch(args, hits)
  {
    if args != [] {
      if args[0] in seen {
        FirstsMatch(args[1..], seen, hits);
      } else if args[0] !in hits {
        FirstsMatch(args[1..], seen + {args[0]}, hits);
        assert Firsts(args, seen)[1..] == Firsts(args[1..], seen + {args[0]});
      }
    }
  }

  lemma {:induction false} FirstsAreNew(args: seq<string>, seen: set<string>)
    ensures Distinct(Firsts(args, seen))
    ensures forall a :: a in Firsts(args, seen) <==> a in args && a !in seen
  {
    if args != [] {
      assert args == [args[0]] + args[1..];
      FirstsAreNew(args[1..], seen);
      FirstsAreNew(args[1..], seen + {args[0]});
    }
  }

  /** Dropping later duplicates changes no resolution: every lookup still finds the argument it found before. */
  lemma DedupKeepsResolution(args: seq<string>, hits: iset<string>)
    ensures FirstMatch(Firsts(args, {}), hits) == FirstMatch(args, hits)
    ensures Distinct(Firsts(args, {})) && forall a :: a in Firsts(args, {}) <==> a in args
  {
    FirstsMatch(args, {}, hits);
    FirstsAreNew(args, {});
  }

  lemma {:induction false} MissMeansNone(args: seq<string>, x: string, hits: iset<string>)
    requires x !in args
    ensures FirstMatch(args, hits - iset{x}) == FirstMatch(args, hits)
  {
    if args != [] {
      MissMeansNone(args[1..], x, hits);
    }
  }

  /** No other duplicate-free list resolves every lookup in the same way. */
  lemma {:induction false} ResolutionDeterminesTheList(a: seq<string>, b: seq<string>)
    requires Distinct(a) && Distinct(b)
    requires forall hits :: FirstMatch(a, hits) == FirstMatch(b, hits)
    ensures a == b
  {
    var all := iset x: string | x in a || x in b;
    assert FirstMatch(a, all) == FirstMatch(b, all);
    if a != [] && b != [] {
      forall hits ensures FirstMatch(a[1..], hits) == FirstMatch(b[1..], hits) {
        var less := hits - iset{a[0]};
        MissMeansNone(a[1..], a[0], hits);
        MissMeansNone(b[1..], b[0], hits);
        assert FirstMatch(a, less) == FirstMatch(b, less);
      }
      ResolutionDeterminesTheList(a[1..], b[1..]);
      assert a == [a[0]] + a[1..] && b == [b[0]] + b[1..];
    }
  }
}
