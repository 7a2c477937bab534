/** The extraction of bound symbols from the generated bindings. */
module Bindings {
  import opened Wrappers
  import opened Seqs
  import opened Text
  import opened Sorting
  import opened Reconcile
  import opened SysUses

  function StripPrefix(s: string, prefix: string): Option<string> {
    if prefix <= s then Some(s[|prefix|..]) else None
  }

  predicate Contains(s: string, part: string) {
    part <= s || (s != [] && Contains(s[1..], part))
  }

  // `leading_ident`: the longest identifier at the front, and what follows it.
  function LeadingIdent(s: string): Option<(string, string)> {
    var e := RunEnd(s, 0, |s|);
    if e == 0 then None else Some((s[..e], s[e..]))
  }

  // A `wlr_` item introduced by `keyword`: its name, and the text after it.
  function Item(line: string, keyword: string): Option<(string, string)> {
    match StripPrefix(line, keyword)
    case None => None
    case Some(rest) =>
      match LeadingIdent(rest)
      case None => None
      case Some(parts) => if HasWlrPrefix(parts.0) then Some(parts) else None
  }

  predicate IsAnonymous(name: string) {
    Contains(name, "__bindgen_ty")
  }

  // What one line declares, if anything.
  function Declared(line: string): Option<Symbol> {
    var f := Item(TrimStart(line), "pub fn ");
    var s := Item(line, "pub struct ");
    var u := Item(line, "pub union ");
    var t := Item(line, "pub type ");
    if f.Some? && "(" <= f.value.1 then Some(Symbol(f.value.0, Fn))
    else if s.Some? then
      if "(pub " <= s.value.1 then Some(Symbol(s.value.0, Enum))
      else if " {" <= s.value.1 && !IsAnonymous(s.value.0) then Some(Symbol(s.value.0, Struct))
      else None
    else if u.Some? && " {" <= u.value.1 && !IsAnonymous(u.value.0) then Some(Symbol(u.value.0, Union))
    else if t.Some? && " =" <= t.value.1 then Some(Symbol(t.value.0, TypeAlias))
    else None
  }

  function Declarations(lines: seq<string>): seq<Option<Symbol>> {
    if lines == [] then [] else Declarations(lines[..|lines| - 1]) + [Declared(lines[|lines| - 1])]
  }

  ghost predicate Undeclared(decls: seq<Option<Symbol>>, name: string) {
    forall d :: d in decls && d.Some? ==> d.value.name != name
  }

  // Declaration i is s, and no earlier one has its name.
  ghost predicate FirstDeclaredAt(decls: seq<Option<Symbol>>, i: nat, s: Symbol) {
    i < |decls| && decls[i] == Some(s) && Undeclared(decls[..i], s.name)
  }

  ghost predicate FirstDeclared(decls: seq<Option<Symbol>>, s: Symbol) {
    exists i: nat :: FirstDeclaredAt(decls, i, s)
  }

  // `out` holds the first declaration of every name.
  ghost predicate Collected(decls: seq<Option<Symbol>>, out: seq<Symbol>) {
    && (forall s :: s in out <==> FirstDeclared(decls, s))
    && (forall d :: d in decls && d.Some? ==> d.value.name in Names(out))
    && DistinctNames(out)
  }

  lemma SameFirst(decls: seq<Option<Symbol>>, d: Option<Symbol>, s: Symbol)
    ensures FirstDeclared(decls + [d], s) <==> FirstDeclared(decls, s) || (d == Some(s) && Undeclared(decls, s.name))
  {
    var longer := decls + [d];
    forall i: nat | i < |decls| ensures FirstDeclaredAt(longer, i, s) <==> FirstDeclaredAt(decls, i, s) {
      assert longer[..i] == decls[..i];
    }
    assert longer[..|decls|] == decls;
    assert FirstDeclaredAt(longer, |decls|, s) <==> d == Some(s) && Undeclared(decls, s.name);
    if FirstDeclared(decls, s) {
      var i: nat :| FirstDeclaredAt(decls, i, s);
      assert FirstDeclaredAt(longer, i, s);
    }
  }

  lemma KnownNames(decls: seq<Option<Symbol>>, out: seq<Symbol>, name: string)
    requires Collected(decls, out)
    ensures name in Names(out) <==> !Undeclared(decls, name)
  {
    if name in Names(out) {
      var t :| t in out && t.name == name;
      assert FirstDeclared(decls, t);
      var i: nat :| FirstDeclaredAt(decls, i, t);
      assert decls[i] in decls && decls[i].value.name == name;
    }
  }

  function Keep(out: seq<Symbol>, d: Option<Symbol>): seq<Symbol> {
    if d.Some? && d.value.name !in Names(out) then out + [d.value] else out
  }

  lemma KeepIsFirst(decls: seq<Option<Symbol>>, out: seq<Symbol>, d: Option<Symbol>, s: Symbol)
    requires Collected(decls, out)
    ensures s in Keep(out, d) <==> FirstDeclared(decls + [d], s)
  {
    SameFirst(decls, d, s);
    if d.Some? {
      KnownNames(decls, out, d.value.name);
    }
  }

  lemma KeepNames(out: seq<Symbol>, d: Option<Symbol>)
    ensures Names(Keep(out, d)) == Names(out) + if d.Some? then {d.value.name} else {}
    ensures DistinctNames(out) ==> DistinctNames(Keep(out, d))
  {
    if d.Some? && d.value.name !in Names(out) {
      assert Keep(out, d)[..|out|] == out;
      NamesGrow(Keep(out, d));
    }
  }

  lemma CollectOneMore(decls: seq<Option<Symbol>>, out: seq<Symbol>, d: Option<Symbol>)
    requires Collected(decls, out)
    ensures Collected(decls + [d], Keep(out, d))
  {
    forall s {
      KeepIsFirst(decls, out, d, s);
    }
    KeepNames(out, d);
  }

  lemma {:induction false} OnceEach(s: seq<Symbol>, x: Symbol)
    requires DistinctNames(s)
    ensures multiset(s)[x] <= 1
  {
    if s != [] {
      assert s == [s[0]] + s[1..];
      assert s[0] !in s[1..];
      OnceEach(s[1..], x);
      assert x !in s[1..] ==> multiset(s[1..])[x] == 0;
    }
  }

  lemma RearrangedNames(s: seq<Symbol>, t: seq<Symbol>)
    requires DistinctNames(s) && multiset(s) == multiset(t)
    ensures DistinctNames(t)
  {
    forall i, j | 0 <= i < j < |t| ensures t[i].name != t[j].name {
      assert t[i] in multiset(s) && t[j] in multiset(s);
      if t[i].name == t[j].name {
        assert t[i] == t[j];
        OnceEach(s, t[i]);
        TwiceIn(t, i, j);
      }
    }
  }

  lemma TwiceIn(t: seq<Symbol>, i: nat, j: nat)
    requires i < j < |t| && t[i] == t[j]
    ensures multiset(t)[t[i]] >= 2
  {
    assert t == t[..j] + t[j..];
    assert t[i] in t[..j] && t[i] in t[j..];
  }

  /** `extract`: every name once, as its first declaration has it, in the order of names. */
  method Extract(source: string) returns (out: seq<Symbol>)
    ensures forall s :: s in out <==> FirstDeclared(Declarations(Lines(source)), s)
    ensures DistinctNames(out) && Sorted(out, SymbolLe)
  {
    var found := Collect(Lines(source));
    SymbolOrders();
    SortSorts(found, SymbolLe);
    SortLength(found, SymbolLe);
    out := Sort(found, SymbolLe);
    RearrangedNames(found, out);
  }

  method Collect(lines: seq<string>) returns (out: seq<Symbol>)
    ensures Collected(Declarations(lines), out)
  {
    var seen: set<string> := {};
    out := [];
    for k := 0 to |lines|
      invariant Collected(Declarations(lines[..k]), out) && seen == Names(out)
    {
      var d := Declared(lines[k]);
      CollectOneMore(Declarations(lines[..k]), out, d);
      assert lines[..k + 1][..k] == lines[..k];
      KeepNames(out, d);
      if d.Some? && d.value.name !in seen {
        seen := seen + {d.value.name};
        out := out + [d.value];
      }
    }
    TakeAll(lines);
  }
}
