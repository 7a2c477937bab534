/** What a line of the bindings declares, spelled out. */
module BindingsText {
  import opened Wrappers
  import opened Text
  import opened SysUses
  import opened Reconcile
  import opened Bindings

  ghost predicate IsIdentifier(name: string) {
    name != [] && forall c :: c in name ==> IsIdent(c)
  }

  // A name bindgen made up for an anonymous aggregate.
  ghost predicate MadeUp(name: string) {
    exists before, after :: name == before + "__bindgen_ty" + after
  }

  ghost predicate Follows(line: string, start: string, name: string, next: string) {
    exists rest :: line == start + name + next + rest
  }

  ghost predicate FollowsIndented(line: string, start: string, name: string, next: string) {
    exists indent, rest :: AllSpace(indent) && line == indent + (start + name + next + rest)
  }

  /** `line` declares s. */
  ghost predicate Declares(line: string, s: Symbol) {
    && "wlr_" <= s.name && IsIdentifier(s.name)
    && match s.kind
       case Fn => FollowsIndented(line, "pub fn ", s.name, "(")
       case Enum => Follows(line, "pub struct ", s.name, "(pub ")
       case Struct => Follows(line, "pub struct ", s.name, " {") && !MadeUp(s.name)
       case Union => Follows(line, "pub union ", s.name, " {") && !MadeUp(s.name)
       case TypeAlias => Follows(line, "pub type ", s.name, " =")
  }

  lemma {:induction false} ContainsIff(s: string, part: string)
    ensures Contains(s, part) <==> exists before, after :: s == before + part + after
  {
    if part <= s {
      assert s == [] + part + s[|part|..];
    } else if s != [] {
      ContainsIff(s[1..], part);
      if Contains(s[1..], part) {
        var before, after :| s[1..] == before + part + after;
        assert s == ([s[0]] + before) + part + after;
      }
      if exists before, after :: s == before + part + after {
        var before, after :| s == before + part + after;
        NotAtFront(s, before, part, after);
      }
    }
  }

  lemma NotAtFront(s: string, before: string, part: string, after: string)
    requires s == before + part + after && !(part <= s)
    ensures before != [] && s[1..] == before[1..] + part + after
  {
    assert before == [] ==> s == part + after;
  }

  // An identifier followed by something that does not go on with it is the whole leading run.
  lemma RunIs(name: string, next: string)
    requires IsIdentifier(name) && next != [] && !IsIdent(next[0])
    ensures LeadingIdent(name + next) == Some((name, next))
  {
    var s := name + next;
    var e := RunEnd(s, 0, |s|);
    assert forall i :: 0 <= i < |name| ==> s[i] in name;
    assert s[|name|] == next[0];
    assert e == |name|;
    assert s[..e] == name && s[e..] == next;
  }

  // The item `keyword` introduces is `name`, and `next` comes after it.
  ghost predicate IsItem(line: string, keyword: string, name: string, next: string) {
    var item := Item(line, keyword);
    item.Some? && item.value.0 == name && next <= item.value.1
  }

  lemma ItemIff(line: string, keyword: string, name: string, next: string)
    requires next != [] && !IsIdent(next[0])
    ensures IsItem(line, keyword, name, next) <==>
            Follows(line, keyword, name, next) && "wlr_" <= name && IsIdentifier(name)
  {
    if Follows(line, keyword, name, next) && "wlr_" <= name && IsIdentifier(name) {
      FollowsIsItem(line, keyword, name, next);
    }
    if IsItem(line, keyword, name, next) {
      ItemFollows(line, keyword, name, next);
    }
  }

  lemma FollowsIsItem(line: string, keyword: string, name: string, next: string)
    requires next != [] && !IsIdent(next[0])
    requires Follows(line, keyword, name, next) && "wlr_" <= name && IsIdentifier(name)
    ensures IsItem(line, keyword, name, next)
  {
    var rest :| line == keyword + name + next + rest;
    assert line[|keyword|..] == name + (next + rest);
    RunIs(name, next + rest);
  }

  lemma ItemFollows(line: string, keyword: string, name: string, next: string)
    requires IsItem(line, keyword, name, next)
    ensures Follows(line, keyword, name, next) && "wlr_" <= name && IsIdentifier(name)
  {
    var tail := Item(line, keyword).value.1;
    assert line[|keyword|..] == name + tail;
    assert line == keyword + name + next + tail[|next|..];
  }

  lemma FnIff(line: string, name: string)
    ensures IsItem(TrimStart(line), "pub fn ", name, "(") <==>
            FollowsIndented(line, "pub fn ", name, "(") && "wlr_" <= name && IsIdentifier(name)
  {
    ItemIff(TrimStart(line), "pub fn ", name, "(");
    if FollowsIndented(line, "pub fn ", name, "(") {
      var indent, rest :| AllSpace(indent) && line == indent + ("pub fn " + name + "(" + rest);
      TrimStartIs(indent, "pub fn " + name + "(" + rest);
    }
    if Follows(TrimStart(line), "pub fn ", name, "(") {
      var indent := TrimStartSplits(line);
      var rest :| TrimStart(line) == "pub fn " + name + "(" + rest;
    }
  }

  // The keywords exclude each other.
  lemma OneKeyword(line: string)
    ensures !("pub struct " <= line && "pub union " <= line)
    ensures !("pub struct " <= line && "pub type " <= line)
    ensures !("pub union " <= line && "pub type " <= line)
    ensures "pub fn " <= TrimStart(line) ==>
              !("pub struct " <= line) && !("pub union " <= line) && !("pub type " <= line)
  {
    if "pub struct " <= line || "pub union " <= line || "pub type " <= line {
      assert line[0] == 'p' && TrimStart(line) == line;
    }
    if "pub struct " <= line {
      assert line[4] == "pub struct "[4];
    }
    if "pub union " <= line {
      assert line[4] == "pub union "[4];
    }
    if "pub type " <= line {
      assert line[4] == "pub type "[4];
    }
    if "pub fn " <= line {
      assert line[4] == "pub fn "[4];
    }
  }

  // What the branches of `Declared` ask for.
  ghost predicate Branch(line: string, s: Symbol) {
    match s.kind
    case Fn => IsItem(TrimStart(line), "pub fn ", s.name, "(")
    case Enum => IsItem(line, "pub struct ", s.name, "(pub ")
    case Struct => IsItem(line, "pub struct ", s.name, " {") && !IsAnonymous(s.name)
    case Union => IsItem(line, "pub union ", s.name, " {") && !IsAnonymous(s.name)
    case TypeAlias => IsItem(line, "pub type ", s.name, " =")
  }

  lemma BranchIff(line: string, s: Symbol)
    ensures Declared(line) == Some(s) <==> Branch(line, s)
  {
    OneKeyword(line);
  }

  /** A line declares a symbol exactly when it has one of the five shapes. */
  lemma DeclaredIff(line: string, s: Symbol)
    ensures Declared(line) == Some(s) <==> Declares(line, s)
  {
    BranchIff(line, s);
    ContainsIff(s.name, "__bindgen_ty");
    match s.kind
    case Fn => FnIff(line, s.name);
    case Enum => ItemIff(line, "pub struct ", s.name, "(pub ");
    case Struct => ItemIff(line, "pub struct ", s.name, " {");
    case Union => ItemIff(line, "pub union ", s.name, " {");
    case TypeAlias => ItemIff(line, "pub type ", s.name, " =");
  }

  // Line i declares s, and no earlier line declares anything of that name.
  ghost predicate DeclaredFirst(lines: seq<string>, i: nat, s: Symbol) {
    i < |lines| && Declares(lines[i], s) && forall j, t :: 0 <= j < i && Declares(lines[j], t) ==> t.name != s.name
  }

  lemma {:induction false} DeclarationAt(lines: seq<string>, i: nat)
    requires i < |lines|
    ensures |Declarations(lines)| == |lines| && Declarations(lines)[i] == Declared(lines[i])
  {
    if |lines| > 1 {
      DeclarationAt(lines[..|lines| - 1], if i < |lines| - 1 then i else 0);
    }
  }

  lemma FirstIff(lines: seq<string>, i: nat, s: Symbol)
    ensures FirstDeclaredAt(Declarations(lines), i, s) <==> DeclaredFirst(lines, i, s)
  {
    var decls := Declarations(lines);
    if lines != [] {
      DeclarationAt(lines, 0);
    }
    if i < |lines| {
      DeclarationAt(lines, i);
      DeclaredIff(lines[i], s);
      forall j | 0 <= j < i ensures decls[..i][j] == Declared(lines[j]) {
        DeclarationAt(lines, j);
      }
      forall j, t | 0 <= j < i ensures decls[..i][j] == Some(t) <==> Declares(lines[j], t) {
        DeclaredIff(lines[j], t);
      }
      NoneEarlier(lines, decls, i, s.name);
    }
  }

  lemma NoneEarlier(lines: seq<string>, decls: seq<Option<Symbol>>, i: nat, name: string)
    requires i <= |lines| == |decls|
    requires forall j, t :: 0 <= j < i ==> (decls[..i][j] == Some(t) <==> Declares(lines[j], t))
    ensures Undeclared(decls[..i], name) <==> forall j, t :: 0 <= j < i && Declares(lines[j], t) ==> t.name != name
  {
    if Undeclared(decls[..i], name) {
      forall j, t | 0 <= j < i && Declares(lines[j], t) ensures t.name != name {
        assert decls[..i][j] == Some(t) && decls[..i][j] in decls[..i];
      }
    } else {
      var d :| d in decls[..i] && d.Some? && d.value.name == name;
      var j :| 0 <= j < i && decls[..i][j] == d;
      assert Declares(lines[j], d.value);
    }
  }

  /** `extract`, said of the text: a symbol is found exactly when the first line to declare its name declares it. */
  lemma ExtractsFirst(lines: seq<string>, s: Symbol)
    ensures FirstDeclared(Declarations(lines), s) <==> exists i: nat :: DeclaredFirst(lines, i, s)
  {
    forall i: nat ensures FirstDeclaredAt(Declarations(lines), i, s) <==> DeclaredFirst(lines, i, s) {
      FirstIff(lines, i, s);
    }
  }
}
