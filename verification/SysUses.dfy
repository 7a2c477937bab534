/** The scan for `sys::wlr_*` identifiers in a source text. */
module SysUses {
  import opened Text

  predicate OccursAt(text: string, p: nat) {
    p + 5 <= |text| && text[p..p + 5] == "sys::"
  }

  predicate HasWlrPrefix(name: string) {
    |name| >= 4 && name[..4] == "wlr_"
  }

  // The end of the longest run of identifier characters in text[p..hi] that starts at p.
  function RunEnd(text: string, p: nat, hi: nat): (e: nat)
    requires p <= hi <= |text|
    ensures p <= e <= hi
    ensures (forall i :: p <= i < e ==> IsIdent(text[i])) && (e == hi || !IsIdent(text[e]))
    decreases hi - p
  {
    if p < hi && IsIdent(text[p]) then RunEnd(text, p + 1, hi) else p
  }

  // Opening braces minus closing braces in text[lo..hi].
  function Depth(text: string, lo: nat, hi: nat): int
    requires lo <= hi <= |text|
  {
    if lo == hi then 0
    else Depth(text, lo, hi - 1) + if text[hi - 1] == '{' then 1 else if text[hi - 1] == '}' then -1 else 0
  }

  // The brace group opened at q ends at e: the matching brace, or the end of the text if it is never closed.
  ghost predicate GroupEnds(text: string, q: nat, e: nat) {
    && q < e <= |text| && text[q] == '{'
    && (forall i :: q < i <= e ==> Depth(text, q, i) > 0)
    && (e < |text| ==> text[e] == '}' && Depth(text, q, e + 1) == 0)
  }

  // text[a..b] is a maximal run of identifier characters within text[lo..hi].
  ghost predicate MaximalRun(text: string, lo: nat, hi: nat, a: nat, b: nat) {
    && lo <= a < b <= hi <= |text|
    && (forall i :: a <= i < b ==> IsIdent(text[i]))
    && (a == lo || !IsIdent(text[a - 1]))
    && (b == hi || !IsIdent(text[b]))
  }

  // `name` is one of the identifiers between lo and hi.
  ghost predicate Listed(text: string, lo: nat, hi: nat, name: string)
    requires lo <= hi <= |text|
  {
    exists a: nat, b: nat :: MaximalRun(text, lo, hi, a, b) && name == text[a..b]
  }

  /** `name` is used at position p: `sys::` stands there, and either the identifier that follows is `name`, or a
      brace follows and `name` is one of the identifiers in that brace group. */
  ghost predicate UsedAt(text: string, p: nat, name: string) {
    && OccursAt(text, p)
    && var q := p + 5;
       var e := RunEnd(text, q, |text|);
       if q < e then name == text[q..e]
       else exists end: nat :: GroupEnds(text, q, end) && Listed(text, q + 1, end, name)
  }

  lemma OccurrenceSpelled(text: string, p: nat)
    ensures OccursAt(text, p) <==>
            && p + 5 <= |text| && text[p] == 's' && text[p + 1] == 'y' && text[p + 2] == 's'
            && text[p + 3] == ':' && text[p + 4] == ':'
  {
    if p + 5 <= |text| {
      var w := text[p..p + 5];
      assert w[0] == text[p] && w[1] == text[p + 1] && w[2] == text[p + 2] && w[3] == text[p + 3] &&
             w[4] == text[p + 4];
    }
  }

  // `sys::` cannot overlap itself.
  lemma NoOverlap(text: string, p: nat, r: nat)
    requires OccursAt(text, p) && p < r < p + 5
    ensures !OccursAt(text, r)
  {
    OccurrenceSpelled(text, p);
    OccurrenceSpelled(text, r);
  }

  lemma GroupEndUnique(text: string, q: nat, e: nat, f: nat)
    requires GroupEnds(text, q, e) && GroupEnds(text, q, f)
    ensures e == f
  {
  }

  // `rest.find("sys::")`, from position `from` on.
  method FindSys(text: string, from: nat) returns (found: bool, at: nat)
    requires from <= |text|
    ensures found ==> from <= at && OccursAt(text, at)
    ensures forall p :: from <= p < (if found then at else |text|) ==> !OccursAt(text, p)
  {
    at := from;
    while at < |text|
      invariant from <= at <= |text|
      invariant forall p :: from <= p < at ==> !OccursAt(text, p)
    {
      if OccursAt(text, at) {
        return true, at;
      }
      at := at + 1;
    }
    found := false;
  }

  // The inner brace loop; `depth` is unsigned and never underflows.
  method GroupEnd(text: string, q: nat) returns (end: nat)
    requires q < |text| && text[q] == '{'
    ensures GroupEnds(text, q, end)
  {
    var depth: nat := 0;
    var i := q;
    while i < |text|
      invariant q <= i <= |text| && depth == Depth(text, q, i)
      invariant forall k :: q < k <= i ==> Depth(text, q, k) > 0
    {
      if text[i] == '{' {
        depth := depth + 1;
      } else if text[i] == '}' {
        depth := depth - 1;
        if depth == 0 {
          return i;
        }
      }
      i := i + 1;
    }
    end := |text|;
  }

  // The inner identifier loop over a brace group.
  method ScanGroup(text: string, lo: nat, hi: nat, found: set<string>) returns (out: set<string>)
    requires lo <= hi <= |text|
    ensures forall name :: name in out <==> name in found || (HasWlrPrefix(name) && Listed(text, lo, hi, name))
  {
    out := found;
    var scan := lo;
    while scan < hi
      invariant lo <= scan <= hi
      invariant scan == lo || scan == hi || !IsIdent(text[scan - 1]) || !IsIdent(text[scan])
      invariant forall name :: name in out ==> name in found || (HasWlrPrefix(name) && Listed(text, lo, hi, name))
      invariant forall name :: name in found ==> name in out
      invariant forall a: nat, b: nat ::
                  MaximalRun(text, lo, hi, a, b) && b <= scan && HasWlrPrefix(text[a..b]) ==> text[a..b] in out
    {
      var e := RunEnd(text, scan, hi);
      if scan < e {
        var name := text[scan..e];
        assert MaximalRun(text, lo, hi, scan, e);
        if HasWlrPrefix(name) {
          out := out + {name};
        }
        assert scan == lo || !IsIdent(text[scan - 1]);
        assert forall a: nat, b: nat :: MaximalRun(text, lo, hi, a, b) && scan < b <= e ==> a == scan && b == e;
        scan := e;
      } else {
        assert forall a: nat, b: nat :: MaximalRun(text, lo, hi, a, b) && b == scan + 1 ==> IsIdent(text[scan]);
        scan := scan + 1;
      }
    }
  }

  /** `collect_sys_uses`: adds exactly the `wlr_` names used at some occurrence of `sys::`. */
  method CollectSysUses(text: string, found: set<string>) returns (out: set<string>)
    ensures forall name :: name in out <==>
              name in found || (HasWlrPrefix(name) && exists p: nat :: UsedAt(text, p, name))
  {
    out := found;
    var rest := 0;
    while true
      invariant rest <= |text|
      invariant forall name :: name in out <==>
                  name in found || (HasWlrPrefix(name) && exists p: nat :: p < rest && UsedAt(text, p, name))
      decreases |text| - rest
    {
      var more, at := FindSys(text, rest);
      if !more {
        assert forall p: nat, name :: UsedAt(text, p, name) ==> p < rest;
        return;
      }
      var q := at + 5;
      forall p: nat, name | UsedAt(text, p, name) && rest <= p < q ensures p == at {
        if at < p {
          NoOverlap(text, at, p);
        }
      }
      ghost var before := out;
      out := CollectOne(text, at, out);
      forall name ensures (exists p: nat :: p < q && UsedAt(text, p, name)) <==>
                          (exists p: nat :: p < rest && UsedAt(text, p, name)) || UsedAt(text, at, name) {
      }
      rest := q;
    }
  }

  // One round of the outer loop.
  method CollectOne(text: string, at: nat, found: set<string>) returns (out: set<string>)
    requires OccursAt(text, at)
    ensures forall name :: name in out <==> name in found || (HasWlrPrefix(name) && UsedAt(text, at, name))
  {
    out := found;
    var q := at + 5;
    var e := RunEnd(text, q, |text|);
    if q < e {
      if HasWlrPrefix(text[q..e]) {
        out := out + {text[q..e]};
      }
      return;
    }
    if q < |text| && text[q] == '{' {
      var end := GroupEnd(text, q);
      out := ScanGroup(text, q + 1, end, out);
      forall name ensures UsedAt(text, at, name) <==> Listed(text, q + 1, end, name) {
        if UsedAt(text, at, name) {
          var f: nat :| GroupEnds(text, q, f) && Listed(text, q + 1, f, name);
          GroupEndUnique(text, q, end, f);
        }
      }
    }
  }

  // What the two common uses look like.

  lemma OccursBetween(before: string, after: string)
    ensures OccursAt(before + "sys::" + after, |before|)
  {
    var text := before + "sys::" + after;
    assert text[|before|..|before| + 5] == "sys::";
  }

  /** `sys::name`, followed by nothing that goes on with the name, uses that name alone. */
  lemma DirectUse(before: string, name: string, after: string, used: string)
    requires name != [] && (forall c :: c in name ==> IsIdent(c)) && (after == [] || !IsIdent(after[0]))
    ensures UsedAt(before + "sys::" + (name + after), |before|, used) <==> used == name
  {
    var text, q := before + "sys::" + (name + after), |before| + 5;
    OccursBetween(before, name + after);
    assert forall i :: 0 <= i < |name| ==> text[q + i] == name[i];
    var e := RunEnd(text, q, |text|);
    assert after != [] ==> text[q + |name|] == after[0];
    forall i | q <= i < q + |name| ensures IsIdent(text[i]) {
      assert text[i] == name[i - q] && name[i - q] in name;
    }
    assert e == q + |name|;
    assert text[q..e] == name;
  }

  // Up to `end` a brace group holds no further brace.
  ghost predicate Flat(text: string, q: nat, end: nat) {
    && q < end < |text| && text[q] == '{' && text[end] == '}'
    && forall i :: q < i < end ==> text[i] != '{' && text[i] != '}'
  }

  lemma {:induction false} FlatDepth(text: string, q: nat, end: nat, hi: nat)
    requires Flat(text, q, end) && q < hi <= end
    ensures Depth(text, q, hi) == 1
    decreases hi
  {
    if hi > q + 1 {
      FlatDepth(text, q, end, hi - 1);
    }
  }

  lemma FlatGroupEnds(text: string, q: nat, end: nat)
    requires Flat(text, q, end)
    ensures GroupEnds(text, q, end)
  {
    forall i | q < i <= end ensures Depth(text, q, i) > 0 {
      FlatDepth(text, q, end, i);
    }
    FlatDepth(text, q, end, end);
  }

  /** `sys::{group}`, without braces inside, uses the identifiers of the group. */
  lemma GroupUse(before: string, group: string, after: string, used: string)
    requires '{' !in group && '}' !in group
    ensures UsedAt(before + "sys::" + ("{" + group + "}" + after), |before|, used) <==>
            Listed(group, 0, |group|, used)
  {
    var text, q := before + "sys::" + ("{" + group + "}" + after), |before| + 5;
    var end := q + 1 + |group|;
    OccursBetween(before, "{" + group + "}" + after);
    assert text[q] == '{' && text[end] == '}' && RunEnd(text, q, |text|) == q;
    assert text[q + 1..end] == group;
    forall i | q < i < end ensures text[i] != '{' && text[i] != '}' {
      assert text[i] == group[i - q - 1] && group[i - q - 1] in group;
    }
    FlatGroupEnds(text, q, end);
    ListedThere(text, q + 1, group, used);
    if UsedAt(text, |before|, used) {
      var f: nat :| GroupEnds(text, q, f) && Listed(text, q + 1, f, used);
      GroupEndUnique(text, q, end, f);
    }
  }

  ghost predicate AllIdent(s: string) {
    forall c :: c in s ==> IsIdent(c)
  }

  lemma IdentBetween(text: string, a: nat, b: nat)
    requires a <= b <= |text|
    ensures AllIdent(text[a..b]) <==> forall i :: a <= i < b ==> IsIdent(text[i])
  {
    if AllIdent(text[a..b]) {
      forall i | a <= i < b ensures IsIdent(text[i]) {
        assert text[a..b][i - a] == text[i];
      }
    }
  }

  lemma PartOfPart(text: string, lo: nat, hi: nat, a: nat, b: nat)
    requires lo <= hi <= |text| && a <= b <= hi - lo
    ensures text[lo..hi][a..b] == text[lo + a..lo + b]
  {
    var part, whole := text[lo..hi][a..b], text[lo + a..lo + b];
    forall k | 0 <= k < b - a ensures part[k] == whole[k] {
      assert part[k] == text[lo..hi][a + k];
      assert whole[k] == text[(lo + a) + k];
    }
  }

  // The runs of a part of the text are those of the part by itself.
  lemma RunThere(text: string, lo: nat, group: string, a: nat, b: nat)
    requires lo + |group| <= |text| && text[lo..lo + |group|] == group && a < b <= |group|
    ensures text[lo + a..lo + b] == group[a..b]
    ensures MaximalRun(text, lo, lo + |group|, lo + a, lo + b) <==> MaximalRun(group, 0, |group|, a, b)
  {
    PartOfPart(text, lo, lo + |group|, a, b);
    IdentBetween(text, lo + a, lo + b);
    IdentBetween(group, a, b);
    assert a > 0 ==> text[lo..lo + |group|][a - 1] == text[lo + a - 1];
    assert b < |group| ==> text[lo..lo + |group|][b] == text[lo + b];
  }

  lemma ListedThere(text: string, lo: nat, group: string, name: string)
    requires lo + |group| <= |text| && text[lo..lo + |group|] == group
    ensures Listed(text, lo, lo + |group|, name) <==> Listed(group, 0, |group|, name)
  {
    if Listed(text, lo, lo + |group|, name) {
      var a: nat, b: nat :| MaximalRun(text, lo, lo + |group|, a, b) && name == text[a..b];
      RunThere(text, lo, group, a - lo, b - lo);
    }
    if Listed(group, 0, |group|, name) {
      var a: nat, b: nat :| MaximalRun(group, 0, |group|, a, b) && name == group[a..b];
      RunThere(text, lo, group, a, b);
    }
  }
}
