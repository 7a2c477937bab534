/** Stable sorting, and the orders the tools sort by. */
module Sorting {

  // `<=` on strings: by code point, a proper prefix first.
  predicate StrLe(a: string, b: string) {
    a == [] || (b != [] && (a[0] < b[0] || (a[0] == b[0] && StrLe(a[1..], b[1..]))))
  }

  // At the first difference a has the smaller character.
  ghost predicate SmallerAt(a: string, b: string, k: nat) {
    k < |a| && k < |b| && a[..k] == b[..k] && a[k] < b[k]
  }

  /** The order of the dictionary. */
  lemma {:induction false} StrLeIff(a: string, b: string)
    ensures StrLe(a, b) <==> a <= b || exists k: nat :: SmallerAt(a, b, k)
    decreases |a|
  {
    if a != [] && b != [] {
      StrLeIff(a[1..], b[1..]);
      if a[0] == b[0] {
        assert a == [a[0]] + a[1..] && b == [b[0]] + b[1..];
        FirstAgrees(a, b);
      } else {
        assert SmallerAt(a, b, 0) <==> a[0] < b[0];
        assert forall k: nat :: 0 < k && SmallerAt(a, b, k) ==> a[..k][0] == b[..k][0];
      }
    }
  }

  lemma FirstAgrees(a: string, b: string)
    requires a != [] && b != [] && a[0] == b[0]
    ensures (exists k: nat :: SmallerAt(a, b, k)) <==> exists k: nat :: SmallerAt(a[1..], b[1..], k)
    ensures a <= b <==> a[1..] <= b[1..]
  {
    assert a == [a[0]] + a[1..] && b == [b[0]] + b[1..];
    if exists k: nat :: SmallerAt(a, b, k) {
      var k: nat :| SmallerAt(a, b, k);
      assert k > 0 && a[1..][..k - 1] == a[..k][1..] && b[1..][..k - 1] == b[..k][1..];
      assert SmallerAt(a[1..], b[1..], k - 1);
    }
    if exists k: nat :: SmallerAt(a[1..], b[1..], k) {
      var k: nat :| SmallerAt(a[1..], b[1..], k);
      assert a[..k + 1] == [a[0]] + a[1..][..k] && b[..k + 1] == [b[0]] + b[1..][..k];
      assert SmallerAt(a, b, k + 1);
    }
  }

  lemma {:induction false} StrLeTotal(a: string, b: string)
    ensures StrLe(a, b) || StrLe(b, a)
    decreases |a|
  {
    if a != [] && b != [] && a[0] == b[0] {
      StrLeTotal(a[1..], b[1..]);
    }
  }

  lemma {:induction false} StrLeTransitive(a: string, b: string, c: string)
    requires StrLe(a, b) && StrLe(b, c)
    ensures StrLe(a, c)
    decreases |a|
  {
    if a != [] && a[0] == b[0] == c[0] {
      StrLeTransitive(a[1..], b[1..], c[1..]);
    }
  }

  lemma {:induction false} StrLeAntisymmetric(a: string, b: string)
    requires StrLe(a, b) && StrLe(b, a)
    ensures a == b
    decreases |a|
  {
    if a != [] {
      StrLeAntisymmetric(a[1..], b[1..]);
      assert a == [a[0]] + a[1..] && b == [b[0]] + b[1..];
    }
  }

  ghost predicate TotalPreorder<T(!new)>(le: (T, T) -> bool) {
    && (forall a, b :: le(a, b) || le(b, a))
    && (forall a, b, c :: le(a, b) && le(b, c) ==> le(a, c))
  }

  ghost predicate Sorted<T>(s: seq<T>, le: (T, T) -> bool) {
    forall i, j :: 0 <= i < j < |s| ==> le(s[i], s[j])
  }

  function Insert<T>(x: T, s: seq<T>, le: (T, T) -> bool): seq<T> {
    if s == [] || le(x, s[0]) then [x] + s else [s[0]] + Insert(x, s[1..], le)
  }

  // `sort` and `sort_by`: stable.
  function Sort<T>(s: seq<T>, le: (T, T) -> bool): seq<T> {
    if s == [] then [] else Insert(s[0], Sort(s[1..], le), le)
  }

  lemma SmallestFirst<T(!new)>(s: seq<T>, x: T, le: (T, T) -> bool)
    requires TotalPreorder(le) && Sorted(s, le) && x in s
    ensures le(s[0], x)
  {
    var j :| 0 <= j < |s| && s[j] == x;
    assert j > 0 ==> le(s[0], s[j]);
  }

  lemma SortedTail<T(!new)>(s: seq<T>, le: (T, T) -> bool)
    requires s != [] && Sorted(s, le)
    ensures Sorted(s[1..], le) && multiset(s[1..]) == multiset(s) - multiset{s[0]}
  {
    assert s == [s[0]] + s[1..];
  }

  lemma {:induction false} InsertAdds<T>(x: T, s: seq<T>, le: (T, T) -> bool)
    ensures multiset(Insert(x, s, le)) == multiset(s) + multiset{x}
  {
    if s != [] && !le(x, s[0]) {
      InsertAdds(x, s[1..], le);
      assert s == [s[0]] + s[1..];
    }
  }

  lemma {:induction false} InsertIsSorted<T(!new)>(x: T, s: seq<T>, le: (T, T) -> bool)
    requires TotalPreorder(le) && Sorted(s, le)
    ensures Sorted(Insert(x, s, le), le)
  {
    if s != [] {
      if le(x, s[0]) {
        assert forall j :: 0 < j < |s| ==> le(s[0], s[j]);
      } else {
        var rest := Insert(x, s[1..], le);
        SortedTail(s, le);
        InsertIsSorted(x, s[1..], le);
        InsertAdds(x, s[1..], le);
        forall j | 0 <= j < |rest| ensures le(s[0], rest[j]) {
          assert rest[j] in multiset(rest);
          if rest[j] != x {
            assert rest[j] in s[1..];
            SmallestFirst(s, rest[j], le);
          }
        }
      }
    }
  }

  /** Sorting gives an ascending rearrangement. */
  lemma {:induction false} SortSorts<T(!new)>(s: seq<T>, le: (T, T) -> bool)
    requires TotalPreorder(le)
    ensures Sorted(Sort(s, le), le) && multiset(Sort(s, le)) == multiset(s)
  {
    if s != [] {
      SortSorts(s[1..], le);
      InsertIsSorted(s[0], Sort(s[1..], le), le);
      InsertAdds(s[0], Sort(s[1..], le), le);
      assert s == [s[0]] + s[1..];
    }
  }

  // The elements that compare equal to x, in order.
  ghost function Peers<T(!new)>(s: seq<T>, x: T, le: (T, T) -> bool): seq<T> {
    if s == [] then [] else (if le(s[0], x) && le(x, s[0]) then [s[0]] else []) + Peers(s[1..], x, le)
  }

  lemma {:induction false} InsertIsStable<T(!new)>(y: T, s: seq<T>, x: T, le: (T, T) -> bool)
    requires TotalPreorder(le) && Sorted(s, le)
    ensures Peers(Insert(y, s, le), x, le) == (if le(y, x) && le(x, y) then [y] else []) + Peers(s, x, le)
  {
    if s != [] && !le(y, s[0]) {
      SortedTail(s, le);
      InsertIsStable(y, s[1..], x, le);
      assert Insert(y, s, le)[1..] == Insert(y, s[1..], le);
      assert !(le(y, x) && le(x, y) && le(s[0], x) && le(x, s[0]));
    } else {
      assert ([y] + s)[1..] == s;
    }
  }

  /** Sorting keeps the order of what compares equal. */
  lemma {:induction false} SortIsStable<T(!new)>(s: seq<T>, x: T, le: (T, T) -> bool)
    requires TotalPreorder(le)
    ensures Peers(Sort(s, le), x, le) == Peers(s, x, le)
  {
    if s != [] {
      SortIsStable(s[1..], x, le);
      SortSorts(s[1..], le);
      InsertIsStable(s[0], Sort(s[1..], le), x, le);
    }
  }

  lemma SortLength<T(!new)>(s: seq<T>, le: (T, T) -> bool)
    requires TotalPreorder(le)
    ensures |Sort(s, le)| == |s| && forall x :: x in Sort(s, le) <==> x in s
  {
    SortSorts(s, le);
    assert |multiset(Sort(s, le))| == |multiset(s)|;
    forall x ensures x in Sort(s, le) <==> x in s {
      assert x in multiset(Sort(s, le)) <==> x in multiset(s);
    }
  }

  /** When only equal things compare both ways, there is one ascending rearrangement. */
  lemma {:induction false} SortedIsUnique<T(!new)>(s: seq<T>, t: seq<T>, le: (T, T) -> bool)
    requires TotalPreorder(le) && forall a, b :: le(a, b) && le(b, a) ==> a == b
    requires Sorted(s, le) && Sorted(t, le) && multiset(s) == multiset(t)
    ensures s == t
  {
    if s == [] {
      assert |multiset(t)| == 0;
    } else {
      assert s[0] in multiset(t);
      assert t != [] && t[0] in multiset(s);
      SmallestFirst(t, s[0], le);
      SmallestFirst(s, t[0], le);
      SortedTail(s, le);
      SortedTail(t, le);
      SortedIsUnique(s[1..], t[1..], le);
      assert s == [s[0]] + s[1..] && t == [t[0]] + t[1..];
    }
  }

  lemma StrLeIsAnOrder()
    ensures TotalPreorder(StrLe) && forall a, b :: StrLe(a, b) && StrLe(b, a) ==> a == b
  {
    forall a, b ensures StrLe(a, b) || StrLe(b, a) {
      StrLeTotal(a, b);
    }
    forall a, b, c | StrLe(a, b) && StrLe(b, c) ensures StrLe(a, c) {
      StrLeTransitive(a, b, c);
    }
    forall a, b | StrLe(a, b) && StrLe(b, a) ensures a == b {
      StrLeAntisymmetric(a, b);
    }
  }

  predicate IsLeast(x: string, s: set<string>) {
    x in s && forall y :: y in s ==> StrLe(x, y)
  }

  lemma {:induction false} LeastExists(s: set<string>)
    requires s != {}
    ensures exists x :: IsLeast(x, s)
  {
    StrLeIsAnOrder();
    var z :| z in s;
    if s == {z} {
      assert IsLeast(z, s);
    } else {
      LeastExists(s - {z});
      var m :| IsLeast(m, s - {z});
      assert IsLeast(if StrLe(m, z) then m else z, s);
    }
  }

  // The order a `BTreeSet` of strings is walked in.
  function Ascending(s: set<string>): seq<string> {
    if s == {} then []
    else
      LeastExists(s);
      StrLeIsAnOrder();
      var x :| IsLeast(x, s);
      [x] + Ascending(s - {x})
  }

  ghost predicate Distinct<T>(s: seq<T>) {
    forall i, j :: 0 <= i < j < |s| ==> s[i] != s[j]
  }

  lemma {:induction false} AscendingIsDistinct(s: set<string>)
    ensures Distinct(Ascending(s))
  {
    if s != {} {
      LeastExists(s);
      StrLeIsAnOrder();
      var x := Ascending(s)[0];
      AscendingWalksTheSet(s - {x});
      AscendingIsDistinct(s - {x});
    }
  }

  lemma {:induction false} AscendingWalksTheSet(s: set<string>)
    ensures |Ascending(s)| == |s| && Sorted(Ascending(s), StrLe)
    ensures forall x :: x in Ascending(s) <==> x in s
  {
    if s != {} {
      LeastExists(s);
      StrLeIsAnOrder();
      var x := Ascending(s)[0];
      AscendingWalksTheSet(s - {x});
    }
  }
}
