/** Sequence facts the solver is slow to find by itself. */
module Seqs {

  lemma TakeAll<T>(s: seq<T>)
    ensures s[..|s|] == s
  {
  }

  lemma Assoc<T>(a: seq<T>, b: seq<T>, c: seq<T>)
    ensures (a + b) + c == a + (b + c)
  {
  }

  // Dropping entry j of a commutes with appending b.
  lemma DropThenAppend<T>(a: seq<T>, b: seq<T>, j: nat)
    requires j < |a|
    ensures (a + b)[..j] + (a + b)[j + 1..] == (a[..j] + a[j + 1..]) + b
  {
    assert (a + b)[..j] == a[..j];
    assert (a + b)[j + 1..] == a[j + 1..] + b;
    Assoc(a[..j], a[j + 1..], b);
  }

  lemma Bag3<T>(a: seq<T>, b: seq<T>, c: seq<T>)
    ensures multiset(a + b + c) == multiset(a) + multiset(b) + multiset(c)
  {
    assert multiset(a + b + c) == multiset(a + b) + multiset(c);
  }

  // (o + n) + l, where o + n is q + i and l + u is (n + c) + s.
  lemma Rebalance<T>(o: multiset<T>, n: multiset<T>, q: multiset<T>, i: multiset<T>,
                     c: multiset<T>, r: multiset<T>, u: multiset<T>, s: multiset<T>)
    requires o + n == q + i && r + u == (n + c) + s
    ensures (o + r) + u == q + ((i + c) + s)
  {
    assert (o + r) + u == o + (r + u) == (o + n) + (c + s);
    assert q + ((i + c) + s) == (q + i) + (c + s);
  }

  lemma Regroup<T>(total: multiset<T>, e: multiset<T>, later: multiset<T>, tail: multiset<T>,
                   q: multiset<T>, s: multiset<T>, input: multiset<T>)
    requires total == e + later + tail && later == q + s && input == e + s + tail
    ensures total == q + input
  {
  }
}
