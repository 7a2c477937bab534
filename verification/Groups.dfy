/** The longest-prefix map from symbol names to burn-down areas. */
module Groups {
  import opened Wrappers

  // A prefix and its area.
  type Row = (string, string)

  // The row with the longest prefix of `symbol`; the earlier of two equally long ones.
  function BestRow(table: seq<Row>, symbol: string): Option<Row> {
    if table == [] then None
    else
      var best := BestRow(table[1..], symbol);
      if table[0].0 <= symbol && (best.None? || |table[0].0| >= |best.value.0|) then Some(table[0]) else best
  }

  function AreaOf(best: Option<Row>): string {
    if best.None? then "other" else best.value.1
  }

  function GroupName(table: seq<Row>, symbol: string): string {
    AreaOf(BestRow(table, symbol))
  }

  lemma {:induction false} BestRowIsLongest(table: seq<Row>, symbol: string)
    ensures match BestRow(table, symbol)
            case None => GroupName(table, symbol) == "other" && forall row :: row in table ==> !(row.0 <= symbol)
            case Some(best) => GroupName(table, symbol) == best.1 && best in table && best.0 <= symbol &&
                               forall row :: row in table && row.0 <= symbol ==> |row.0| <= |best.0|
  {
    if table != [] {
      BestRowIsLongest(table[1..], symbol);
      assert table == [table[0]] + table[1..];
    }
  }

  // What a forward scan that has found `best` so far will still find.
  function Improve(best: Option<Row>, rest: Option<Row>): Option<Row> {
    if best.Some? && (rest.None? || |best.value.0| >= |rest.value.0|) then best else rest
  }

  /** `group_of`: the loop that keeps a strictly longer match. */
  method GroupOf(table: seq<Row>, symbol: string) returns (group: string)
    ensures group == GroupName(table, symbol)
  {
    var best: Option<Row> := None;
    var i := 0;
    while i < |table|
      invariant 0 <= i <= |table|
      invariant Improve(best, BestRow(table[i..], symbol)) == BestRow(table, symbol)
    {
      if table[i].0 <= symbol && (best.None? || |table[i].0| > |best.value.0|) {
        best := Some(table[i]);
      }
      assert table[i..][1..] == table[i + 1..];
      i := i + 1;
    }
    group := AreaOf(best);
  }

  /** The area is that of the unique longest matching prefix, and `other` stands in exactly when there is none. */
  lemma LongestPrefixWins(table: seq<Row>, symbol: string, row: Row)
    requires Consistent(table) && row in table && row.0 <= symbol
    requires forall r :: r in table && r.0 <= symbol ==> |r.0| <= |row.0|
    ensures GroupName(table, symbol) == row.1
    ensures forall r :: r in table && r.0 <= symbol && |r.0| == |row.0| ==> r.0 == row.0
  {
    BestRowIsLongest(table, symbol);
    forall r | r in table && r.0 <= symbol && |r.0| == |row.0| ensures r.0 == row.0 {
      assert r.0 == symbol[..|row.0|];
    }
  }

  // No prefix is given two areas; in particular a table with distinct prefixes.
  ghost predicate Consistent(table: seq<Row>) {
    forall a, b :: a in table && b in table && a.0 == b.0 ==> a.1 == b.1
  }

  ghost predicate OrderIsIrrelevant(table: seq<Row>) {
    forall other, symbol :: multiset(other) == multiset(table) ==> GroupName(other, symbol) == GroupName(table, symbol)
  }

  lemma SameRows(table: seq<Row>, other: seq<Row>)
    requires multiset(other) == multiset(table)
    ensures forall row :: row in other <==> row in table
  {
    forall row ensures row in other <==> row in table {
      assert row in multiset(other) <==> row in multiset(table);
    }
  }

  lemma ConsistentTablesReorder(table: seq<Row>, other: seq<Row>, symbol: string)
    requires Consistent(table) && multiset(other) == multiset(table)
    ensures GroupName(other, symbol) == GroupName(table, symbol)
  {
    SameRows(table, other);
    BestRowIsLongest(table, symbol);
    BestRowIsLongest(other, symbol);
    if BestRow(other, symbol).Some? {
      LongestPrefixWins(table, symbol, BestRow(other, symbol).value);
    }
  }

  lemma FrontRow(table: seq<Row>, k: nat) returns (other: seq<Row>)
    requires k < |table|
    ensures multiset(other) == multiset(table) && GroupName(other, table[k].0) == table[k].1
  {
    var rest := table[..k] + table[k + 1..];
    other := [table[k]] + rest;
    assert table == table[..k] + [table[k]] + table[k + 1..];
    assert other[1..] == rest;
    BestRowIsLongest(rest, table[k].0);
  }

  /** Rows may be added in any order exactly when no prefix is given two different areas. */
  lemma OrderIrrelevantIffConsistent(table: seq<Row>)
    ensures OrderIsIrrelevant(table) <==> Consistent(table)
  {
    if Consistent(table) {
      forall other, symbol | multiset(other) == multiset(table)
        ensures GroupName(other, symbol) == GroupName(table, symbol)
      {
        ConsistentTablesReorder(table, other, symbol);
      }
    } else {
      var a, b :| a in table && b in table && a.0 == b.0 && a.1 != b.1;
      var i :| 0 <= i < |table| && table[i] == a;
      var j :| 0 <= j < |table| && table[j] == b;
      var first := FrontRow(table, i);
      var second := FrontRow(table, j);
      assert GroupName(first, a.0) != GroupName(second, a.0);
    }
  }
}
