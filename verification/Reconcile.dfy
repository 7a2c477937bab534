/** The reconciliation of the bound symbols with the two ledgers. */
module Reconcile {
  import opened Seqs
  import opened Sorting
  import opened Groups
  import opened LedgerEntries

  datatype Kind = Fn | Enum | Struct | Union | TypeAlias

  datatype Symbol = Symbol(name: string, kind: Kind)

  datatype HeaderRow = HeaderRow(area: string, wrapped: nat, total: nat)

  datatype Report = Report(
    unlisted: seq<Symbol>, staleWrapped: seq<string>, staleNotYet: seq<string>, duplicated: seq<string>,
    unknownSymbol: seq<string>, notYet: seq<WaivedEntry>, perHeader: seq<HeaderRow>)
  {
    // `is_clean`.
    predicate IsClean() {
      unlisted == [] && staleWrapped == [] && staleNotYet == [] && duplicated == [] && unknownSymbol == []
    }

    // `is_complete`.
    predicate IsComplete() {
      IsClean() && notYet == []
    }
  }

  function KindRank(k: Kind): nat {
    match k case Fn => 0 case Enum => 1 case Struct => 2 case Union => 3 case TypeAlias => 4
  }

  // The derived order of symbols: by name, then by kind.
  predicate SymbolLe(a: Symbol, b: Symbol) {
    StrLe(a.name, b.name) && (a.name == b.name ==> KindRank(a.kind) <= KindRank(b.kind))
  }

  predicate EntryLe(a: WaivedEntry, b: WaivedEntry) {
    StrLe(a.symbol, b.symbol)
  }

  function Names(symbols: seq<Symbol>): set<string> {
    set s | s in symbols :: s.name
  }

  function WrappedNames(wrapped: seq<WrappedEntry>): set<string> {
    set w | w in wrapped :: w.symbol
  }

  function WaivedNames(waived: seq<WaivedEntry>): set<string> {
    set w | w in waived :: w.symbol
  }

  function Unlisted(symbols: seq<Symbol>, listed: set<string>): seq<Symbol> {
    if symbols == [] then []
    else (if symbols[0].name in listed then [] else [symbols[0]]) + Unlisted(symbols[1..], listed)
  }

  function StaleWrapped(wrapped: seq<WrappedEntry>, uses: set<string>): seq<string> {
    if wrapped == [] then []
    else (if wrapped[0].symbol in uses then [] else [wrapped[0].symbol]) + StaleWrapped(wrapped[1..], uses)
  }

  // The backlog.
  function NotYet(waived: seq<WaivedEntry>): seq<WaivedEntry> {
    if waived == [] then []
    else (if waived[0].reason.NotYet? then [waived[0]] else []) + NotYet(waived[1..])
  }

  function StaleNotYet(waived: seq<WaivedEntry>, uses: set<string>): seq<string> {
    if waived == [] then []
    else
      (if waived[0].reason.NotYet? && waived[0].symbol in uses then [waived[0].symbol] else []) +
      StaleNotYet(waived[1..], uses)
  }

  // Everything in the report but the table of areas.
  function Findings(symbols: seq<Symbol>, wrapped: seq<WrappedEntry>, waived: seq<WaivedEntry>,
                    uses: set<string>): Report {
    var inWrapped, inWaived := WrappedNames(wrapped), WaivedNames(waived);
    Report(
      Sort(Unlisted(symbols, inWrapped + inWaived), SymbolLe),
      Sort(StaleWrapped(wrapped, uses), StrLe),
      Sort(StaleNotYet(waived, uses), StrLe),
      Ascending(inWrapped * inWaived),
      Ascending((inWrapped + inWaived) - Names(symbols)),
      Sort(NotYet(waived), EntryLe),
      [])
  }

  function CountTotal(table: seq<Row>, symbols: seq<Symbol>, area: string): nat {
    if symbols == [] then 0
    else CountTotal(table, symbols[..|symbols| - 1], area) +
         if GroupName(table, symbols[|symbols| - 1].name) == area then 1 else 0
  }

  function CountWrapped(table: seq<Row>, symbols: seq<Symbol>, inWrapped: set<string>, area: string): nat {
    if symbols == [] then 0
    else CountWrapped(table, symbols[..|symbols| - 1], inWrapped, area) +
         var name := symbols[|symbols| - 1].name;
         if GroupName(table, name) == area && name in inWrapped then 1 else 0
  }

  // The areas that occur.
  function Areas(table: seq<Row>, symbols: seq<Symbol>): set<string> {
    if symbols == [] then {}
    else Areas(table, symbols[..|symbols| - 1]) + {GroupName(table, symbols[|symbols| - 1].name)}
  }

  function RowOf(table: seq<Row>, symbols: seq<Symbol>, inWrapped: set<string>, area: string): HeaderRow {
    HeaderRow(area, CountWrapped(table, symbols, inWrapped, area), CountTotal(table, symbols, area))
  }

  // One row an area, with its two counts.
  function AreaRows(table: seq<Row>, symbols: seq<Symbol>, inWrapped: set<string>, areas: seq<string>): seq<HeaderRow> {
    if areas == [] then []
    else [RowOf(table, symbols, inWrapped, areas[0])] + AreaRows(table, symbols, inWrapped, areas[1..])
  }

  function PerHeader(table: seq<Row>, symbols: seq<Symbol>, inWrapped: set<string>): seq<HeaderRow> {
    AreaRows(table, symbols, inWrapped, Ascending(Areas(table, symbols)))
  }

  /** `reconcile`: the counting loop over a map of areas, and the report it yields. */
  method Run(table: seq<Row>, symbols: seq<Symbol>, wrapped: seq<WrappedEntry>, waived: seq<WaivedEntry>,
             uses: set<string>)
    returns (report: Report)
    ensures report ==
            Findings(symbols, wrapped, waived, uses).(perHeader := PerHeader(table, symbols, WrappedNames(wrapped)))
  {
    var inWrapped := WrappedNames(wrapped);
    var groups := CountAreas(table, symbols, inWrapped);
    var perHeader := InOrder(table, symbols, inWrapped, groups);
    report := Findings(symbols, wrapped, waived, uses).(perHeader := perHeader);
  }

  ghost predicate Counted(table: seq<Row>, symbols: seq<Symbol>, inWrapped: set<string>,
                          groups: map<string, (nat, nat)>)
  {
    && groups.Keys == Areas(table, symbols)
    && forall g :: g in groups ==>
       groups[g] == (CountWrapped(table, symbols, inWrapped, g), CountTotal(table, symbols, g))
  }

  lemma {:induction false} NoneCounted(table: seq<Row>, symbols: seq<Symbol>, inWrapped: set<string>, area: string)
    requires area !in Areas(table, symbols)
    ensures CountTotal(table, symbols, area) == 0 && CountWrapped(table, symbols, inWrapped, area) == 0
  {
    if symbols != [] {
      NoneCounted(table, symbols[..|symbols| - 1], inWrapped, area);
    }
  }

  // One turn of the counting loop.
  function Bump(groups: map<string, (nat, nat)>, area: string, isWrapped: bool): map<string, (nat, nat)> {
    var slot := if area in groups then groups[area] else (0, 0);
    groups[area := (if isWrapped then slot.0 + 1 else slot.0, slot.1 + 1)]
  }

  lemma LastCounts(table: seq<Row>, symbols: seq<Symbol>, inWrapped: set<string>, s: Symbol, area: string)
    ensures var here := GroupName(table, s.name) == area;
            && CountTotal(table, symbols + [s], area) == CountTotal(table, symbols, area) + (if here then 1 else 0)
            && CountWrapped(table, symbols + [s], inWrapped, area) ==
               CountWrapped(table, symbols, inWrapped, area) + (if here && s.name in inWrapped then 1 else 0)
            && Areas(table, symbols + [s]) == Areas(table, symbols) + {GroupName(table, s.name)}
  {
    var longer := symbols + [s];
    assert longer[..|longer| - 1] == symbols && longer[|longer| - 1] == s;
  }

  lemma BumpCounts(table: seq<Row>, symbols: seq<Symbol>, inWrapped: set<string>, groups: map<string, (nat, nat)>,
                   s: Symbol)
    requires Counted(table, symbols, inWrapped, groups)
    ensures Counted(table, symbols + [s], inWrapped, Bump(groups, GroupName(table, s.name), s.name in inWrapped))
  {
    var area := GroupName(table, s.name);
    var next := Bump(groups, area, s.name in inWrapped);
    if area !in groups {
      NoneCounted(table, symbols, inWrapped, area);
    }
    LastCounts(table, symbols, inWrapped, s, area);
    forall g | g in next
      ensures next[g] == (CountWrapped(table, symbols + [s], inWrapped, g), CountTotal(table, symbols + [s], g))
    {
      LastCounts(table, symbols, inWrapped, s, g);
    }
  }

  method CountAreas(table: seq<Row>, symbols: seq<Symbol>, inWrapped: set<string>)
    returns (groups: map<string, (nat, nat)>)
    ensures Counted(table, symbols, inWrapped, groups)
  {
    groups := map[];
    for i := 0 to |symbols|
      invariant Counted(table, symbols[..i], inWrapped, groups)
    {
      BumpCounts(table, symbols[..i], inWrapped, groups, symbols[i]);
      assert symbols[..i] + [symbols[i]] == symbols[..i + 1];
      var area := GroupOf(table, symbols[i].name);
      groups := Bump(groups, area, symbols[i].name in inWrapped);
    }
    TakeAll(symbols);
  }

  // `groups.into_iter()`: in the order of the keys.
  method InOrder(table: seq<Row>, symbols: seq<Symbol>, inWrapped: set<string>, groups: map<string, (nat, nat)>)
    returns (rows: seq<HeaderRow>)
    requires Counted(table, symbols, inWrapped, groups)
    ensures rows == PerHeader(table, symbols, inWrapped)
  {
    var areas := Ascending(groups.Keys);
    AscendingWalksTheSet(groups.Keys);
    rows := EmitRows(table, symbols, inWrapped, groups, areas);
  }

  method EmitRows(table: seq<Row>, symbols: seq<Symbol>, inWrapped: set<string>, groups: map<string, (nat, nat)>,
                  areas: seq<string>)
    returns (rows: seq<HeaderRow>)
    requires Counted(table, symbols, inWrapped, groups) && forall area :: area in areas ==> area in groups
    ensures rows == AreaRows(table, symbols, inWrapped, areas)
  {
    rows := [];
    for i := 0 to |areas|
      invariant rows + AreaRows(table, symbols, inWrapped, areas[i..]) == AreaRows(table, symbols, inWrapped, areas)
    {
      assert areas[i] in groups;
      var row := HeaderRow(areas[i], groups[areas[i]].0, groups[areas[i]].1);
      NextArea(table, symbols, inWrapped, areas, i, rows);
      rows := rows + [row];
    }
  }

  lemma NextArea(table: seq<Row>, symbols: seq<Symbol>, inWrapped: set<string>, areas: seq<string>, i: nat,
                 rows: seq<HeaderRow>)
    requires i < |areas|
    ensures rows + AreaRows(table, symbols, inWrapped, areas[i..]) ==
            (rows + [RowOf(table, symbols, inWrapped, areas[i])]) + AreaRows(table, symbols, inWrapped, areas[i + 1..])
  {
    var row := RowOf(table, symbols, inWrapped, areas[i]);
    assert areas[i..][1..] == areas[i + 1..];
    Assoc(rows, [row], AreaRows(table, symbols, inWrapped, areas[i + 1..]));
  }

  // How many rows of a ledger name a symbol.
  function WrappedRowsOf(wrapped: seq<WrappedEntry>, name: string): nat {
    if wrapped == [] then 0 else (if wrapped[0].symbol == name then 1 else 0) + WrappedRowsOf(wrapped[1..], name)
  }

  function NotYetRowsOf(waived: seq<WaivedEntry>, name: string): nat {
    if waived == [] then 0
    else (if waived[0].reason.NotYet? && waived[0].symbol == name then 1 else 0) + NotYetRowsOf(waived[1..], name)
  }

  lemma {:induction false} UnlistedCounts(symbols: seq<Symbol>, listed: set<string>, s: Symbol)
    ensures multiset(Unlisted(symbols, listed))[s] == if s.name in listed then 0 else multiset(symbols)[s]
  {
    if symbols != [] {
      UnlistedCounts(symbols[1..], listed, s);
      assert symbols == [symbols[0]] + symbols[1..];
    }
  }

  lemma {:induction false} StaleWrappedCounts(wrapped: seq<WrappedEntry>, uses: set<string>, name: string)
    ensures multiset(StaleWrapped(wrapped, uses))[name] == if name in uses then 0 else WrappedRowsOf(wrapped, name)
  {
    if wrapped != [] {
      StaleWrappedCounts(wrapped[1..], uses, name);
    }
  }

  lemma {:induction false} StaleNotYetCounts(waived: seq<WaivedEntry>, uses: set<string>, name: string)
    ensures multiset(StaleNotYet(waived, uses))[name] == if name in uses then NotYetRowsOf(waived, name) else 0
  {
    if waived != [] {
      StaleNotYetCounts(waived[1..], uses, name);
    }
  }

  lemma {:induction false} NotYetCounts(waived: seq<WaivedEntry>, v: WaivedEntry)
    ensures multiset(NotYet(waived))[v] == if v.reason.NotYet? then multiset(waived)[v] else 0
  {
    if waived != [] {
      NotYetCounts(waived[1..], v);
      assert waived == [waived[0]] + waived[1..];
    }
  }

  lemma SymbolOrders()
    ensures TotalPreorder(SymbolLe) && TotalPreorder(EntryLe)
  {
    StrLeIsAnOrder();
  }

  const KINDS := [Fn, Enum, Struct, Union, TypeAlias]

  /** Symbols are ordered by name, and those of one name by kind. */
  lemma SymbolLeIff(a: Symbol, b: Symbol)
    ensures SymbolLe(a, b) <==>
            if a.name != b.name then StrLe(a.name, b.name)
            else exists i, j :: 0 <= i <= j < |KINDS| && KINDS[i] == a.kind && KINDS[j] == b.kind
  {
    StrLeTotal(a.name, a.name);
    assert KINDS[KindRank(a.kind)] == a.kind && KINDS[KindRank(b.kind)] == b.kind;
    assert forall i :: 0 <= i < |KINDS| ==> KindRank(KINDS[i]) == i;
  }

  // What the three inputs name.

  ghost predicate Wraps(wrapped: seq<WrappedEntry>, name: string) {
    exists w :: w in wrapped && w.symbol == name
  }

  ghost predicate Waives(waived: seq<WaivedEntry>, name: string) {
    exists v :: v in waived && v.symbol == name
  }

  ghost predicate Binds(symbols: seq<Symbol>, name: string) {
    exists s :: s in symbols && s.name == name
  }

  // The backlog's rows of one symbol, in order.
  ghost function BacklogOf(waived: seq<WaivedEntry>, name: string): seq<WaivedEntry> {
    if waived == [] then []
    else
      (if waived[0].reason.NotYet? && waived[0].symbol == name then [waived[0]] else []) +
      BacklogOf(waived[1..], name)
  }

  lemma {:induction false} BacklogIsPeers(waived: seq<WaivedEntry>, v: WaivedEntry)
    ensures Peers(NotYet(waived), v, EntryLe) == BacklogOf(waived, v.symbol)
  {
    if waived != [] {
      BacklogIsPeers(waived[1..], v);
      StrLeIsAnOrder();
      StrLeTotal(v.symbol, v.symbol);
      assert EntryLe(waived[0], v) && EntryLe(v, waived[0]) <==> waived[0].symbol == v.symbol;
      if waived[0].reason.NotYet? {
        var rest := NotYet(waived[1..]);
        assert NotYet(waived) == [waived[0]] + rest && NotYet(waived)[1..] == rest;
      } else {
        assert NotYet(waived) == NotYet(waived[1..]);
      }
    }
  }

  lemma {:induction false} AllBacklog(rows: seq<WaivedEntry>)
    requires forall v :: v in rows ==> v.reason.NotYet?
    ensures NotYet(rows) == rows
  {
    if rows != [] {
      AllBacklog(rows[1..]);
    }
  }

  /** The backlog is listed by symbol, and the rows of one symbol in the order of the file. */
  lemma BacklogInFileOrder(symbols: seq<Symbol>, wrapped: seq<WrappedEntry>, waived: seq<WaivedEntry>,
                           uses: set<string>, v: WaivedEntry)
    ensures var notYet := Findings(symbols, wrapped, waived, uses).notYet;
            && BacklogOf(notYet, v.symbol) == BacklogOf(waived, v.symbol)
            && forall i, j :: 0 <= i < j < |notYet| ==> StrLe(notYet[i].symbol, notYet[j].symbol)
  {
    var notYet := Sort(NotYet(waived), EntryLe);
    SymbolOrders();
    SortSorts(NotYet(waived), EntryLe);
    SortLength(NotYet(waived), EntryLe);
    SortIsStable(NotYet(waived), v, EntryLe);
    BacklogIsPeers(waived, v);
    forall x | x in notYet ensures x.reason.NotYet? {
      NotYetCounts(waived, x);
      assert x in multiset(NotYet(waived));
    }
    AllBacklog(notYet);
    BacklogIsPeers(notYet, v);
  }

  /** What each list of the report holds, how often, and in what order: a repeated row is listed as often as it is
      there, while the two lists drawn from sets hold each name once. */
  lemma FindingsAreExact(symbols: seq<Symbol>, wrapped: seq<WrappedEntry>, waived: seq<WaivedEntry>, uses: set<string>,
                         name: string, s: Symbol, v: WaivedEntry)
    ensures var r := Findings(symbols, wrapped, waived, uses);
            && multiset(r.unlisted)[s] ==
               (if Wraps(wrapped, s.name) || Waives(waived, s.name) then 0 else multiset(symbols)[s])
            && multiset(r.staleWrapped)[name] == (if name in uses then 0 else WrappedRowsOf(wrapped, name))
            && multiset(r.staleNotYet)[name] == (if name in uses then NotYetRowsOf(waived, name) else 0)
            && multiset(r.notYet)[v] == (if v.reason.NotYet? then multiset(waived)[v] else 0)
            && (name in r.duplicated <==> Wraps(wrapped, name) && Waives(waived, name)) && Distinct(r.duplicated)
            && (name in r.unknownSymbol <==> (Wraps(wrapped, name) || Waives(waived, name)) && !Binds(symbols, name))
            && Distinct(r.unknownSymbol)
            && Sorted(r.unlisted, SymbolLe) && Sorted(r.notYet, EntryLe) && Sorted(r.staleWrapped, StrLe)
            && Sorted(r.staleNotYet, StrLe) && Sorted(r.duplicated, StrLe) && Sorted(r.unknownSymbol, StrLe)
  {
    ListsCount(symbols, wrapped, waived, uses, name, s, v);
    SetsHold(symbols, wrapped, waived, uses, name);
    StrLeIsAnOrder();
    SymbolOrders();
    SortSorts(Unlisted(symbols, WrappedNames(wrapped) + WaivedNames(waived)), SymbolLe);
    SortSorts(StaleWrapped(wrapped, uses), StrLe);
    SortSorts(StaleNotYet(waived, uses), StrLe);
    SortSorts(NotYet(waived), EntryLe);
  }

  lemma ListsCount(symbols: seq<Symbol>, wrapped: seq<WrappedEntry>, waived: seq<WaivedEntry>, uses: set<string>,
                   name: string, s: Symbol, v: WaivedEntry)
    ensures var r := Findings(symbols, wrapped, waived, uses);
            && multiset(r.unlisted)[s] ==
               (if Wraps(wrapped, s.name) || Waives(waived, s.name) then 0 else multiset(symbols)[s])
            && multiset(r.staleWrapped)[name] == (if name in uses then 0 else WrappedRowsOf(wrapped, name))
            && multiset(r.staleNotYet)[name] == (if name in uses then NotYetRowsOf(waived, name) else 0)
            && multiset(r.notYet)[v] == (if v.reason.NotYet? then multiset(waived)[v] else 0)
  {
    var listed := WrappedNames(wrapped) + WaivedNames(waived);
    StrLeIsAnOrder();
    SymbolOrders();
    UnlistedCounts(symbols, listed, s);
    StaleWrappedCounts(wrapped, uses, name);
    StaleNotYetCounts(waived, uses, name);
    NotYetCounts(waived, v);
    SortSorts(Unlisted(symbols, listed), SymbolLe);
    SortSorts(StaleWrapped(wrapped, uses), StrLe);
    SortSorts(StaleNotYet(waived, uses), StrLe);
    SortSorts(NotYet(waived), EntryLe);
  }

  lemma SetsHold(symbols: seq<Symbol>, wrapped: seq<WrappedEntry>, waived: seq<WaivedEntry>, uses: set<string>,
                 name: string)
    ensures var r := Findings(symbols, wrapped, waived, uses);
            && (name in r.duplicated <==> Wraps(wrapped, name) && Waives(waived, name)) && Distinct(r.duplicated)
            && (name in r.unknownSymbol <==> (Wraps(wrapped, name) || Waives(waived, name)) && !Binds(symbols, name))
            && Distinct(r.unknownSymbol) && Sorted(r.duplicated, StrLe) && Sorted(r.unknownSymbol, StrLe)
  {
    var inWrapped, inWaived := WrappedNames(wrapped), WaivedNames(waived);
    AscendingWalksTheSet(inWrapped * inWaived);
    AscendingIsDistinct(inWrapped * inWaived);
    AscendingWalksTheSet((inWrapped + inWaived) - Names(symbols));
    AscendingIsDistinct((inWrapped + inWaived) - Names(symbols));
  }

  /** The ledgers are clean exactly when they split the bound names in two, every wrapped name is used and no
      name of the backlog is. */
  lemma CleanIffPartition(symbols: seq<Symbol>, wrapped: seq<WrappedEntry>, waived: seq<WaivedEntry>, uses: set<string>)
    ensures Findings(symbols, wrapped, waived, uses).IsClean() <==>
            && Names(symbols) == WrappedNames(wrapped) + WaivedNames(waived)
            && WrappedNames(wrapped) !! WaivedNames(waived)
            && (forall w :: w in wrapped ==> w.symbol in uses)
            && (forall v :: v in waived && v.reason.NotYet? ==> v.symbol !in uses)
  {
    StrLeIsAnOrder();
    SymbolOrders();
    var inWrapped, inWaived := WrappedNames(wrapped), WaivedNames(waived);
    AscendingWalksTheSet(inWrapped * inWaived);
    AscendingWalksTheSet((inWrapped + inWaived) - Names(symbols));
    NothingUnlisted(symbols, inWrapped + inWaived);
    NothingStale(wrapped, uses);
    NothingToPromote(waived, uses);
  }

  /** Coverage is complete exactly when, on clean ledgers, no waived name is left for later. */
  lemma CompleteIffNoBacklog(symbols: seq<Symbol>, wrapped: seq<WrappedEntry>, waived: seq<WaivedEntry>,
                             uses: set<string>)
    ensures Findings(symbols, wrapped, waived, uses).IsComplete() <==>
            && Names(symbols) == WrappedNames(wrapped) + WaivedNames(waived)
            && WrappedNames(wrapped) !! WaivedNames(waived)
            && (forall w :: w in wrapped ==> w.symbol in uses)
            && (forall v :: v in waived ==> !v.reason.NotYet?)
  {
    CleanIffPartition(symbols, wrapped, waived, uses);
    NothingNotYet(waived);
  }

  lemma NothingNotYet(waived: seq<WaivedEntry>)
    ensures NotYet(waived) == [] <==> forall v :: v in waived ==> !v.reason.NotYet?
  {
  }

  lemma {:induction false} NothingUnlisted(symbols: seq<Symbol>, listed: set<string>)
    ensures Unlisted(symbols, listed) == [] <==> Names(symbols) <= listed
  {
    if symbols != [] {
      NothingUnlisted(symbols[1..], listed);
      assert Names(symbols) == {symbols[0].name} + Names(symbols[1..]);
    }
  }

  lemma NothingStale(wrapped: seq<WrappedEntry>, uses: set<string>)
    ensures StaleWrapped(wrapped, uses) == [] <==> forall w :: w in wrapped ==> w.symbol in uses
  {
  }

  lemma NothingToPromote(waived: seq<WaivedEntry>, uses: set<string>)
    ensures StaleNotYet(waived, uses) == [] <==> forall v :: v in waived && v.reason.NotYet? ==> v.symbol !in uses
  {
  }

  function SumTotal(rows: seq<HeaderRow>): nat {
    if rows == [] then 0 else rows[0].total + SumTotal(rows[1..])
  }

  function SumWrapped(rows: seq<HeaderRow>): nat {
    if rows == [] then 0 else rows[0].wrapped + SumWrapped(rows[1..])
  }

  // The symbols whose name the wrapped ledger lists.
  function WrappedSymbols(symbols: seq<Symbol>, inWrapped: set<string>): nat {
    if symbols == [] then 0
    else WrappedSymbols(symbols[..|symbols| - 1], inWrapped) + if symbols[|symbols| - 1].name in inWrapped then 1 else 0
  }

  ghost predicate DistinctNames(symbols: seq<Symbol>) {
    forall i, j :: 0 <= i < j < |symbols| ==> symbols[i].name != symbols[j].name
  }

  lemma {:induction false} NoSymbolsNoCounts(table: seq<Row>, inWrapped: set<string>, areas: seq<string>)
    ensures SumTotal(AreaRows(table, [], inWrapped, areas)) == 0 &&
            SumWrapped(AreaRows(table, [], inWrapped, areas)) == 0
  {
    if areas != [] {
      NoSymbolsNoCounts(table, inWrapped, areas[1..]);
    }
  }

  // One more symbol counts in one row.
  lemma {:induction false} OneMore(table: seq<Row>, symbols: seq<Symbol>, inWrapped: set<string>, areas: seq<string>)
    requires symbols != [] && Distinct(areas)
    ensures var init, last := symbols[..|symbols| - 1], symbols[|symbols| - 1];
            var longer, shorter := AreaRows(table, symbols, inWrapped, areas), AreaRows(table, init, inWrapped, areas);
            var listed := GroupName(table, last.name) in areas;
            && SumTotal(longer) == SumTotal(shorter) + (if listed then 1 else 0)
            && SumWrapped(longer) == SumWrapped(shorter) + (if listed && last.name in inWrapped then 1 else 0)
  {
    if areas != [] {
      OneMore(table, symbols, inWrapped, areas[1..]);
      assert areas == [areas[0]] + areas[1..];
      assert areas[0] !in areas[1..];
    }
  }

  lemma {:induction false} RowsAddUp(table: seq<Row>, symbols: seq<Symbol>, inWrapped: set<string>, areas: seq<string>)
    requires Distinct(areas) && forall area :: area in Areas(table, symbols) ==> area in areas
    ensures SumTotal(AreaRows(table, symbols, inWrapped, areas)) == |symbols|
    ensures SumWrapped(AreaRows(table, symbols, inWrapped, areas)) == WrappedSymbols(symbols, inWrapped)
  {
    if symbols == [] {
      NoSymbolsNoCounts(table, inWrapped, areas);
    } else {
      RowsAddUp(table, symbols[..|symbols| - 1], inWrapped, areas);
      OneMore(table, symbols, inWrapped, areas);
    }
  }

  lemma NamesGrow(symbols: seq<Symbol>)
    requires symbols != []
    ensures Names(symbols) == Names(symbols[..|symbols| - 1]) + {symbols[|symbols| - 1].name}
  {
    assert symbols == symbols[..|symbols| - 1] + [symbols[|symbols| - 1]];
  }

  lemma OneMoreCommon(a: set<string>, names: set<string>, name: string)
    requires name !in names
    ensures |a * (names + {name})| == |a * names| + if name in a then 1 else 0
  {
    if name in a {
      assert a * (names + {name}) == a * names + {name};
    } else {
      assert a * (names + {name}) == a * names;
    }
  }

  lemma AllCommon(a: set<string>, names: set<string>)
    ensures |a * names| == |a| <==> a <= names
  {
    assert a == a * names + (a - names);
    assert |a| == |a * names| + |a - names|;
    assert a - names == {} <==> a <= names;
  }

  lemma {:induction false} DistinctWrapped(symbols: seq<Symbol>, inWrapped: set<string>)
    requires DistinctNames(symbols)
    ensures WrappedSymbols(symbols, inWrapped) == |inWrapped * Names(symbols)|
  {
    if symbols != [] {
      var init, last := symbols[..|symbols| - 1], symbols[|symbols| - 1];
      DistinctWrapped(init, inWrapped);
      NamesGrow(symbols);
      OneMoreCommon(inWrapped, Names(init), last.name);
    }
  }

  lemma {:induction false} AreasIff(table: seq<Row>, symbols: seq<Symbol>, area: string)
    ensures area in Areas(table, symbols) <==> exists s :: s in symbols && GroupName(table, s.name) == area
  {
    if symbols != [] {
      var init, last := symbols[..|symbols| - 1], symbols[|symbols| - 1];
      AreasIff(table, init, area);
      assert symbols == init + [last];
    }
  }

  lemma {:induction false} AreaRowAt(table: seq<Row>, symbols: seq<Symbol>, inWrapped: set<string>, areas: seq<string>,
                                     k: nat)
    requires k < |areas|
    ensures |AreaRows(table, symbols, inWrapped, areas)| == |areas|
    ensures AreaRows(table, symbols, inWrapped, areas)[k].area == areas[k]
  {
    if |areas| > 1 {
      AreaRowAt(table, symbols, inWrapped, areas[1..], if k > 0 then k - 1 else 0);
    }
  }

  /** There is a row for every area of a bound symbol and no other, in the order of the areas. */
  lemma AreasAscend(table: seq<Row>, symbols: seq<Symbol>, inWrapped: set<string>, area: string)
    ensures var rows := PerHeader(table, symbols, inWrapped);
            && (forall i, j :: 0 <= i < j < |rows| ==>
                  rows[i].area != rows[j].area && StrLe(rows[i].area, rows[j].area))
            && ((exists i :: 0 <= i < |rows| && rows[i].area == area) <==>
                (exists s :: s in symbols && GroupName(table, s.name) == area))
  {
    var areas, rows := Ascending(Areas(table, symbols)), PerHeader(table, symbols, inWrapped);
    AscendingWalksTheSet(Areas(table, symbols));
    AscendingIsDistinct(Areas(table, symbols));
    AreasIff(table, symbols, area);
    assert areas == [] ==> rows == [];
    forall k | 0 <= k < |areas| ensures |rows| == |areas| && rows[k].area == areas[k] {
      AreaRowAt(table, symbols, inWrapped, areas, k);
    }
    if area in areas {
      var k :| 0 <= k < |areas| && areas[k] == area;
      assert rows[k].area == area;
    }
  }

  /** The areas' totals add up to the symbols. When no name is bound twice, the areas' wrapped counts add up to the
      number of wrapped names exactly when every wrapped name is bound. */
  lemma AreasAddUp(table: seq<Row>, symbols: seq<Symbol>, inWrapped: set<string>)
    ensures SumTotal(PerHeader(table, symbols, inWrapped)) == |symbols|
    ensures DistinctNames(symbols) ==>
              (SumWrapped(PerHeader(table, symbols, inWrapped)) == |inWrapped| <==> inWrapped <= Names(symbols))
  {
    AscendingWalksTheSet(Areas(table, symbols));
    AscendingIsDistinct(Areas(table, symbols));
    RowsAddUp(table, symbols, inWrapped, Ascending(Areas(table, symbols)));
    if DistinctNames(symbols) {
      DistinctWrapped(symbols, inWrapped);
      AllCommon(inWrapped, Names(symbols));
    }
  }

  /** On clean ledgers and distinct names, the wrapped counts add up to the distinct wrapped names. */
  lemma CleanAreasAddUp(table: seq<Row>, symbols: seq<Symbol>, wrapped: seq<WrappedEntry>, waived: seq<WaivedEntry>,
                        uses: set<string>)
    requires DistinctNames(symbols) && Findings(symbols, wrapped, waived, uses).IsClean()
    ensures SumWrapped(PerHeader(table, symbols, WrappedNames(wrapped))) == |WrappedNames(wrapped)|
  {
    CleanIffPartition(symbols, wrapped, waived, uses);
    AreasAddUp(table, symbols, WrappedNames(wrapped));
  }
}
