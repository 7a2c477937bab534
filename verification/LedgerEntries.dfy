/** The two ledgers: from the sections of a file to typed entries, and back. */
module LedgerEntries {
  import opened Wrappers
  import opened Seqs
  import opened Text
  import opened Ledger

  datatype WrappedEntry = WrappedEntry(symbol: string, moduleName: string, item: string)

  datatype WaiveReason = InterfaceImplOnly | Deprecated | Internal | SupersededBy | ForeignLibrary | NotYet

  datatype WaivedEntry = WaivedEntry(symbol: string, reason: WaiveReason, note: string, milestone: Option<string>)

  function ReasonAsStr(r: WaiveReason): string {
    match r
    case InterfaceImplOnly => "interface-impl-only"
    case Deprecated => "deprecated"
    case Internal => "internal"
    case SupersededBy => "superseded-by"
    case ForeignLibrary => "foreign-library"
    case NotYet => "not-yet"
  }

  function ParseReason(s: string): Option<WaiveReason> {
    if s == "interface-impl-only" then Some(InterfaceImplOnly)
    else if s == "deprecated" then Some(Deprecated)
    else if s == "internal" then Some(Internal)
    else if s == "superseded-by" then Some(SupersededBy)
    else if s == "foreign-library" then Some(ForeignLibrary)
    else if s == "not-yet" then Some(NotYet)
    else None
  }

  // The spellings are exactly the strings the reader accepts, each for its own reason.
  lemma ReasonsRoundTrip(r: WaiveReason, s: string)
    ensures ParseReason(s) == Some(r) <==> s == ReasonAsStr(r)
  {
    assert |ReasonAsStr(InterfaceImplOnly)| == 19 && |ReasonAsStr(Deprecated)| == 10 && |ReasonAsStr(Internal)| == 8;
    assert |ReasonAsStr(SupersededBy)| == 13 && |ReasonAsStr(ForeignLibrary)| == 15 && |ReasonAsStr(NotYet)| == 7;
  }

  // `field`: the first row with that key.
  function Lookup(fields: seq<(string, string)>, key: string): Option<string> {
    if fields == [] then None
    else if fields[0].0 == key then Some(fields[0].1)
    else Lookup(fields[1..], key)
  }

  // The first key of an entry that is not allowed.
  function FirstUnknown(fields: seq<(string, string)>, allowed: seq<string>): Option<string> {
    if fields == [] then None
    else if fields[0].0 !in allowed then Some(fields[0].0)
    else FirstUnknown(fields[1..], allowed)
  }

  const WRAPPED_KEYS := ["symbol", "module", "item"]
  const WAIVED_KEYS := ["symbol", "reason", "note", "milestone"]

  function Require(entry: RawEntry, key: string): Result<string, LedgerError> {
    match Lookup(entry.fields, key)
    case Some(v) => Ok(v)
    case None => Err(LedgerError(entry.line, Missing(key)))
  }

  function ToWrapped(entry: RawEntry): Result<WrappedEntry, LedgerError> {
    match FirstUnknown(entry.fields, WRAPPED_KEYS)
    case Some(key) => Err(LedgerError(entry.line, UnknownKey(key)))
    case None =>
      match (Require(entry, "symbol"), Require(entry, "module"), Require(entry, "item"))
      case (Ok(symbol), Ok(moduleName), Ok(item)) => Ok(WrappedEntry(symbol, moduleName, item))
      case (Err(e), _, _) => Err(e)
      case (_, Err(e), _) => Err(e)
      case (_, _, Err(e)) => Err(e)
  }

  function ToWaived(entry: RawEntry): Result<WaivedEntry, LedgerError> {
    match FirstUnknown(entry.fields, WAIVED_KEYS)
    case Some(key) => Err(LedgerError(entry.line, UnknownKey(key)))
    case None =>
      match Require(entry, "reason")
      case Err(e) => Err(e)
      case Ok(text) =>
        match ParseReason(text)
        case None => Err(LedgerError(entry.line, UnknownReason(text)))
        case Some(reason) =>
          match (Require(entry, "symbol"), Require(entry, "note"))
          case (Ok(symbol), Ok(note)) => Ok(WaivedEntry(symbol, reason, note, Lookup(entry.fields, "milestone")))
          case (Err(e), _) => Err(e)
          case (_, Err(e)) => Err(e)
  }

  // Converting entries in order, stopping at the first that fails.
  function WrappedAll(entries: seq<RawEntry>): Result<seq<WrappedEntry>, LedgerError> {
    if entries == [] then Ok([])
    else
      match WrappedAll(entries[..|entries| - 1])
      case Err(e) => Err(e)
      case Ok(done) =>
        match ToWrapped(entries[|entries| - 1])
        case Err(e) => Err(e)
        case Ok(x) => Ok(done + [x])
  }

  function WaivedAll(entries: seq<RawEntry>): Result<seq<WaivedEntry>, LedgerError> {
    if entries == [] then Ok([])
    else
      match WaivedAll(entries[..|entries| - 1])
      case Err(e) => Err(e)
      case Ok(done) =>
        match ToWaived(entries[|entries| - 1])
        case Err(e) => Err(e)
        case Ok(x) => Ok(done + [x])
  }

  // `parse_wrapped` and `parse_waived`.
  function WrappedOf(src: string): Result<seq<WrappedEntry>, LedgerError> {
    match TablesOf(src, "wrapped")
    case Err(e) => Err(e)
    case Ok(entries) => WrappedAll(entries)
  }

  function WaivedOf(src: string): Result<seq<WaivedEntry>, LedgerError> {
    match TablesOf(src, "waived")
    case Err(e) => Err(e)
    case Ok(entries) => WaivedAll(entries)
  }

  lemma {:induction false} WrappedErrorSticks(entries: seq<RawEntry>, n: nat)
    requires n <= |entries| && WrappedAll(entries[..n]).Err?
    ensures WrappedAll(entries) == WrappedAll(entries[..n])
  {
    if n == |entries| {
      TakeAll(entries);
    } else {
      assert entries[..|entries| - 1][..n] == entries[..n];
      WrappedErrorSticks(entries[..|entries| - 1], n);
    }
  }

  lemma {:induction false} WaivedErrorSticks(entries: seq<RawEntry>, n: nat)
    requires n <= |entries| && WaivedAll(entries[..n]).Err?
    ensures WaivedAll(entries) == WaivedAll(entries[..n])
  {
    if n == |entries| {
      TakeAll(entries);
    } else {
      assert entries[..|entries| - 1][..n] == entries[..n];
      WaivedErrorSticks(entries[..|entries| - 1], n);
    }
  }

  /** `parse_wrapped`. */
  method ParseWrapped(src: string) returns (r: Result<seq<WrappedEntry>, LedgerError>)
    ensures r == WrappedOf(src)
  {
    var tables := ParseTables(src, "wrapped");
    if tables.Err? {
      return Err(tables.error);
    }
    var entries := tables.value;
    var out: seq<WrappedEntry> := [];
    for i := 0 to |entries|
      invariant WrappedAll(entries[..i]) == Ok(out)
    {
      var x := ToWrapped(entries[i]);
      assert entries[..i + 1][..i] == entries[..i];
      if x.Err? {
        WrappedErrorSticks(entries, i + 1);
        return Err(x.error);
      }
      out := out + [x.value];
    }
    TakeAll(entries);
    r := Ok(out);
  }

  /** `parse_waived`. */
  method ParseWaived(src: string) returns (r: Result<seq<WaivedEntry>, LedgerError>)
    ensures r == WaivedOf(src)
  {
    var tables := ParseTables(src, "waived");
    if tables.Err? {
      return Err(tables.error);
    }
    var entries := tables.value;
    var out: seq<WaivedEntry> := [];
    for i := 0 to |entries|
      invariant WaivedAll(entries[..i]) == Ok(out)
    {
      var x := ToWaived(entries[i]);
      assert entries[..i + 1][..i] == entries[..i];
      if x.Err? {
        WaivedErrorSticks(entries, i + 1);
        return Err(x.error);
      }
      out := out + [x.value];
    }
    TakeAll(entries);
    r := Ok(out);
  }

  // Which sections are accepted, in closed form.

  function Keys(fields: seq<(string, string)>): set<string> {
    if fields == [] then {} else {fields[0].0} + Keys(fields[1..])
  }

  lemma {:induction false} LookupIffKey(fields: seq<(string, string)>, key: string)
    ensures Lookup(fields, key).Some? <==> key in Keys(fields)
  {
    if fields != [] {
      LookupIffKey(fields[1..], key);
    }
  }

  lemma {:induction false} UnknownIffForeign(fields: seq<(string, string)>, allowed: seq<string>)
    ensures FirstUnknown(fields, allowed) == None <==> forall key :: key in Keys(fields) ==> key in allowed
  {
    if fields != [] {
      UnknownIffForeign(fields[1..], allowed);
    }
  }

  // A section of `wrapped.toml` holds its three keys and no other.
  ghost predicate WrappedOk(fields: seq<(string, string)>) {
    Keys(fields) == {"symbol", "module", "item"}
  }

  // A section of `waived.toml` holds its three keys, perhaps a milestone, and a reason that is known.
  ghost predicate WaivedOk(fields: seq<(string, string)>) {
    && {"symbol", "reason", "note"} <= Keys(fields) <= {"symbol", "reason", "note", "milestone"}
    && exists r :: Lookup(fields, "reason") == Some(ReasonAsStr(r))
  }

  // The entry read from a section holds what the section says.
  ghost predicate HoldsWrapped(entry: RawEntry, x: WrappedEntry) {
    ("symbol", x.symbol) in entry.fields && ("module", x.moduleName) in entry.fields && ("item", x.item) in entry.fields
  }

  lemma {:induction false} LookupIsThere(fields: seq<(string, string)>, key: string)
    requires Lookup(fields, key).Some?
    ensures (key, Lookup(fields, key).value) in fields
  {
    if fields[0].0 != key {
      LookupIsThere(fields[1..], key);
    }
  }

  // The first row whose key is not allowed.
  ghost predicate FirstForeign(fields: seq<(string, string)>, allowed: set<string>, key: string) {
    key !in allowed && exists i :: 0 <= i < |fields| && fields[i].0 == key && Keys(fields[..i]) <= allowed
  }

  lemma {:induction false} UnknownIsFirst(fields: seq<(string, string)>, list: seq<string>, allowed: set<string>)
    requires FirstUnknown(fields, list).Some? && forall key :: key in list <==> key in allowed
    ensures FirstForeign(fields, allowed, FirstUnknown(fields, list).value)
  {
    var key := FirstUnknown(fields, list).value;
    if fields[0].0 in list {
      UnknownIsFirst(fields[1..], list, allowed);
      var i :| 0 <= i < |fields[1..]| && fields[1..][i].0 == key && Keys(fields[1..][..i]) <= allowed;
      assert fields[..i + 1][1..] == fields[1..][..i];
      assert fields[i + 1].0 == key && Keys(fields[..i + 1]) <= allowed;
    } else {
      assert fields[0].0 == key && Keys(fields[..0]) == {};
    }
  }

  // What is wrong with a section of `wrapped.toml`: a foreign key first, then the keys it lacks, in this order.
  ghost predicate WrappedFault(fields: seq<(string, string)>, why: Why) {
    var allowed, keys := {"symbol", "module", "item"}, Keys(fields);
    match why
    case UnknownKey(key) => FirstForeign(fields, allowed, key)
    case Missing(key) =>
      && keys <= allowed && key !in keys
      && (key == "symbol" || ("symbol" in keys && (key == "module" || ("module" in keys && key == "item"))))
    case _ => false
  }

  lemma WrappedFails(entry: RawEntry)
    requires ToWrapped(entry).Err?
    ensures WrappedFault(entry.fields, ToWrapped(entry).error.why)
  {
    UnknownIffForeign(entry.fields, WRAPPED_KEYS);
    LookupIffKey(entry.fields, "symbol");
    LookupIffKey(entry.fields, "module");
    LookupIffKey(entry.fields, "item");
    if FirstUnknown(entry.fields, WRAPPED_KEYS).Some? {
      UnknownIsFirst(entry.fields, WRAPPED_KEYS, {"symbol", "module", "item"});
    }
  }

  lemma ToWrappedIff(entry: RawEntry)
    ensures match ToWrapped(entry)
            case Ok(x) => WrappedOk(entry.fields) && HoldsWrapped(entry, x)
            case Err(e) => !WrappedOk(entry.fields) && e.line == entry.line && WrappedFault(entry.fields, e.why)
  {
    UnknownIffForeign(entry.fields, WRAPPED_KEYS);
    LookupIffKey(entry.fields, "symbol");
    LookupIffKey(entry.fields, "module");
    LookupIffKey(entry.fields, "item");
    if ToWrapped(entry).Ok? {
      LookupIsThere(entry.fields, "symbol");
      LookupIsThere(entry.fields, "module");
      LookupIsThere(entry.fields, "item");
    } else {
      WrappedFails(entry);
    }
  }

  lemma ReasonKnownIff(text: string)
    ensures ParseReason(text).Some? <==> exists r :: text == ReasonAsStr(r)
    ensures ParseReason(text).Some? ==> text == ReasonAsStr(ParseReason(text).value)
  {
    if ParseReason(text).Some? {
      ReasonsRoundTrip(ParseReason(text).value, text);
    }
    forall r | text == ReasonAsStr(r) ensures ParseReason(text).Some? {
      ReasonsRoundTrip(r, text);
    }
  }

  ghost predicate HoldsWaived(entry: RawEntry, x: WaivedEntry) {
    && ("symbol", x.symbol) in entry.fields && ("reason", ReasonAsStr(x.reason)) in entry.fields
    && ("note", x.note) in entry.fields
    && if x.milestone.Some? then ("milestone", x.milestone.value) in entry.fields
       else "milestone" !in Keys(entry.fields)
  }

  // What is wrong with a section of `waived.toml`, the reason being looked at before symbol and note.
  ghost predicate WaivedFault(fields: seq<(string, string)>, why: Why) {
    var allowed, keys := {"symbol", "reason", "note", "milestone"}, Keys(fields);
    match why
    case UnknownKey(key) => FirstForeign(fields, allowed, key)
    case UnknownReason(text) =>
      keys <= allowed && ("reason", text) in fields && forall r :: text != ReasonAsStr(r)
    case Missing(key) =>
      && keys <= allowed && key !in keys
      && (key == "reason" ||
          (HasReason(fields) && (key == "symbol" || ("symbol" in keys && key == "note"))))
    case _ => false
  }

  ghost predicate HasReason(fields: seq<(string, string)>) {
    exists r :: ("reason", ReasonAsStr(r)) in fields
  }

  lemma WaivedFails(entry: RawEntry)
    requires ToWaived(entry).Err?
    ensures WaivedFault(entry.fields, ToWaived(entry).error.why)
  {
    UnknownIffForeign(entry.fields, WAIVED_KEYS);
    LookupIffKey(entry.fields, "symbol");
    LookupIffKey(entry.fields, "reason");
    LookupIffKey(entry.fields, "note");
    if FirstUnknown(entry.fields, WAIVED_KEYS).Some? {
      UnknownIsFirst(entry.fields, WAIVED_KEYS, {"symbol", "reason", "note", "milestone"});
    } else if Lookup(entry.fields, "reason").Some? {
      LookupIsThere(entry.fields, "reason");
      ReasonKnownIff(Lookup(entry.fields, "reason").value);
    }
  }

  lemma WaivedHolds(entry: RawEntry)
    requires ToWaived(entry).Ok?
    ensures HoldsWaived(entry, ToWaived(entry).value)
  {
    LookupIffKey(entry.fields, "milestone");
    LookupIsThere(entry.fields, "symbol");
    LookupIsThere(entry.fields, "reason");
    LookupIsThere(entry.fields, "note");
    ReasonKnownIff(Lookup(entry.fields, "reason").value);
    if Lookup(entry.fields, "milestone").Some? {
      LookupIsThere(entry.fields, "milestone");
    }
  }

  lemma ToWaivedIff(entry: RawEntry)
    ensures match ToWaived(entry)
            case Ok(x) => WaivedOk(entry.fields) && HoldsWaived(entry, x)
            case Err(e) => !WaivedOk(entry.fields) && e.line == entry.line && WaivedFault(entry.fields, e.why)
  {
    if ToWaived(entry).Ok? {
      WaivedHolds(entry);
    } else {
      WaivedFails(entry);
    }
    UnknownIffForeign(entry.fields, WAIVED_KEYS);
    LookupIffKey(entry.fields, "symbol");
    LookupIffKey(entry.fields, "reason");
    LookupIffKey(entry.fields, "note");
    if Lookup(entry.fields, "reason").Some? {
      ReasonKnownIff(Lookup(entry.fields, "reason").value);
    }
  }

  ghost predicate WrappedUpTo(entries: seq<RawEntry>, n: nat)
    requires n <= |entries|
  {
    forall i :: 0 <= i < n ==> WrappedOk(entries[i].fields)
  }

  ghost predicate WaivedUpTo(entries: seq<RawEntry>, n: nat)
    requires n <= |entries|
  {
    forall i :: 0 <= i < n ==> WaivedOk(entries[i].fields)
  }

  // Results in order, up to the first error.
  function Gather<T>(rs: seq<Result<T, LedgerError>>): Result<seq<T>, LedgerError> {
    if rs == [] then Ok([])
    else
      match Gather(rs[..|rs| - 1])
      case Err(e) => Err(e)
      case Ok(done) =>
        match rs[|rs| - 1]
        case Err(e) => Err(e)
        case Ok(x) => Ok(done + [x])
  }

  lemma {:induction false} FirstBad<T>(rs: seq<Result<T, LedgerError>>) returns (bad: nat)
    ensures match Gather(rs)
            case Ok(xs) => |xs| == |rs| && forall i :: 0 <= i < |rs| ==> rs[i] == Ok(xs[i])
            case Err(e) => bad < |rs| && rs[bad] == Err(e) && forall i :: 0 <= i < bad ==> rs[i].Ok?
  {
    bad := 0;
    if rs != [] {
      var n := |rs| - 1;
      bad := FirstBad(rs[..n]);
      if Gather(rs[..n]).Ok? {
        bad := n;
      }
      assert forall i :: 0 <= i < n ==> rs[..n][i] == rs[i];
    }
  }

  function WrappedResults(entries: seq<RawEntry>): (rs: seq<Result<WrappedEntry, LedgerError>>)
    ensures |rs| == |entries|
  {
    if entries == [] then [] else WrappedResults(entries[..|entries| - 1]) + [ToWrapped(entries[|entries| - 1])]
  }

  lemma {:induction false} WrappedResultAt(entries: seq<RawEntry>, i: nat)
    requires i < |entries|
    ensures WrappedResults(entries)[i] == ToWrapped(entries[i])
  {
    if i < |entries| - 1 {
      WrappedResultAt(entries[..|entries| - 1], i);
    }
  }

  lemma {:induction false} WrappedAllGathers(entries: seq<RawEntry>)
    ensures WrappedAll(entries) == Gather(WrappedResults(entries))
  {
    if entries != [] {
      WrappedAllGathers(entries[..|entries| - 1]);
      var rs := WrappedResults(entries);
      assert rs[..|rs| - 1] == WrappedResults(entries[..|entries| - 1]);
    }
  }

  lemma WrappedAllIff(entries: seq<RawEntry>) returns (bad: nat)
    ensures match WrappedAll(entries)
            case Ok(xs) =>
              && |xs| == |entries| && WrappedUpTo(entries, |entries|)
              && forall i :: 0 <= i < |xs| ==> HoldsWrapped(entries[i], xs[i])
            case Err(e) =>
              && bad < |entries| && WrappedUpTo(entries, bad) && !WrappedOk(entries[bad].fields)
              && e.line == entries[bad].line && WrappedFault(entries[bad].fields, e.why)
  {
    WrappedAllGathers(entries);
    bad := FirstBad(WrappedResults(entries));
    var n := if WrappedAll(entries).Ok? then |entries| else bad;
    forall i | 0 <= i < n
      ensures WrappedOk(entries[i].fields)
      ensures WrappedAll(entries).Ok? ==> HoldsWrapped(entries[i], WrappedAll(entries).value[i])
    {
      WrappedResultAt(entries, i);
      ToWrappedIff(entries[i]);
    }
    if n < |entries| {
      WrappedResultAt(entries, n);
      ToWrappedIff(entries[n]);
    }
  }

  function WaivedResults(entries: seq<RawEntry>): (rs: seq<Result<WaivedEntry, LedgerError>>)
    ensures |rs| == |entries|
  {
    if entries == [] then [] else WaivedResults(entries[..|entries| - 1]) + [ToWaived(entries[|entries| - 1])]
  }

  lemma {:induction false} WaivedResultAt(entries: seq<RawEntry>, i: nat)
    requires i < |entries|
    ensures WaivedResults(entries)[i] == ToWaived(entries[i])
  {
    if i < |entries| - 1 {
      WaivedResultAt(entries[..|entries| - 1], i);
    }
  }

  lemma {:induction false} WaivedAllGathers(entries: seq<RawEntry>)
    ensures WaivedAll(entries) == Gather(WaivedResults(entries))
  {
    if entries != [] {
      WaivedAllGathers(entries[..|entries| - 1]);
      var rs := WaivedResults(entries);
      assert rs[..|rs| - 1] == WaivedResults(entries[..|entries| - 1]);
    }
  }

  lemma WaivedAllIff(entries: seq<RawEntry>) returns (bad: nat)
    ensures match WaivedAll(entries)
            case Ok(xs) =>
              && |xs| == |entries| && WaivedUpTo(entries, |entries|)
              && forall i :: 0 <= i < |xs| ==> HoldsWaived(entries[i], xs[i])
            case Err(e) =>
              && bad < |entries| && WaivedUpTo(entries, bad) && !WaivedOk(entries[bad].fields)
              && e.line == entries[bad].line && WaivedFault(entries[bad].fields, e.why)
  {
    WaivedAllGathers(entries);
    bad := FirstBad(WaivedResults(entries));
    var n := if WaivedAll(entries).Ok? then |entries| else bad;
    forall i | 0 <= i < n
      ensures WaivedOk(entries[i].fields)
      ensures WaivedAll(entries).Ok? ==> HoldsWaived(entries[i], WaivedAll(entries).value[i])
    {
      WaivedResultAt(entries, i);
      ToWaivedIff(entries[i]);
    }
    if n < |entries| {
      WaivedResultAt(entries, n);
      ToWaivedIff(entries[n]);
    }
  }

  ghost predicate NoOffence(kinds: seq<LineKind>) {
    forall i :: 0 <= i < |kinds| ==> Offence(kinds, i) == None
  }

  /** `wrapped.toml` is accepted exactly when no line offends and every section has the keys symbol, module and item and
      no other; then there is one entry per section, with the section's values.  Otherwise the error is the first
      offending line's or, when none offends, it names the header of the first section with other keys. */
  lemma WrappedAcceptedIff(src: string) returns (bad: nat)
    ensures var kinds := Kinds(Lines(src), HeaderOf("wrapped"));
            var sections := Sections(kinds, |kinds|);
            && (WrappedOf(src).Ok? <==> NoOffence(kinds) && WrappedUpTo(sections, |sections|))
            && (WrappedOf(src).Ok? ==>
                  && |WrappedOf(src).value| == |sections|
                  && forall i :: 0 <= i < |sections| ==> HoldsWrapped(sections[i], WrappedOf(src).value[i]))
            && (WrappedOf(src).Err? && NoOffence(kinds) ==>
                  && bad < |sections| && WrappedUpTo(sections, bad) && !WrappedOk(sections[bad].fields)
                  && WrappedOf(src).error.line == sections[bad].line
                  && WrappedFault(sections[bad].fields, WrappedOf(src).error.why))
            && (WrappedOf(src).Err? && !NoOffence(kinds) ==> TablesOf(src, "wrapped") == Err(WrappedOf(src).error))
  {
    var kinds := Kinds(Lines(src), HeaderOf("wrapped"));
    StrictParse(kinds, |kinds|);
    bad := WrappedAllIff(Sections(kinds, |kinds|));
  }

  /** `waived.toml` likewise: symbol, reason and note, perhaps a milestone, no other key, and a known reason. */
  lemma WaivedAcceptedIff(src: string) returns (bad: nat)
    ensures var kinds := Kinds(Lines(src), HeaderOf("waived"));
            var sections := Sections(kinds, |kinds|);
            && (WaivedOf(src).Ok? <==> NoOffence(kinds) && WaivedUpTo(sections, |sections|))
            && (WaivedOf(src).Ok? ==>
                  && |WaivedOf(src).value| == |sections|
                  && forall i :: 0 <= i < |sections| ==> HoldsWaived(sections[i], WaivedOf(src).value[i]))
            && (WaivedOf(src).Err? && NoOffence(kinds) ==>
                  && bad < |sections| && WaivedUpTo(sections, bad) && !WaivedOk(sections[bad].fields)
                  && WaivedOf(src).error.line == sections[bad].line
                  && WaivedFault(sections[bad].fields, WaivedOf(src).error.why))
            && (WaivedOf(src).Err? && !NoOffence(kinds) ==> TablesOf(src, "waived") == Err(WaivedOf(src).error))
  {
    var kinds := Kinds(Lines(src), HeaderOf("waived"));
    StrictParse(kinds, |kinds|);
    bad := WaivedAllIff(Sections(kinds, |kinds|));
  }

  // Printing an entry in the ledger grammar.

  function PrintRow(key: string, value: string): string {
    (key + [' ']) + ['='] + ([' '] + Quoted(value))
  }

  function Quoted(value: string): string {
    ['"'] + value + ['"']
  }

  function PrintRows(rows: seq<(string, string)>): string {
    if rows == [] then "" else PrintRow(rows[0].0, rows[0].1) + "\n" + PrintRows(rows[1..])
  }

  function PrintSection(table: string, rows: seq<(string, string)>): string {
    HeaderOf(table) + "\n" + PrintRows(rows)
  }

  function WrappedRows(e: WrappedEntry): seq<(string, string)> {
    [("symbol", e.symbol), ("module", e.moduleName), ("item", e.item)]
  }

  function WaivedRows(e: WaivedEntry): seq<(string, string)> {
    [("symbol", e.symbol), ("reason", ReasonAsStr(e.reason)), ("note", e.note)]
    + if e.milestone.Some? then [("milestone", e.milestone.value)] else []
  }

  // A file of sections.
  function PrintAll(table: string, sections: seq<seq<(string, string)>>): string {
    if sections == [] then ""
    else PrintAll(table, sections[..|sections| - 1]) + PrintSection(table, sections[|sections| - 1])
  }

  function WrappedSections(es: seq<WrappedEntry>): seq<seq<(string, string)>> {
    if es == [] then [] else WrappedSections(es[..|es| - 1]) + [WrappedRows(es[|es| - 1])]
  }

  function WaivedSections(es: seq<WaivedEntry>): seq<seq<(string, string)>> {
    if es == [] then [] else WaivedSections(es[..|es| - 1]) + [WaivedRows(es[|es| - 1])]
  }

  function PrintWrapped(es: seq<WrappedEntry>): string {
    PrintAll("wrapped", WrappedSections(es))
  }

  function PrintWaived(es: seq<WaivedEntry>): string {
    PrintAll("waived", WaivedSections(es))
  }

  // A value the grammar can carry.
  predicate Plain(v: string) {
    '"' !in v && '\n' !in v
  }

  predicate PlainRows(rows: seq<(string, string)>) {
    forall i :: 0 <= i < |rows| ==> Plain(rows[i].1)
  }

  predicate BareRows(rows: seq<(string, string)>) {
    forall i :: 0 <= i < |rows| ==> BareKey(rows[i].0)
  }

  // Trimming a text that neither starts nor ends with white space changes nothing.
  lemma TrimTight(s: string)
    requires s != [] && !IsSpace(s[0]) && !IsSpace(s[|s| - 1])
    ensures Trim(s) == s
  {
  }

  lemma BareKeyHasNoSpace(key: string)
    requires BareKey(key)
    ensures Trim(key + [' ']) == key && '=' !in key + [' '] && '\n' !in key && !IsSpace(key[0]) && key[0] !in ['#', '[']
  {
    var left := key + [' '];
    assert IsIdent(key[0]) && IsIdent(key[|key| - 1]);
    assert forall c :: c in left ==> c == ' ' || IsIdent(c);
    assert TrimEnd(key) == key;
    assert TrimStart(left) == left && left[..|left| - 1] == key;
  }

  lemma QuotedValue(value: string)
    requires Plain(value)
    ensures Trim([' '] + Quoted(value)) == Quoted(value) && Unquote(Quoted(value)) == Some(value)
  {
    var q := Quoted(value);
    assert ([' '] + q)[1..] == q && TrimStart([' '] + q) == TrimStart(q) == q;
    assert q[1..|q| - 1] == value;
  }

  // A printed row is one tight line, split at its first equals sign.
  lemma PrintedRowIsTight(key: string, value: string)
    requires BareKey(key) && Plain(value)
    ensures var line := PrintRow(key, value);
            && line != [] && line[0] == key[0] && line[0] !in ['#', '['] && Trim(line) == line
            && '\n' !in line && StripCr(line) == line
  {
    var line := PrintRow(key, value);
    BareKeyHasNoSpace(key);
    assert line[0] == key[0] && line[|line| - 1] == '"';
    TrimTight(line);
  }

  lemma PrintedRowSplits(key: string, value: string)
    requires BareKey(key) && Plain(value)
    ensures var line := PrintRow(key, value);
            && FindChar(line, '=') == Some(|key| + 1) && |key| + 2 <= |line|
            && Trim(line[..|key| + 1]) == key && Unquote(Trim(line[|key| + 2..])) == Some(value)
  {
    var line := PrintRow(key, value);
    BareKeyHasNoSpace(key);
    QuotedValue(value);
    FindCharAt(key + [' '], '=', [' '] + Quoted(value));
    assert line[..|key| + 1] == key + [' '] && line[|key| + 2..] == [' '] + Quoted(value);
  }

  lemma PrintedRowIsField(key: string, value: string, header: string)
    requires BareKey(key) && Plain(value) && header != [] && header[0] == '['
    ensures Classify(PrintRow(key, value), header) == Field(key, value)
    ensures '\n' !in PrintRow(key, value) && StripCr(PrintRow(key, value)) == PrintRow(key, value)
  {
    PrintedRowIsTight(key, value);
    PrintedRowSplits(key, value);
  }

  lemma {:induction false} KindsConcat(a: seq<string>, b: seq<string>, header: string)
    ensures Kinds(a + b, header) == Kinds(a, header) + Kinds(b, header)
  {
    if b == [] {
      assert a + b == a;
    } else {
      assert (a + b)[..|a + b| - 1] == a + b[..|b| - 1];
      KindsConcat(a, b[..|b| - 1], header);
      Assoc(Kinds(a, header), Kinds(b[..|b| - 1], header), [Classify(b[|b| - 1], header)]);
    }
  }

  // The kinds of the lines of printed rows.
  function FieldKinds(rows: seq<(string, string)>): (r: seq<LineKind>)
    ensures |r| == |rows| && forall i :: 0 <= i < |rows| ==> r[i] == Field(rows[i].0, rows[i].1)
  {
    if rows == [] then [] else [Field(rows[0].0, rows[0].1)] + FieldKinds(rows[1..])
  }

  lemma {:induction false} PrintedRowsAreFields(rows: seq<(string, string)>, header: string)
    requires BareRows(rows) && PlainRows(rows) && header != [] && header[0] == '['
    ensures Kinds(Lines(PrintRows(rows)), header) == FieldKinds(rows)
  {
    if rows != [] {
      var line := PrintRow(rows[0].0, rows[0].1);
      assert BareKey(rows[0].0) && Plain(rows[0].1);
      PrintedRowIsField(rows[0].0, rows[0].1, header);
      LinesCons(line, PrintRows(rows[1..]));
      PrintedRowsAreFields(rows[1..], header);
      KindsConcat([line], Lines(PrintRows(rows[1..])), header);
      assert [line][..0] == [] && Kinds([line], header) == [Classify(line, header)];
    }
  }

  lemma HeaderIsHeader(table: string)
    requires '\n' !in table
    ensures var h := HeaderOf(table);
            && h != [] && h[0] == '[' && '\n' !in h && StripCr(h) == h
            && Classify(h, h) == Header
  {
    var h := HeaderOf(table);
    assert h[0] == '[' && h[|h| - 1] == ']';
    TrimTight(h);
  }

  lemma PrintedSectionKinds(table: string, rows: seq<(string, string)>)
    requires '\n' !in table && BareRows(rows) && PlainRows(rows)
    ensures Kinds(Lines(PrintSection(table, rows)), HeaderOf(table)) == [Header] + FieldKinds(rows)
  {
    var header := HeaderOf(table);
    HeaderIsHeader(table);
    LinesCons(header, PrintRows(rows));
    PrintedRowsAreFields(rows, header);
    KindsConcat([header], Lines(PrintRows(rows)), header);
    assert [header][..0] == [] && Kinds([header], header) == [Header];
  }

  lemma {:induction false} TablesPrefix(kinds: seq<LineKind>, more: seq<LineKind>, n: nat)
    requires n <= |kinds|
    ensures Tables(kinds + more, n) == Tables(kinds, n)
  {
    if n != 0 {
      TablesPrefix(kinds, more, n - 1);
    }
  }

  // The rows of a section, line by line from n on.
  ghost predicate RowsAt(kinds: seq<LineKind>, n: nat, rows: seq<(string, string)>) {
    n + |rows| <= |kinds| && forall i :: 0 <= i < |rows| ==> kinds[n + i] == Field(rows[i].0, rows[i].1)
  }

  lemma RowsFollow(kinds: seq<LineKind>, fields: seq<LineKind>, rows: seq<(string, string)>)
    requires |fields| == |rows| && forall i :: 0 <= i < |rows| ==> fields[i] == Field(rows[i].0, rows[i].1)
    ensures var all := kinds + ([Header] + fields);
            |kinds| < |all| && all[|kinds|] == Header && RowsAt(all, |kinds| + 1, rows)
  {
    var all, section := kinds + ([Header] + fields), [Header] + fields;
    forall i | 0 <= i < |rows| ensures all[|kinds| + 1 + i] == Field(rows[i].0, rows[i].1) {
      assert all[|kinds| + (1 + i)] == section[1 + i] == fields[i];
    }
  }

  // Reading m rows of the section that begins at line n.
  lemma {:induction false} ReadSection(kinds: seq<LineKind>, n: nat, above: seq<RawEntry>, rows: seq<(string, string)>,
                                       m: nat)
    requires n < |kinds| && kinds[n] == Header && RowsAt(kinds, n + 1, rows) && DistinctKeys(rows) && m <= |rows|
    requires Tables(kinds, n) == Ok(above)
    ensures Tables(kinds, n + 1 + m) == Ok(above + [RawEntry(n + 1, rows[..m])])
  {
    if m == 0 {
      assert rows[..0] == [];
    } else {
      ReadSection(kinds, n, above, rows, m - 1);
      NewKey(rows, m - 1);
      assert kinds[n + 1 + (m - 1)] == Field(rows[m - 1].0, rows[m - 1].1);
      ReadField(kinds, n + m, above, RawEntry(n + 1, rows[..m - 1]), rows[m - 1]);
      assert rows[..m - 1] + [rows[m - 1]] == rows[..m];
    }
  }

  lemma NewKey(rows: seq<(string, string)>, k: nat)
    requires DistinctKeys(rows) && k < |rows|
    ensures !HasKey(rows[..k], rows[k].0)
  {
  }

  // A field with a new key joins the last section.
  lemma ReadField(kinds: seq<LineKind>, n: nat, above: seq<RawEntry>, last: RawEntry, row: (string, string))
    requires n < |kinds| && Tables(kinds, n) == Ok(above + [last]) && kinds[n] == Field(row.0, row.1)
    requires !HasKey(last.fields, row.0)
    ensures Tables(kinds, n + 1) == Ok(above + [last.(fields := last.fields + [row])])
  {
    assert (above + [last])[..|above|] == above;
  }

  lemma {:induction false} RowsEndALine(rows: seq<(string, string)>)
    ensures var s := PrintRows(rows); s == [] || s[|s| - 1] == '\n'
  {
    if rows != [] {
      RowsEndALine(rows[1..]);
    }
  }

  lemma FileEndsALine(table: string, sections: seq<seq<(string, string)>>)
    ensures var s := PrintAll(table, sections); s == [] || s[|s| - 1] == '\n'
  {
    if sections != [] {
      RowsEndALine(sections[|sections| - 1]);
    }
  }

  ghost predicate Printable(rows: seq<(string, string)>) {
    BareRows(rows) && PlainRows(rows) && DistinctKeys(rows)
  }

  // Entry i of what was read holds the rows of section i of what was printed.
  ghost predicate SameRows(entries: seq<RawEntry>, sections: seq<seq<(string, string)>>) {
    |entries| == |sections| && forall i :: 0 <= i < |sections| ==> entries[i].fields == sections[i]
  }

  // Printing sections and reading them back.
  lemma {:induction false} PrintThenRead(table: string, sections: seq<seq<(string, string)>>)
    requires '\n' !in table && forall i :: 0 <= i < |sections| ==> Printable(sections[i])
    ensures var r := TablesOf(PrintAll(table, sections), table); r.Ok? && SameRows(r.value, sections)
  {
    if sections != [] {
      var front, rows := sections[..|sections| - 1], sections[|sections| - 1];
      PrintThenRead(table, front);
      var line := ReadOneMore(table, front, rows);
      SameRowsSnoc(TablesOf(PrintAll(table, front), table).value, front, RawEntry(line, rows));
      assert sections == front + [rows];
    }
  }

  lemma SameRowsSnoc(entries: seq<RawEntry>, sections: seq<seq<(string, string)>>, entry: RawEntry)
    requires SameRows(entries, sections)
    ensures SameRows(entries + [entry], sections + [entry.fields])
  {
  }

  lemma KindsOfOneMore(table: string, front: seq<seq<(string, string)>>, rows: seq<(string, string)>)
    requires '\n' !in table && Printable(rows)
    ensures Kinds(Lines(PrintAll(table, front) + PrintSection(table, rows)), HeaderOf(table))
         == Kinds(Lines(PrintAll(table, front)), HeaderOf(table)) + ([Header] + FieldKinds(rows))
  {
    var a, b := PrintAll(table, front), PrintSection(table, rows);
    FileEndsALine(table, front);
    LinesConcat(a, b);
    KindsConcat(Lines(a), Lines(b), HeaderOf(table));
    PrintedSectionKinds(table, rows);
  }

  lemma ReadWholeSection(all: seq<LineKind>, kinds: seq<LineKind>, more: seq<LineKind>, rows: seq<(string, string)>,
                         n: nat)
    requires all == kinds + more && |more| == 1 + |rows| && n == |all|
    requires all[|kinds|] == Header && RowsAt(all, |kinds| + 1, rows) && DistinctKeys(rows)
    requires Tables(kinds, |kinds|).Ok?
    ensures Tables(all, n) == Ok(Tables(kinds, |kinds|).value + [RawEntry(|kinds| + 1, rows)])
  {
    assert n == |kinds| + 1 + |rows|;
    TakeAll(rows);
    TablesPrefix(kinds, more, |kinds|);
    ReadSection(all, |kinds|, Tables(kinds, |kinds|).value, rows, |rows|);
  }

  lemma ReadOneMore(table: string, front: seq<seq<(string, string)>>, rows: seq<(string, string)>) returns (line: nat)
    requires '\n' !in table && Printable(rows) && TablesOf(PrintAll(table, front), table).Ok?
    ensures TablesOf(PrintAll(table, front) + PrintSection(table, rows), table)
         == Ok(TablesOf(PrintAll(table, front), table).value + [RawEntry(line, rows)])
  {
    var kinds := Kinds(Lines(PrintAll(table, front)), HeaderOf(table));
    var all := Kinds(Lines(PrintAll(table, front) + PrintSection(table, rows)), HeaderOf(table));
    KindsOfOneMore(table, front, rows);
    RowsFollow(kinds, FieldKinds(rows), rows);
    ReadWholeSection(all, kinds, [Header] + FieldKinds(rows), rows, |all|);
    line := |kinds| + 1;
  }

  // The first m keys of rows are not the wanted one.
  lemma {:induction false} LookupPast(rows: seq<(string, string)>, key: string, m: nat)
    requires m <= |rows| && forall i :: 0 <= i < m ==> rows[i].0 != key
    ensures Lookup(rows, key) == Lookup(rows[m..], key)
  {
    if m != 0 {
      LookupPast(rows[1..], key, m - 1);
      assert rows[1..][m - 1..] == rows[m..];
    }
  }

  // Looking up row i by its own key, in rows with distinct keys.
  lemma LookupRow(rows: seq<(string, string)>, i: nat)
    requires i < |rows| && DistinctKeys(rows)
    ensures Lookup(rows, rows[i].0) == Some(rows[i].1)
  {
    LookupPast(rows, rows[i].0, i);
  }

  lemma {:induction false} AllAllowed(rows: seq<(string, string)>, allowed: seq<string>)
    requires forall i :: 0 <= i < |rows| ==> rows[i].0 in allowed
    ensures FirstUnknown(rows, allowed) == None
  {
    if rows != [] {
      AllAllowed(rows[1..], allowed);
    }
  }

  lemma KeysDiffer()
    ensures "symbol" != "module" && "symbol" != "item" && "module" != "item"
    ensures "symbol" != "reason" && "symbol" != "note" && "symbol" != "milestone"
    ensures "reason" != "note" && "reason" != "milestone" && "note" != "milestone"
  {
    assert "symbol"[0] == 's' && "module"[0] == 'm' && "reason"[0] == 'r';
    assert |"item"| == 4 && "item"[0] == 'i' && "note"[0] == 'n' && |"milestone"| == 9;
  }

  lemma WrappedUndone(x: WrappedEntry, line: nat)
    ensures var rows := WrappedRows(x);
            BareRows(rows) && DistinctKeys(rows) && ToWrapped(RawEntry(line, rows)) == Ok(x)
  {
    var rows := WrappedRows(x);
    KeysDiffer();
    AllAllowed(rows, WRAPPED_KEYS);
    LookupRow(rows, 0);
    LookupRow(rows, 1);
    LookupRow(rows, 2);
  }

  lemma WaivedRowsAreBare(x: WaivedEntry)
    ensures BareRows(WaivedRows(x)) && DistinctKeys(WaivedRows(x))
  {
    KeysDiffer();
  }

  // Each value is found again under its own key.
  lemma WaivedLookups(x: WaivedEntry)
    ensures var rows := WaivedRows(x);
            && Lookup(rows, "symbol") == Some(x.symbol) && Lookup(rows, "reason") == Some(ReasonAsStr(x.reason))
            && Lookup(rows, "note") == Some(x.note) && Lookup(rows, "milestone") == x.milestone
  {
    var rows := WaivedRows(x);
    KeysDiffer();
    WaivedRowsAreBare(x);
    LookupRow(rows, 0);
    LookupRow(rows, 1);
    LookupRow(rows, 2);
    if x.milestone.Some? {
      LookupRow(rows, 3);
    } else {
      LookupPast(rows, "milestone", 3);
      assert rows[3..] == [];
    }
  }

  lemma WaivedUndone(x: WaivedEntry, line: nat)
    ensures var rows := WaivedRows(x);
            BareRows(rows) && DistinctKeys(rows) && ToWaived(RawEntry(line, rows)) == Ok(x)
  {
    WaivedRowsAreBare(x);
    WaivedLookups(x);
    AllAllowed(WaivedRows(x), WAIVED_KEYS);
    ReasonsRoundTrip(x.reason, ReasonAsStr(x.reason));
  }

  lemma {:induction false} WrappedSectionsPrintable(es: seq<WrappedEntry>)
    requires forall e :: e in es ==> PlainRows(WrappedRows(e))
    ensures |WrappedSections(es)| == |es|
    ensures forall i :: 0 <= i < |es| ==>
              WrappedSections(es)[i] == WrappedRows(es[i]) && Printable(WrappedSections(es)[i])
  {
    if es != [] {
      WrappedSectionsPrintable(es[..|es| - 1]);
      WrappedUndone(es[|es| - 1], 0);
    }
  }

  lemma {:induction false} WaivedSectionsPrintable(es: seq<WaivedEntry>)
    requires forall e :: e in es ==> PlainRows(WaivedRows(e))
    ensures |WaivedSections(es)| == |es|
    ensures forall i :: 0 <= i < |es| ==> WaivedSections(es)[i] == WaivedRows(es[i]) && Printable(WaivedSections(es)[i])
  {
    if es != [] {
      WaivedSectionsPrintable(es[..|es| - 1]);
      WaivedUndone(es[|es| - 1], 0);
    }
  }

  lemma {:induction false} WrappedAllUndone(es: seq<WrappedEntry>, entries: seq<RawEntry>)
    requires |entries| == |es| && forall i :: 0 <= i < |es| ==> entries[i].fields == WrappedRows(es[i])
    ensures WrappedAll(entries) == Ok(es)
  {
    if es != [] {
      var n := |es| - 1;
      WrappedAllUndone(es[..n], entries[..n]);
      WrappedUndone(es[n], entries[n].line);
      assert entries[n] == RawEntry(entries[n].line, WrappedRows(es[n])) && es == es[..n] + [es[n]];
    }
  }

  lemma {:induction false} WaivedAllUndone(es: seq<WaivedEntry>, entries: seq<RawEntry>)
    requires |entries| == |es| && forall i :: 0 <= i < |es| ==> entries[i].fields == WaivedRows(es[i])
    ensures WaivedAll(entries) == Ok(es)
  {
    if es != [] {
      var n := |es| - 1;
      WaivedAllUndone(es[..n], entries[..n]);
      WaivedUndone(es[n], entries[n].line);
      assert entries[n] == RawEntry(entries[n].line, WaivedRows(es[n])) && es == es[..n] + [es[n]];
    }
  }

  // Whatever the reader accepts, its values are free of quotes and newlines.

  lemma ClassifiedValueIsPlain(raw: string, header: string)
    requires Classify(raw, header).Field? && '\n' !in raw
    ensures Plain(Classify(raw, header).value)
  {
    var line := Trim(raw);
    var i := FindChar(line, '=').value;
    var quoted := Trim(line[i + 1..]);
    var v := Unquote(quoted).value;
    if '\n' in v {
      assert '\n' in quoted;
      TrimKeeps(line[i + 1..], '\n');
      assert '\n' in line;
      TrimKeeps(raw, '\n');
    }
  }

  lemma {:induction false} TablesArePlain(kinds: seq<LineKind>, n: nat)
    requires n <= |kinds| && Tables(kinds, n).Ok?
    requires forall i :: 0 <= i < |kinds| && kinds[i].Field? ==> Plain(kinds[i].value)
    ensures forall e :: e in Tables(kinds, n).value ==> PlainRows(e.fields)
  {
    if n != 0 {
      TablesArePlain(kinds, n - 1);
    }
  }

  lemma FileIsPlain(src: string, table: string)
    requires TablesOf(src, table).Ok?
    ensures forall e :: e in TablesOf(src, table).value ==> PlainRows(e.fields)
  {
    var lines, header := Lines(src), HeaderOf(table);
    var kinds := Kinds(lines, header);
    LinesHaveNoNewline(src);
    forall i | 0 <= i < |kinds| && kinds[i].Field? ensures Plain(kinds[i].value) {
      ClassifiedValueIsPlain(lines[i], header);
    }
    TablesArePlain(kinds, |kinds|);
  }

  lemma {:induction false} LookupIsPlain(fields: seq<(string, string)>, key: string)
    requires PlainRows(fields) && Lookup(fields, key).Some?
    ensures Plain(Lookup(fields, key).value)
  {
    assert Plain(fields[0].1);
    if fields[0].0 != key {
      LookupIsPlain(fields[1..], key);
    }
  }

  lemma ReasonsArePlain(r: WaiveReason)
    ensures Plain(ReasonAsStr(r))
  {
  }

  lemma {:induction false} WrappedAllPlain(entries: seq<RawEntry>)
    requires WrappedAll(entries).Ok? && forall e :: e in entries ==> PlainRows(e.fields)
    ensures forall x :: x in WrappedAll(entries).value ==> PlainRows(WrappedRows(x))
  {
    if entries != [] {
      var last := entries[|entries| - 1];
      WrappedAllPlain(entries[..|entries| - 1]);
      LookupIsPlain(last.fields, "symbol");
      LookupIsPlain(last.fields, "module");
      LookupIsPlain(last.fields, "item");
    }
  }

  lemma {:induction false} WaivedAllPlain(entries: seq<RawEntry>)
    requires WaivedAll(entries).Ok? && forall e :: e in entries ==> PlainRows(e.fields)
    ensures forall x :: x in WaivedAll(entries).value ==> PlainRows(WaivedRows(x))
  {
    if entries != [] {
      var last := entries[|entries| - 1];
      WaivedAllPlain(entries[..|entries| - 1]);
      LookupIsPlain(last.fields, "symbol");
      LookupIsPlain(last.fields, "note");
      if Lookup(last.fields, "milestone").Some? {
        LookupIsPlain(last.fields, "milestone");
      }
      ReasonsArePlain(ToWaived(last).value.reason);
    }
  }

  /** The round trip of `wrapped.toml`: printing a list and reading it back returns the list, exactly when no value
      contains a quote or a newline. */
  lemma WrappedRoundTrip(es: seq<WrappedEntry>)
    ensures WrappedOf(PrintWrapped(es)) == Ok(es) <==>
            forall e :: e in es ==> Plain(e.symbol) && Plain(e.moduleName) && Plain(e.item)
  {
    if forall e :: e in es ==> Plain(e.symbol) && Plain(e.moduleName) && Plain(e.item) {
      WrappedSectionsPrintable(es);
      PrintThenRead("wrapped", WrappedSections(es));
      WrappedAllUndone(es, TablesOf(PrintWrapped(es), "wrapped").value);
    }
    if WrappedOf(PrintWrapped(es)) == Ok(es) {
      FileIsPlain(PrintWrapped(es), "wrapped");
      WrappedAllPlain(TablesOf(PrintWrapped(es), "wrapped").value);
      forall e | e in es ensures Plain(e.symbol) && Plain(e.moduleName) && Plain(e.item) {
        var rows := WrappedRows(e);
        assert Plain(rows[0].1) && Plain(rows[1].1) && Plain(rows[2].1);
      }
    }
  }

  predicate PlainWaived(e: WaivedEntry) {
    Plain(e.symbol) && Plain(e.note) && (e.milestone.Some? ==> Plain(e.milestone.value))
  }

  lemma PlainWaivedRows(e: WaivedEntry)
    ensures PlainRows(WaivedRows(e)) <==> PlainWaived(e)
  {
    var rows := WaivedRows(e);
    ReasonsArePlain(e.reason);
    assert rows[0].1 == e.symbol && rows[1].1 == ReasonAsStr(e.reason) && rows[2].1 == e.note;
    assert e.milestone.Some? ==> rows[3].1 == e.milestone.value;
  }

  lemma WaivedComesBack(es: seq<WaivedEntry>)
    requires forall e :: e in es ==> PlainWaived(e)
    ensures WaivedOf(PrintWaived(es)) == Ok(es)
  {
    forall e | e in es ensures PlainRows(WaivedRows(e)) {
      PlainWaivedRows(e);
    }
    WaivedSectionsPrintable(es);
    PrintThenRead("waived", WaivedSections(es));
    WaivedAllUndone(es, TablesOf(PrintWaived(es), "waived").value);
  }

  /** The round trip of `waived.toml`: the same, where the milestone may be absent. */
  lemma WaivedRoundTrip(es: seq<WaivedEntry>)
    ensures WaivedOf(PrintWaived(es)) == Ok(es) <==> forall e :: e in es ==> PlainWaived(e)
  {
    if forall e :: e in es ==> PlainWaived(e) {
      WaivedComesBack(es);
    }
    if WaivedOf(PrintWaived(es)) == Ok(es) {
      FileIsPlain(PrintWaived(es), "waived");
      WaivedAllPlain(TablesOf(PrintWaived(es), "waived").value);
      forall e | e in es ensures PlainWaived(e) {
        PlainWaivedRows(e);
      }
    }
  }

  /** Reading, printing and reading again gives the same entries, for every input that is accepted at all. */
  lemma ParsePrintParse(src: string)
    ensures WrappedOf(src).Ok? ==> WrappedOf(PrintWrapped(WrappedOf(src).value)) == WrappedOf(src)
    ensures WaivedOf(src).Ok? ==> WaivedOf(PrintWaived(WaivedOf(src).value)) == WaivedOf(src)
  {
    if WrappedOf(src).Ok? {
      var es := WrappedOf(src).value;
      FileIsPlain(src, "wrapped");
      WrappedAllPlain(TablesOf(src, "wrapped").value);
      WrappedSectionsPrintable(es);
      PrintThenRead("wrapped", WrappedSections(es));
      WrappedAllUndone(es, TablesOf(PrintWrapped(es), "wrapped").value);
    }
    if WaivedOf(src).Ok? {
      var es := WaivedOf(src).value;
      FileIsPlain(src, "waived");
      WaivedAllPlain(TablesOf(src, "waived").value);
      WaivedSectionsPrintable(es);
      PrintThenRead("waived", WaivedSections(es));
      WaivedAllUndone(es, TablesOf(PrintWaived(es), "waived").value);
    }
  }
}
