/** The strict reader of `coverage/wrapped.toml` and `coverage/waived.toml`. */
module Ledger {
  import opened Wrappers
  import opened Text

  datatype Why =
    | ExpectedHeader | BeforeFirstHeader | ExpectedKeyValue | NotBareKey | NotQuoted | DuplicateKey
    | UnknownKey(key: string) | Missing(key: string) | UnknownReason(reason: string)

  datatype LedgerError = LedgerError(line: nat, why: Why)

  // One `[[table]]` block: the line it started on and its rows.
  datatype RawEntry = RawEntry(line: nat, fields: seq<(string, string)>)

  // What one line is, by itself.
  datatype LineKind = Skip | Header | Field(key: string, value: string) | Stray | Malformed(why: Why)

  predicate BareKey(key: string) {
    key != [] && forall c :: c in key ==> IsIdent(c)
  }

  // The text between the quotes of a plain double-quoted string.
  function Unquote(value: string): Option<string> {
    if |value| >= 2 && value[0] == '"' && value[|value| - 1] == '"' && '"' !in value[1..|value| - 1]
    then Some(value[1..|value| - 1])
    else None
  }

  function Classify(raw: string, header: string): LineKind {
    var line := Trim(raw);
    if line == [] || line[0] == '#' then Skip
    else if line == header then Header
    else if line[0] == '[' then Stray
    else
      match FindChar(line, '=')
      case None => Malformed(ExpectedKeyValue)
      case Some(i) =>
        var key := Trim(line[..i]);
        if !BareKey(key) then Malformed(NotBareKey)
        else
          match Unquote(Trim(line[i + 1..]))
          case None => Malformed(NotQuoted)
          case Some(value) => Field(key, value)
  }

  function Kinds(lines: seq<string>, header: string): (r: seq<LineKind>)
    ensures |r| == |lines| && forall i :: 0 <= i < |lines| ==> r[i] == Classify(lines[i], header)
  {
    if lines == [] then [] else Kinds(lines[..|lines| - 1], header) + [Classify(lines[|lines| - 1], header)]
  }

  function HeaderOf(table: string): string {
    "[[" + table + "]]"
  }

  predicate HasKey(fields: seq<(string, string)>, key: string) {
    exists i :: 0 <= i < |fields| && fields[i].0 == key
  }

  // The effect of one line on the entries read so far.
  function Feed(entries: seq<RawEntry>, kind: LineKind, lineno: nat): Result<seq<RawEntry>, LedgerError> {
    match kind
    case Skip => Ok(entries)
    case Header => Ok(entries + [RawEntry(lineno, [])])
    case Stray => Err(LedgerError(lineno, ExpectedHeader))
    case Malformed(why) => Err(LedgerError(lineno, if entries == [] then BeforeFirstHeader else why))
    case Field(key, value) =>
      if entries == [] then Err(LedgerError(lineno, BeforeFirstHeader))
      else
        var last := entries[|entries| - 1];
        if HasKey(last.fields, key) then Err(LedgerError(lineno, DuplicateKey))
        else Ok(entries[..|entries| - 1] + [last.(fields := last.fields + [(key, value)])])
  }

  function Tables(kinds: seq<LineKind>, n: nat): Result<seq<RawEntry>, LedgerError>
    requires n <= |kinds|
  {
    if n == 0 then Ok([])
    else
      match Tables(kinds, n - 1)
      case Err(e) => Err(e)
      case Ok(entries) => Feed(entries, kinds[n - 1], n)
  }

  lemma {:induction false} ErrorsStick(kinds: seq<LineKind>, m: nat, n: nat)
    requires m <= n <= |kinds| && Tables(kinds, m).Err?
    ensures Tables(kinds, n) == Tables(kinds, m)
    decreases n - m
  {
    if m < n {
      ErrorsStick(kinds, m, n - 1);
    }
  }

  // The body of the loop of `parse_tables`, for one line.
  method ReadLine(entries: seq<RawEntry>, raw: string, header: string, lineno: nat)
    returns (r: Result<seq<RawEntry>, LedgerError>)
    ensures r == Feed(entries, Classify(raw, header), lineno)
  {
    var line := Trim(raw);
    if line == [] || line[0] == '#' {
      return Ok(entries);
    }
    if line == header {
      return Ok(entries + [RawEntry(lineno, [])]);
    }
    if line[0] == '[' {
      return Err(LedgerError(lineno, ExpectedHeader));
    }
    if entries == [] {
      return Err(LedgerError(lineno, BeforeFirstHeader));
    }
    var last := |entries| - 1;
    var split := FindChar(line, '=');
    if split == None {
      return Err(LedgerError(lineno, ExpectedKeyValue));
    }
    var key := Trim(line[..split.value]);
    if !BareKey(key) {
      return Err(LedgerError(lineno, NotBareKey));
    }
    var inner := Unquote(Trim(line[split.value + 1..]));
    if inner == None {
      return Err(LedgerError(lineno, NotQuoted));
    }
    if HasKey(entries[last].fields, key) {
      return Err(LedgerError(lineno, DuplicateKey));
    }
    r := Ok(entries[..last] + [entries[last].(fields := entries[last].fields + [(key, inner.value)])]);
  }

  // What `parse_tables` makes of a file.
  function TablesOf(src: string, table: string): Result<seq<RawEntry>, LedgerError> {
    var kinds := Kinds(Lines(src), HeaderOf(table));
    Tables(kinds, |kinds|)
  }

  /** `parse_tables`. */
  method ParseTables(src: string, table: string) returns (r: Result<seq<RawEntry>, LedgerError>)
    ensures r == TablesOf(src, table)
  {
    var header := HeaderOf(table);
    var lines := Lines(src);
    ghost var kinds := Kinds(lines, header);
    var entries: seq<RawEntry> := [];
    for idx := 0 to |lines|
      invariant Tables(kinds, idx) == Ok(entries)
    {
      r := ReadLine(entries, lines[idx], header, idx + 1);
      assert kinds[idx] == Classify(lines[idx], header);
      if r.Err? {
        ErrorsStick(kinds, idx + 1, |kinds|);
        return;
      }
      entries := r.value;
    }
    r := Ok(entries);
  }

  // An independent reading of the file: where the headers are, and which rows lie between two lines.

  // The rows on the lines lo .. hi - 1, in order.
  function Rows(kinds: seq<LineKind>, lo: nat, hi: nat): seq<(string, string)>
    requires lo <= hi <= |kinds|
  {
    if lo == hi then []
    else
      Rows(kinds, lo, hi - 1) + if kinds[hi - 1].Field? then [(kinds[hi - 1].key, kinds[hi - 1].value)] else []
  }

  // The line numbers (from 1) of the headers above line n, in order.
  function Headers(kinds: seq<LineKind>, n: nat): seq<nat>
    requires n <= |kinds|
  {
    if n == 0 then [] else Headers(kinds, n - 1) + if kinds[n - 1].Header? then [n] else []
  }

  // The line after the nearest header above line n, if there is one.
  function SectionStart(kinds: seq<LineKind>, n: nat): (r: Option<nat>)
    requires n <= |kinds|
    ensures r.Some? ==> 0 < r.value <= n && kinds[r.value - 1].Header?
    ensures r.Some? ==> forall i :: r.value <= i < n ==> !kinds[i].Header?
    ensures r == None ==> forall i :: 0 <= i < n ==> !kinds[i].Header?
  {
    if n == 0 then None else if kinds[n - 1].Header? then Some(n) else SectionStart(kinds, n - 1)
  }

  // Why line i (counted from 0) cannot be accepted, given the lines above it.
  function Offence(kinds: seq<LineKind>, i: nat): Option<Why>
    requires i < |kinds|
  {
    var start := SectionStart(kinds, i);
    match kinds[i]
    case Skip => None
    case Header => None
    case Stray => Some(ExpectedHeader)
    case Malformed(why) => Some(if start == None then BeforeFirstHeader else why)
    case Field(key, _) =>
      if start == None then Some(BeforeFirstHeader)
      else if HasKey(Rows(kinds, start.value, i), key) then Some(DuplicateKey)
      else None
  }

  // The sections above line n: the last header with all rows below it, after the sections above that header.
  function Sections(kinds: seq<LineKind>, n: nat): seq<RawEntry>
    requires n <= |kinds|
    decreases n
  {
    match SectionStart(kinds, n)
    case None => []
    case Some(p) => Sections(kinds, p - 1) + [RawEntry(p, Rows(kinds, p, n))]
  }

  // One more line either extends the sections or offends.
  lemma FeedExtendsSections(kinds: seq<LineKind>, n: nat)
    requires 0 < n <= |kinds|
    ensures Feed(Sections(kinds, n - 1), kinds[n - 1], n) ==
            match Offence(kinds, n - 1)
            case None => Ok(Sections(kinds, n))
            case Some(why) => Err(LedgerError(n, why))
  {
    var above := Sections(kinds, n - 1);
    match SectionStart(kinds, n - 1)
    case None =>
    case Some(p) =>
      var rows := Rows(kinds, p, n - 1);
      assert above[|above| - 1] == RawEntry(p, rows) && above[..|above| - 1] == Sections(kinds, p - 1);
      assert rows + [] == rows;
  }

  /** Strict parsing succeeds exactly when no line offends, and then yields the sections of the file.  When it fails
      it names the first offending line and what is wrong with it. */
  lemma {:induction false} StrictParse(kinds: seq<LineKind>, n: nat)
    requires n <= |kinds|
    ensures match Tables(kinds, n)
            case Ok(entries) =>
              entries == Sections(kinds, n) && forall i :: 0 <= i < n ==> Offence(kinds, i) == None
            case Err(e) =>
              && 1 <= e.line <= n && Offence(kinds, e.line - 1) == Some(e.why)
              && forall i :: 0 <= i < e.line - 1 ==> Offence(kinds, i) == None
  {
    if n != 0 {
      StrictParse(kinds, n - 1);
      FeedExtendsSections(kinds, n);
    }
  }

  function Flatten(entries: seq<RawEntry>): seq<(string, string)> {
    if entries == [] then [] else Flatten(entries[..|entries| - 1]) + entries[|entries| - 1].fields
  }

  function EntryLines(entries: seq<RawEntry>): seq<nat> {
    if entries == [] then [] else EntryLines(entries[..|entries| - 1]) + [entries[|entries| - 1].line]
  }

  predicate DistinctKeys(fields: seq<(string, string)>) {
    forall i, j :: 0 <= i < j < |fields| ==> fields[i].0 != fields[j].0
  }

  lemma {:induction false} RowsSplit(kinds: seq<LineKind>, lo: nat, mid: nat, hi: nat)
    requires lo <= mid <= hi <= |kinds|
    ensures Rows(kinds, lo, hi) == Rows(kinds, lo, mid) + Rows(kinds, mid, hi)
    decreases hi
  {
    if mid < hi {
      RowsSplit(kinds, lo, mid, hi - 1);
    }
  }

  lemma {:induction false} NoRows(kinds: seq<LineKind>, lo: nat, hi: nat)
    requires lo <= hi <= |kinds| && forall i :: lo <= i < hi ==> !kinds[i].Field?
    ensures Rows(kinds, lo, hi) == []
  {
    if lo < hi {
      NoRows(kinds, lo, hi - 1);
    }
  }

  lemma {:induction false} NoHeaders(kinds: seq<LineKind>, m: nat, n: nat)
    requires m <= n <= |kinds| && forall i :: m <= i < n ==> !kinds[i].Header?
    ensures Headers(kinds, n) == Headers(kinds, m)
  {
    if m < n {
      NoHeaders(kinds, m, n - 1);
    }
  }

  // An inoffensive line has a header above it, or is no row.
  lemma {:induction false} RowsBelowAHeader(kinds: seq<LineKind>, n: nat)
    requires n <= |kinds| && SectionStart(kinds, n) == None && forall i :: 0 <= i < n ==> Offence(kinds, i) == None
    ensures Rows(kinds, 0, n) == []
  {
    forall i | 0 <= i < n ensures !kinds[i].Field? {
      assert SectionStart(kinds, i) == None;
      assert Offence(kinds, i) == None;
    }
    NoRows(kinds, 0, n);
  }

  lemma {:induction false} RowsHaveDistinctKeys(kinds: seq<LineKind>, p: nat, n: nat)
    requires 0 < p <= n <= |kinds| && kinds[p - 1].Header? && (forall i :: p <= i < n ==> !kinds[i].Header?)
    requires forall i :: p <= i < n ==> Offence(kinds, i) == None
    ensures DistinctKeys(Rows(kinds, p, n))
  {
    if p < n {
      RowsHaveDistinctKeys(kinds, p, n - 1);
      assert SectionStart(kinds, n - 1) == Some(p);
      assert Offence(kinds, n - 1) == None;
    }
  }

  lemma {:induction false} SectionLines(kinds: seq<LineKind>, n: nat)
    requires n <= |kinds|
    ensures EntryLines(Sections(kinds, n)) == Headers(kinds, n)
    decreases n
  {
    match SectionStart(kinds, n)
    case None =>
      NoHeaders(kinds, 0, n);
    case Some(p) =>
      SectionLines(kinds, p - 1);
      var above, entries := Sections(kinds, p - 1), Sections(kinds, n);
      assert entries[..|entries| - 1] == above && entries[|entries| - 1].line == p;
      NoHeaders(kinds, p, n);
      assert EntryLines(entries) == EntryLines(above) + [p] && Headers(kinds, p) == Headers(kinds, p - 1) + [p];
  }

  lemma {:induction false} SectionRows(kinds: seq<LineKind>, n: nat)
    requires n <= |kinds| && forall i :: 0 <= i < n ==> Offence(kinds, i) == None
    ensures Flatten(Sections(kinds, n)) == Rows(kinds, 0, n)
    decreases n
  {
    match SectionStart(kinds, n)
    case None =>
      RowsBelowAHeader(kinds, n);
    case Some(p) =>
      SectionRows(kinds, p - 1);
      var above, entries := Sections(kinds, p - 1), Sections(kinds, n);
      assert entries[..|entries| - 1] == above && entries[|entries| - 1].fields == Rows(kinds, p, n);
      RowsSplit(kinds, 0, p, n);
      assert Rows(kinds, 0, p) == Rows(kinds, 0, p - 1) + [];
  }

  lemma {:induction false} SectionKeys(kinds: seq<LineKind>, n: nat)
    requires n <= |kinds| && forall i :: 0 <= i < n ==> Offence(kinds, i) == None
    ensures forall e :: e in Sections(kinds, n) ==> DistinctKeys(e.fields)
    decreases n
  {
    match SectionStart(kinds, n)
    case None =>
    case Some(p) =>
      SectionKeys(kinds, p - 1);
      RowsHaveDistinctKeys(kinds, p, n);
  }

  /** A file that parses loses nothing: one entry per header line, all rows in order once the sections are put
      together, and no key twice in an entry. */
  lemma NothingLost(kinds: seq<LineKind>)
    requires Tables(kinds, |kinds|).Ok?
    ensures var entries := Tables(kinds, |kinds|).value;
            && EntryLines(entries) == Headers(kinds, |kinds|)
            && Flatten(entries) == Rows(kinds, 0, |kinds|)
            && forall e :: e in entries ==> DistinctKeys(e.fields)
  {
    StrictParse(kinds, |kinds|);
    SectionLines(kinds, |kinds|);
    SectionRows(kinds, |kinds|);
    SectionKeys(kinds, |kinds|);
  }
}
