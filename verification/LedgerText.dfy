/** What the strict reader makes of a file, said of its text. */
module LedgerText {
  import opened Wrappers
  import opened Text
  import opened Ledger

  // The shapes of a trimmed line.

  ghost predicate Blank(t: string) {
    t == "" || "#" <= t
  }

  ghost predicate IsHeader(t: string, table: string) {
    t == "[[" + table + "]]"
  }

  // Neither blank nor bracketed: the line should be a row.
  ghost predicate Content(t: string) {
    t != "" && !("#" <= t) && !("[" <= t)
  }

  // Before and after the first equals sign.
  ghost predicate Halves(t: string, left: string, right: string) {
    '=' !in left && t == left + "=" + right
  }

  ghost predicate Bare(key: string) {
    key != "" && forall c :: c in key ==> IsIdent(c)
  }

  ghost predicate Quotes(t: string, value: string) {
    '"' !in value && t == "\"" + value + "\""
  }

  // `key = "value"`.
  ghost predicate IsRow(t: string, key: string, value: string) {
    Bare(key) && exists left, right :: Halves(t, left, right) && Trim(left) == key && Quotes(Trim(right), value)
  }

  ghost predicate BadKey(t: string) {
    exists left, right :: Halves(t, left, right) && !Bare(Trim(left))
  }

  ghost predicate BadValue(t: string) {
    exists left, right :: Halves(t, left, right) && Bare(Trim(left)) && forall value :: !Quotes(Trim(right), value)
  }

  lemma UnquoteIff(t: string, value: string)
    ensures Unquote(t) == Some(value) <==> Quotes(t, value)
  {
    if Quotes(t, value) {
      assert t[1..|t| - 1] == value;
    }
    if Unquote(t) == Some(value) {
      assert t == [t[0]] + t[1..|t| - 1] + [t[|t| - 1]];
    }
  }

  // There is one way to halve a line at its first equals sign, if it has one.
  lemma HalvesIff(t: string, left: string, right: string)
    ensures Halves(t, left, right) <==>
            FindChar(t, '=').Some? && left == t[..FindChar(t, '=').value] && right == t[FindChar(t, '=').value + 1..]
  {
    FindCharSpec(t, '=');
    if Halves(t, left, right) {
      FindCharAt(left, '=', right);
      assert t == left + ['='] + right;
    } else if FindChar(t, '=').Some? {
      var i := FindChar(t, '=').value;
      assert t == t[..i] + "=" + t[i + 1..];
    }
  }

  // What `Classify` says, shape by shape.
  ghost predicate HasShape(t: string, table: string, kind: LineKind) {
    match kind
    case Skip => Blank(t)
    case Header => IsHeader(t, table)
    case Stray => "[" <= t && !IsHeader(t, table)
    case Field(key, value) => Content(t) && IsRow(t, key, value)
    case Malformed(ExpectedKeyValue) => Content(t) && '=' !in t
    case Malformed(NotBareKey) => Content(t) && BadKey(t)
    case Malformed(NotQuoted) => Content(t) && BadValue(t)
    case Malformed(_) => false
  }

  lemma RowIff(t: string, key: string, value: string)
    ensures IsRow(t, key, value) <==>
            match FindChar(t, '=')
            case None => false
            case Some(i) => Bare(key) && Trim(t[..i]) == key && Unquote(Trim(t[i + 1..])) == Some(value)
  {
    if IsRow(t, key, value) {
      var left, right :| Halves(t, left, right) && Trim(left) == key && Quotes(Trim(right), value);
      HalvesIff(t, left, right);
      UnquoteIff(Trim(right), value);
    }
    if FindChar(t, '=').Some? {
      var i := FindChar(t, '=').value;
      HalvesIff(t, t[..i], t[i + 1..]);
      UnquoteIff(Trim(t[i + 1..]), value);
    }
  }

  lemma BadKeyIff(t: string)
    ensures BadKey(t) <==>
            match FindChar(t, '=')
            case None => false
            case Some(i) => !Bare(Trim(t[..i]))
  {
    if BadKey(t) {
      var left, right :| Halves(t, left, right) && !Bare(Trim(left));
      HalvesIff(t, left, right);
    }
    if FindChar(t, '=').Some? {
      var i := FindChar(t, '=').value;
      HalvesIff(t, t[..i], t[i + 1..]);
    }
  }

  lemma BadValueIff(t: string)
    ensures BadValue(t) <==>
            match FindChar(t, '=')
            case None => false
            case Some(i) => Bare(Trim(t[..i])) && Unquote(Trim(t[i + 1..])) == None
  {
    if BadValue(t) {
      var left, right :| Halves(t, left, right) && Bare(Trim(left)) && forall value :: !Quotes(Trim(right), value);
      HalvesIff(t, left, right);
      if Unquote(Trim(right)).Some? {
        UnquoteIff(Trim(right), Unquote(Trim(right)).value);
      }
    }
    if FindChar(t, '=').Some? {
      var i := FindChar(t, '=').value;
      HalvesIff(t, t[..i], t[i + 1..]);
      forall value ensures Unquote(Trim(t[i + 1..])) == Some(value) <==> Quotes(Trim(t[i + 1..]), value) {
        UnquoteIff(Trim(t[i + 1..]), value);
      }
    }
  }

  lemma FirstCharacter(t: string, table: string)
    ensures "#" <= t <==> t != "" && t[0] == '#'
    ensures "[" <= t <==> t != "" && t[0] == '['
    ensures IsHeader(t, table) ==> "[" <= t
  {
  }

  /** A line is classified by the shape of its trimmed text. */
  lemma ClassifyIff(raw: string, table: string, kind: LineKind)
    ensures Classify(raw, HeaderOf(table)) == kind <==> HasShape(Trim(raw), table, kind)
  {
    var t := Trim(raw);
    FirstCharacter(t, table);
    FindCharSpec(t, '=');
    BadKeyIff(t);
    BadValueIff(t);
    if kind.Field? {
      RowIff(t, kind.key, kind.value);
    }
    assert forall key :: BareKey(key) <==> Bare(key);
  }

  // Whole files.

  ghost predicate HeaderAt(lines: seq<string>, table: string, i: nat) {
    i < |lines| && IsHeader(Trim(lines[i]), table)
  }

  ghost predicate RowAt(lines: seq<string>, i: nat, key: string, value: string) {
    i < |lines| && IsRow(Trim(lines[i]), key, value)
  }

  // No header on the lines lo .. hi - 1.
  ghost predicate NoHeaderIn(lines: seq<string>, table: string, lo: nat, hi: nat) {
    forall i: nat :: lo <= i < hi ==> !HeaderAt(lines, table, i)
  }

  // Row i belongs to the header on line p, both counted from 0.
  ghost predicate RowUnder(lines: seq<string>, table: string, p: nat, i: nat, key: string, value: string) {
    p < i && HeaderAt(lines, table, p) && NoHeaderIn(lines, table, p + 1, i) && RowAt(lines, i, key, value)
  }

  ghost predicate KeyAbove(lines: seq<string>, table: string, i: nat, key: string) {
    exists j: nat, value :: j < i && NoHeaderIn(lines, table, j, i) && RowAt(lines, j, key, value)
  }

  // What is wrong with line i, given the lines above it.
  ghost predicate Wrong(lines: seq<string>, table: string, i: nat, why: Why)
    requires i < |lines|
  {
    var t := Trim(lines[i]);
    var headless := NoHeaderIn(lines, table, 0, i);
    match why
    case ExpectedHeader => "[" <= t && !IsHeader(t, table)
    case BeforeFirstHeader => Content(t) && headless
    case ExpectedKeyValue => Content(t) && !headless && '=' !in t
    case NotBareKey => Content(t) && !headless && BadKey(t)
    case NotQuoted => Content(t) && !headless && BadValue(t)
    case DuplicateKey =>
      !headless && exists key, value :: Content(t) && IsRow(t, key, value) && KeyAbove(lines, table, i, key)
    case _ => false
  }

  ghost predicate Fits(t: string, table: string) {
    Blank(t) || IsHeader(t, table) || exists key, value :: IsRow(t, key, value)
  }

  // Every line has its kind, and its shape says which.
  ghost predicate Spelled(lines: seq<string>, table: string, kinds: seq<LineKind>) {
    |kinds| == |lines| &&
    forall i, kind :: 0 <= i < |lines| ==> (kinds[i] == kind <==> HasShape(Trim(lines[i]), table, kind))
  }

  lemma KindsAreSpelled(lines: seq<string>, table: string)
    ensures Spelled(lines, table, Kinds(lines, HeaderOf(table)))
  {
    forall i, kind | 0 <= i < |lines|
      ensures Kinds(lines, HeaderOf(table))[i] == kind <==> HasShape(Trim(lines[i]), table, kind)
    {
      ClassifyIff(lines[i], table, kind);
    }
  }

  lemma HeaderIff(lines: seq<string>, table: string, kinds: seq<LineKind>, i: nat)
    requires Spelled(lines, table, kinds) && i < |lines|
    ensures HeaderAt(lines, table, i) <==> kinds[i].Header?
  {
    assert kinds[i] == Header <==> HasShape(Trim(lines[i]), table, Header);
  }

  // A row is no other kind of line.
  lemma RowIsContent(t: string, key: string, value: string)
    requires Tight(t) && IsRow(t, key, value)
    ensures Content(t)
  {
    var left, right :| Halves(t, left, right) && Trim(left) == key && Quotes(Trim(right), value);
    var a, b := TrimSplits(left);
    assert left != [] && t[0] == left[0];
    PaddedStart(left, a, key, b);
    assert key[0] in key;
  }

  lemma PaddedStart(s: string, a: string, t: string, b: string)
    requires Padded(s, a, t, b) && t != []
    ensures IsSpace(s[0]) || s[0] == t[0]
  {
    if a != [] {
      assert a[0] in a;
    }
  }

  lemma FieldIff(lines: seq<string>, table: string, kinds: seq<LineKind>, i: nat, key: string, value: string)
    requires Spelled(lines, table, kinds) && i < |lines|
    ensures RowAt(lines, i, key, value) <==> kinds[i] == Field(key, value)
  {
    var a, b := TrimSplits(lines[i]);
    if RowAt(lines, i, key, value) {
      RowIsContent(Trim(lines[i]), key, value);
    }
    assert kinds[i] == Field(key, value) <==> HasShape(Trim(lines[i]), table, Field(key, value));
  }

  lemma NoHeaderIff(lines: seq<string>, table: string, kinds: seq<LineKind>, lo: nat, hi: nat)
    requires Spelled(lines, table, kinds) && hi <= |lines|
    ensures NoHeaderIn(lines, table, lo, hi) <==> forall i :: lo <= i < hi ==> !kinds[i].Header?
  {
    forall i: nat | lo <= i < hi ensures HeaderAt(lines, table, i) <==> kinds[i].Header? {
      HeaderIff(lines, table, kinds, i);
    }
  }

  // The rows on some lines.
  lemma {:induction false} RowsAre(kinds: seq<LineKind>, lo: nat, hi: nat, row: (string, string))
    requires lo <= hi <= |kinds|
    ensures row in Rows(kinds, lo, hi) <==> exists i :: lo <= i < hi && kinds[i] == Field(row.0, row.1)
    decreases hi
  {
    if lo < hi {
      RowsAre(kinds, lo, hi - 1, row);
      var tail := if kinds[hi - 1].Field? then [(kinds[hi - 1].key, kinds[hi - 1].value)] else [];
      assert Rows(kinds, lo, hi) == Rows(kinds, lo, hi - 1) + tail;
      assert row in tail <==> kinds[hi - 1] == Field(row.0, row.1);
    }
  }

  lemma KeyAboveIsRow(lines: seq<string>, table: string, kinds: seq<LineKind>, p: nat, i: nat, key: string)
    requires i <= |lines| && Spelled(lines, table, kinds) && SectionStart(kinds, i) == Some(p)
    requires KeyAbove(lines, table, i, key)
    ensures HasKey(Rows(kinds, p, i), key)
  {
    var j: nat, value :| j < i && NoHeaderIn(lines, table, j, i) && RowAt(lines, j, key, value);
    HeaderIff(lines, table, kinds, p - 1);
    FieldIff(lines, table, kinds, j, key, value);
    RowsAre(kinds, p, i, (key, value));
    assert (key, value) in Rows(kinds, p, i);
  }

  lemma KeyAboveIff(lines: seq<string>, table: string, kinds: seq<LineKind>, p: nat, i: nat, key: string)
    requires i <= |lines| && Spelled(lines, table, kinds) && SectionStart(kinds, i) == Some(p)
    ensures KeyAbove(lines, table, i, key) <==> HasKey(Rows(kinds, p, i), key)
  {
    if KeyAbove(lines, table, i, key) {
      KeyAboveIsRow(lines, table, kinds, p, i, key);
    }
    if HasKey(Rows(kinds, p, i), key) {
      var k :| 0 <= k < |Rows(kinds, p, i)| && Rows(kinds, p, i)[k].0 == key;
      var row := Rows(kinds, p, i)[k];
      RowsAre(kinds, p, i, row);
      var j :| p <= j < i && kinds[j] == Field(row.0, row.1);
      FieldIff(lines, table, kinds, j, key, row.1);
      NoHeaderIff(lines, table, kinds, j, i);
    }
  }

  lemma DuplicateIff(lines: seq<string>, table: string, kinds: seq<LineKind>, i: nat)
    requires i < |lines| && Spelled(lines, table, kinds)
    ensures Wrong(lines, table, i, DuplicateKey) <==> Offence(kinds, i) == Some(DuplicateKey)
  {
    NoHeaderIff(lines, table, kinds, 0, i);
    forall key, value ensures Content(Trim(lines[i])) && IsRow(Trim(lines[i]), key, value) <==>
                              kinds[i] == Field(key, value) {
      assert kinds[i] == Field(key, value) <==> HasShape(Trim(lines[i]), table, Field(key, value));
    }
    assert HasShape(Trim(lines[i]), table, kinds[i]);
    if kinds[i].Field? && SectionStart(kinds, i).Some? {
      KeyAboveIff(lines, table, kinds, SectionStart(kinds, i).value, i, kinds[i].key);
    }
  }

  // A line that should be a row is one, or is spoilt in one of three ways.
  lemma ContentIff(lines: seq<string>, table: string, kinds: seq<LineKind>, i: nat)
    requires i < |lines| && Spelled(lines, table, kinds)
    ensures Content(Trim(lines[i])) <==> kinds[i].Field? || kinds[i].Malformed?
  {
    FirstCharacter(Trim(lines[i]), table);
    assert HasShape(Trim(lines[i]), table, kinds[i]);
  }

  lemma OffenceIff(lines: seq<string>, table: string, kinds: seq<LineKind>, i: nat, why: Why)
    requires i < |lines| && Spelled(lines, table, kinds)
    ensures Wrong(lines, table, i, why) <==> Offence(kinds, i) == Some(why)
  {
    var t := Trim(lines[i]);
    NoHeaderIff(lines, table, kinds, 0, i);
    ContentIff(lines, table, kinds, i);
    DuplicateIff(lines, table, kinds, i);
    assert HasShape(t, table, kinds[i]);
    assert kinds[i] == Stray <==> HasShape(t, table, Stray);
    assert kinds[i] == Malformed(why) <==> HasShape(t, table, Malformed(why));
  }

  lemma FittingLine(lines: seq<string>, table: string, kinds: seq<LineKind>, i: nat)
    requires i < |lines| && Spelled(lines, table, kinds) && Offence(kinds, i) == None
    ensures Fits(Trim(lines[i]), table)
  {
    assert HasShape(Trim(lines[i]), table, kinds[i]);
  }

  // Some row under the header on line p reads `key = "value"`.
  ghost predicate Says(lines: seq<string>, table: string, p: nat, key: string, value: string) {
    exists i: nat :: RowUnder(lines, table, p, i, key, value)
  }

  // Entry e is the section below the header on line e.line.
  ghost predicate IsSection(lines: seq<string>, table: string, e: RawEntry) {
    && 0 < e.line && HeaderAt(lines, table, e.line - 1)
    && forall key, value :: (key, value) in e.fields <==> Says(lines, table, e.line - 1, key, value)
  }

  // A section that begins on line p and ends above line n, at a header or at the end of the file.
  lemma SectionIs(lines: seq<string>, table: string, kinds: seq<LineKind>, p: nat, n: nat)
    requires Spelled(lines, table, kinds) && 0 < p <= n <= |lines| && kinds[p - 1].Header?
    requires forall i :: p <= i < n ==> !kinds[i].Header?
    requires n == |lines| || kinds[n].Header?
    ensures IsSection(lines, table, RawEntry(p, Rows(kinds, p, n)))
  {
    HeaderIff(lines, table, kinds, p - 1);
    forall key, value ensures (key, value) in Rows(kinds, p, n) <==> Says(lines, table, p - 1, key, value) {
      RowsAre(kinds, p, n, (key, value));
      if (key, value) in Rows(kinds, p, n) {
        var i: nat :| p <= i < n && kinds[i] == Field(key, value);
        FieldIff(lines, table, kinds, i, key, value);
        NoHeaderIff(lines, table, kinds, p, i);
        assert RowUnder(lines, table, p - 1, i, key, value);
      }
      if Says(lines, table, p - 1, key, value) {
        var i: nat :| RowUnder(lines, table, p - 1, i, key, value);
        FieldIff(lines, table, kinds, i, key, value);
        NoHeaderIff(lines, table, kinds, p, i);
        assert i < n;
      }
    }
  }

  lemma {:induction false} SectionsAre(lines: seq<string>, table: string, kinds: seq<LineKind>, n: nat, e: RawEntry)
    requires Spelled(lines, table, kinds) && n <= |lines| && (n == |lines| || kinds[n].Header?)
    requires e in Sections(kinds, n)
    ensures IsSection(lines, table, e) && e.line <= n
    decreases n
  {
    var p := SectionStart(kinds, n).value;
    if e == RawEntry(p, Rows(kinds, p, n)) {
      SectionIs(lines, table, kinds, p, n);
    } else {
      SectionsAre(lines, table, kinds, p - 1, e);
    }
  }

  lemma {:induction false} SectionAt(kinds: seq<LineKind>, n: nat, q: nat)
    requires q < n <= |kinds| && kinds[q].Header?
    ensures exists e :: e in Sections(kinds, n) && e.line == q + 1
    decreases n
  {
    var p := SectionStart(kinds, n).value;
    var above, last := Sections(kinds, p - 1), RawEntry(p, Rows(kinds, p, n));
    assert last in Sections(kinds, n);
    if q < p - 1 {
      SectionAt(kinds, p - 1, q);
      var e :| e in above && e.line == q + 1;
      assert e in Sections(kinds, n);
    }
  }

  lemma {:induction false} SectionsAscend(kinds: seq<LineKind>, n: nat)
    requires n <= |kinds|
    ensures forall e :: e in Sections(kinds, n) ==> e.line <= n
    ensures Ascending(Sections(kinds, n))
    decreases n
  {
    if SectionStart(kinds, n).Some? {
      var p := SectionStart(kinds, n).value;
      SectionsAscend(kinds, p - 1);
    }
  }

  ghost predicate Ascending(entries: seq<RawEntry>) {
    forall j, k :: 0 <= j < k < |entries| ==> entries[j].line < entries[k].line
  }

  // The entries are the sections of the file, in order.
  ghost predicate AreSections(lines: seq<string>, table: string, entries: seq<RawEntry>) {
    && (forall e :: e in entries ==> IsSection(lines, table, e) && DistinctKeys(e.fields))
    && (forall p: nat :: HeaderAt(lines, table, p) ==> exists e :: e in entries && e.line == p + 1)
    && Ascending(entries)
  }

  lemma AllSections(lines: seq<string>, table: string, kinds: seq<LineKind>)
    requires Spelled(lines, table, kinds)
    requires forall e :: e in Sections(kinds, |kinds|) ==> DistinctKeys(e.fields)
    ensures AreSections(lines, table, Sections(kinds, |kinds|))
  {
    var entries := Sections(kinds, |kinds|);
    forall e | e in entries ensures IsSection(lines, table, e) {
      SectionsAre(lines, table, kinds, |lines|, e);
    }
    forall p: nat | HeaderAt(lines, table, p) ensures exists e :: e in entries && e.line == p + 1 {
      HeaderIff(lines, table, kinds, p);
      SectionAt(kinds, |kinds|, p);
    }
    SectionsAscend(kinds, |kinds|);
  }

  ghost predicate NothingWrong(lines: seq<string>, table: string, n: nat)
    requires n <= |lines|
  {
    forall i, why :: 0 <= i < n ==> !Wrong(lines, table, i, why)
  }

  ghost predicate OnlyWrong(lines: seq<string>, table: string, i: nat, why: Why)
    requires i < |lines|
  {
    forall w :: Wrong(lines, table, i, w) <==> w == why
  }

  ghost predicate AllFit(lines: seq<string>, table: string) {
    forall i :: 0 <= i < |lines| ==> Fits(Trim(lines[i]), table)
  }

  /** The reader, said of the text.  It succeeds exactly when nothing is wrong with any line; then every line is blank,
      a comment, the header or a row, and the entries are the sections of the file.  Otherwise it reports the first
      line with which something is wrong, and what that is. */
  lemma ReadsText(src: string, table: string)
    ensures var lines := Lines(src);
            match TablesOf(src, table)
            case Ok(entries) =>
              NothingWrong(lines, table, |lines|) && AllFit(lines, table) && AreSections(lines, table, entries)
            case Err(e) =>
              && 1 <= e.line <= |lines| && NothingWrong(lines, table, e.line - 1)
              && OnlyWrong(lines, table, e.line - 1, e.why)
  {
    var lines := Lines(src);
    var kinds := Kinds(lines, HeaderOf(table));
    KindsAreSpelled(lines, table);
    if Tables(kinds, |kinds|).Ok? {
      ReadsSections(lines, table, kinds);
    } else {
      ReportsFirst(lines, table, kinds);
    }
  }

  lemma ReadsSections(lines: seq<string>, table: string, kinds: seq<LineKind>)
    requires Spelled(lines, table, kinds) && Tables(kinds, |kinds|).Ok?
    ensures NothingWrong(lines, table, |lines|) && AllFit(lines, table)
    ensures AreSections(lines, table, Tables(kinds, |kinds|).value)
  {
    StrictParse(kinds, |kinds|);
    NothingLost(kinds);
    AllSections(lines, table, kinds);
    NoneOffends(lines, table, kinds, |lines|);
    forall i | 0 <= i < |lines| ensures Fits(Trim(lines[i]), table) {
      FittingLine(lines, table, kinds, i);
    }
  }

  lemma ReportsFirst(lines: seq<string>, table: string, kinds: seq<LineKind>)
    requires Spelled(lines, table, kinds) && Tables(kinds, |kinds|).Err?
    ensures var e := Tables(kinds, |kinds|).error;
            && 1 <= e.line <= |lines| && NothingWrong(lines, table, e.line - 1)
            && OnlyWrong(lines, table, e.line - 1, e.why)
  {
    StrictParse(kinds, |kinds|);
    var e := Tables(kinds, |kinds|).error;
    NoneOffends(lines, table, kinds, e.line - 1);
    OneOffends(lines, table, kinds, e.line - 1, e.why);
  }

  lemma OneOffends(lines: seq<string>, table: string, kinds: seq<LineKind>, i: nat, why: Why)
    requires i < |lines| && Spelled(lines, table, kinds) && Offence(kinds, i) == Some(why)
    ensures OnlyWrong(lines, table, i, why)
  {
    forall w ensures Wrong(lines, table, i, w) <==> w == why {
      OffenceIff(lines, table, kinds, i, w);
    }
  }

  lemma NoneOffends(lines: seq<string>, table: string, kinds: seq<LineKind>, n: nat)
    requires n <= |lines| && Spelled(lines, table, kinds) && forall i :: 0 <= i < n ==> Offence(kinds, i) == None
    ensures NothingWrong(lines, table, n)
  {
    forall i, why | 0 <= i < n ensures !Wrong(lines, table, i, why) {
      OffenceIff(lines, table, kinds, i, why);
    }
  }
}
