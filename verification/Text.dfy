/** The few string operations of the Rust standard library that `coverage.rs` relies on. */
module Text {
  import opened Wrappers
  import opened Seqs

  // `char::is_whitespace`: the code points with the Unicode property White_Space.
  predicate IsSpace(c: char) {
    var n := c as int;
    9 <= n <= 13 || n == 32 || n == 0x85 || n == 0xA0 || n == 0x1680 || 0x2000 <= n <= 0x200A ||
    n == 0x2028 || n == 0x2029 || n == 0x202F || n == 0x205F || n == 0x3000
  }

  predicate IsIdent(c: char) {
    'a' <= c <= 'z' || 'A' <= c <= 'Z' || '0' <= c <= '9' || c == '_'
  }

  const LOWER := "abcdefghijklmnopqrstuvwxyz"
  const UPPER := "ABCDEFGHIJKLMNOPQRSTUVWXYZ"
  const DIGITS := "0123456789"

  lemma LowerIff(c: char)
    ensures 'a' <= c <= 'z' <==> c in LOWER
  {
    if 'a' <= c <= 'z' {
      assert LOWER[c as int - 'a' as int] == c;
    }
  }

  lemma UpperIff(c: char)
    ensures 'A' <= c <= 'Z' <==> c in UPPER
  {
    if 'A' <= c <= 'Z' {
      assert UPPER[c as int - 'A' as int] == c;
    }
  }

  lemma DigitIff(c: char)
    ensures '0' <= c <= '9' <==> c in DIGITS
  {
    if '0' <= c <= '9' {
      assert DIGITS[c as int - '0' as int] == c;
    }
  }

  /** The characters of an identifier: the letters, the digits and the underscore. */
  lemma IdentIff(c: char)
    ensures IsIdent(c) <==> c in LOWER || c in UPPER || c in DIGITS || c == '_'
  {
    LowerIff(c);
    UpperIff(c);
    DigitIff(c);
  }

  function TrimStart(s: string): string {
    if s != [] && IsSpace(s[0]) then TrimStart(s[1..]) else s
  }

  function TrimEnd(s: string): string {
    if s != [] && IsSpace(s[|s| - 1]) then TrimEnd(s[..|s| - 1]) else s
  }

  // `str::trim`.
  function Trim(s: string): string {
    TrimEnd(TrimStart(s))
  }

  ghost predicate AllSpace(s: string) {
    forall c :: c in s ==> IsSpace(c)
  }

  // Nothing to trim.
  ghost predicate Tight(s: string) {
    s == [] || (!IsSpace(s[0]) && !IsSpace(s[|s| - 1]))
  }

  lemma {:induction false} TrimStartIs(a: string, s: string)
    requires AllSpace(a) && (s == [] || !IsSpace(s[0]))
    ensures TrimStart(a + s) == s
  {
    if a == [] {
      assert a + s == s;
    } else {
      assert (a + s)[1..] == a[1..] + s;
      TrimStartIs(a[1..], s);
    }
  }

  lemma {:induction false} TrimEndIs(s: string, b: string)
    requires AllSpace(b) && (s == [] || !IsSpace(s[|s| - 1]))
    ensures TrimEnd(s + b) == s
  {
    if b == [] {
      assert s + b == s;
    } else {
      assert (s + b)[..|s + b| - 1] == s + b[..|b| - 1];
      assert (s + b)[|s + b| - 1] == b[|b| - 1];
      TrimEndIs(s, b[..|b| - 1]);
    }
  }

  lemma {:induction false} TrimStartSplits(s: string) returns (a: string)
    ensures AllSpace(a) && s == a + TrimStart(s) && (TrimStart(s) == [] || !IsSpace(TrimStart(s)[0]))
  {
    if s != [] && IsSpace(s[0]) {
      var rest := TrimStartSplits(s[1..]);
      a := [s[0]] + rest;
      Assoc([s[0]], rest, TrimStart(s[1..]));
      assert s == [s[0]] + s[1..];
    } else {
      a := [];
    }
  }

  lemma {:induction false} TrimEndSplits(s: string) returns (b: string)
    ensures AllSpace(b) && s == TrimEnd(s) + b && (TrimEnd(s) == [] || !IsSpace(TrimEnd(s)[|TrimEnd(s)| - 1]))
  {
    if s != [] && IsSpace(s[|s| - 1]) {
      var rest := TrimEndSplits(s[..|s| - 1]);
      b := rest + [s[|s| - 1]];
      Assoc(TrimEnd(s), rest, [s[|s| - 1]]);
      assert s == s[..|s| - 1] + [s[|s| - 1]];
    } else {
      b := [];
    }
  }

  // `s` is t between white space.
  ghost predicate Padded(s: string, a: string, t: string, b: string) {
    s == a + t + b && AllSpace(a) && AllSpace(b)
  }

  lemma TrimSplits(s: string) returns (a: string, b: string)
    ensures Padded(s, a, Trim(s), b) && Tight(Trim(s))
  {
    a := TrimStartSplits(s);
    b := TrimEndSplits(TrimStart(s));
    Assoc(a, Trim(s), b);
    if Trim(s) != [] {
      assert TrimStart(s)[0] == Trim(s)[0];
    }
  }

  lemma PaddedTrims(s: string, a: string, t: string, b: string)
    requires Padded(s, a, t, b) && Tight(t)
    ensures Trim(s) == t
  {
    if t == [] {
      assert s == (a + b) + [];
      TrimStartIs(a + b, []);
    } else {
      assert s == a + (t + b);
      TrimStartIs(a, t + b);
      TrimEndIs(t, b);
    }
  }

  /** Trimming takes the white space off both ends, and no more. */
  lemma TrimIff(s: string, t: string)
    ensures Trim(s) == t <==> Tight(t) && exists a, b :: Padded(s, a, t, b)
  {
    var a, b := TrimSplits(s);
    if Tight(t) && exists c, d :: Padded(s, c, t, d) {
      var c, d :| Padded(s, c, t, d);
      PaddedTrims(s, c, t, d);
    }
  }

  lemma {:induction false} TrimStartKeeps(s: string, c: char)
    requires c in TrimStart(s)
    ensures c in s
  {
    if s != [] && IsSpace(s[0]) {
      TrimStartKeeps(s[1..], c);
    }
  }

  lemma {:induction false} TrimEndKeeps(s: string, c: char)
    requires c in TrimEnd(s)
    ensures c in s
  {
    if s != [] && IsSpace(s[|s| - 1]) {
      TrimEndKeeps(s[..|s| - 1], c);
    }
  }

  lemma TrimKeeps(s: string, c: char)
    requires c in Trim(s)
    ensures c in s
  {
    TrimEndKeeps(TrimStart(s), c);
    TrimStartKeeps(s, c);
  }

  // `str::find` of one character.
  function FindChar(s: string, c: char): (r: Option<nat>)
    ensures r.Some? ==> r.value < |s|
  {
    if s == [] then None
    else if s[0] == c then Some(0)
    else
      match FindChar(s[1..], c)
      case None => None
      case Some(i) => Some(i + 1)
  }

  lemma {:induction false} FindCharSpec(s: string, c: char)
    ensures match FindChar(s, c)
            case Some(i) => s[i] == c && c !in s[..i]
            case None => c !in s
  {
    if s != [] && s[0] != c {
      FindCharSpec(s[1..], c);
      if FindChar(s, c).Some? {
        var i := FindChar(s[1..], c).value;
        assert s[..i + 1] == [s[0]] + s[1..][..i];
      }
    }
  }

  lemma {:induction false} FindCharAt(a: string, c: char, b: string)
    requires c !in a
    ensures FindChar(a + [c] + b, c) == Some(|a|)
    decreases |a|
  {
    if a != [] {
      assert (a + [c] + b)[1..] == a[1..] + [c] + b;
      FindCharAt(a[1..], c, b);
    }
  }

  function StripCr(line: string): string {
    if line != [] && line[|line| - 1] == '\r' then line[..|line| - 1] else line
  }

  // `str::lines`: a line ends at "\n" or "\r\n"; a last line without one keeps its carriage return.
  function Lines(src: string): seq<string>
    decreases |src|
  {
    if src == [] then []
    else
      match FindChar(src, '\n')
      case None => [src]
      case Some(i) => [StripCr(src[..i])] + Lines(src[i + 1..])
  }

  lemma LinesCons(line: string, rest: string)
    requires '\n' !in line
    ensures Lines(line + "\n" + rest) == [StripCr(line)] + Lines(rest)
  {
    FindCharAt(line, '\n', rest);
    var s := line + "\n" + rest;
    assert s == line + ['\n'] + rest;
    assert s[..|line|] == line && s[|line| + 1..] == rest;
  }

  /** A line ends at a newline or at a carriage return and a newline, a last line without one is a line as it is, and
      there is none after the last end. */
  lemma LineEndings(line: string, rest: string)
    requires '\n' !in line
    ensures line == [] || line[|line| - 1] != '\r' ==> Lines(line + "\n" + rest) == [line] + Lines(rest)
    ensures Lines(line + "\r\n" + rest) == [line] + Lines(rest)
    ensures Lines(line) == if line == [] then [] else [line]
  {
    LinesCons(line, rest);
    CrLf(line, rest);
    FindCharSpec(line, '\n');
  }

  lemma CrLf(line: string, rest: string)
    requires '\n' !in line
    ensures Lines(line + "\r\n" + rest) == [line] + Lines(rest)
  {
    var longer := line + "\r";
    LinesCons(longer, rest);
    assert longer + "\n" + rest == line + "\r\n" + rest;
    assert StripCr(longer) == line;
  }

  lemma {:induction false} LinesConcat(a: string, b: string)
    requires a == [] || a[|a| - 1] == '\n'
    ensures Lines(a + b) == Lines(a) + Lines(b)
    decreases |a|
  {
    if a == [] {
      assert a + b == b;
    } else {
      FindCharSpec(a, '\n');
      var i := FindChar(a, '\n').value;
      var line, rest := a[..i], a[i + 1..];
      assert a == line + "\n" + rest && a + b == line + "\n" + (rest + b);
      LinesCons(line, rest);
      LinesCons(line, rest + b);
      LinesConcat(rest, b);
      Assoc([StripCr(line)], Lines(rest), Lines(b));
    }
  }

  lemma {:induction false} LinesHaveNoNewline(src: string)
    ensures forall i :: 0 <= i < |Lines(src)| ==> '\n' !in Lines(src)[i]
    decreases |src|
  {
    FindCharSpec(src, '\n');
    if src != [] && FindChar(src, '\n').Some? {
      LinesHaveNoNewline(src[FindChar(src, '\n').value + 1..]);
    }
  }
}
