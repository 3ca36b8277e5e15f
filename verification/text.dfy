/**
 * The pieces of Rust's `str` API the benchmark tables are written and read
 * with: decimal formatting and `parse::<u64>`, `trim`, `split` and `lines`.
 */
module Text {
  import opened Wrappers
  import opened Solana

  // ---------------------------------------------------------------------
  // Decimal digits.

  predicate IsDigit(c: char) {
    '0' <= c <= '9'
  }

  function DigitChar(d: nat): (c: char)
    requires d < 10
    ensures IsDigit(c)
  {
    "0123456789"[d]
  }

  function DigitValue(c: char): (d: nat)
    requires IsDigit(c)
    ensures d < 10
  {
    c as int - '0' as int
  }

  lemma DigitRoundTrip(d: nat)
    requires d < 10
    ensures DigitValue(DigitChar(d)) == d
  {
  }

  /** `format!("{}", n)`: the shortest decimal representation. */
  function Digits(n: nat): (s: string)
    ensures |s| > 0 && forall i :: 0 <= i < |s| ==> IsDigit(s[i])
    decreases n
  {
    if n < 10 then [DigitChar(n)] else Digits(n / 10) + [DigitChar(n % 10)]
  }

  predicate AllDigits(s: string) {
    forall i :: 0 <= i < |s| ==> IsDigit(s[i])
  }

  /** The value of a non-empty string of decimal digits. */
  function DigitsValue(s: string): nat
    requires |s| > 0 && AllDigits(s)
    decreases |s|
  {
    if |s| == 1 then DigitValue(s[0]) else DigitsValue(s[..|s| - 1]) * 10 + DigitValue(s[|s| - 1])
  }

  lemma {:induction false} DigitsRoundTrip(n: nat)
    ensures DigitsValue(Digits(n)) == n
    decreases n
  {
    DigitRoundTrip(n % 10);
    if n >= 10 {
      DigitsRoundTrip(n / 10);
      assert Digits(n)[..|Digits(n)| - 1] == Digits(n / 10);
    }
  }

  /** `str::parse::<u64>`: an optional `+`, then at least one decimal
      digit, and a value that fits. */
  function ParseU64(s: string): Option<U64> {
    var body := if |s| > 0 && s[0] == '+' then s[1..] else s;
    if body == [] || !AllDigits(body) then None
    else if DigitsValue(body) < U64_LIMIT then Some(DigitsValue(body))
    else None
  }

  /** Printing a `u64` and parsing it back gives the same number, with or
      without a leading `+`. */
  lemma ParseDigits(n: U64)
    ensures ParseU64(Digits(n)) == Some(n)
    ensures ParseU64("+" + Digits(n)) == Some(n)
  {
    DigitsRoundTrip(n);
    assert IsDigit(Digits(n)[0]);
    assert ("+" + Digits(n))[1..] == Digits(n);
  }

  /** Nothing is parsed from an empty string, a lone sign, a character that
      is not a digit after the optional sign, or a value of 2^64 or more. */
  lemma ParseRejects(s: string)
    ensures s == [] || s == "+" ==> ParseU64(s).None?
    ensures (exists i :: 0 < i < |s| && !IsDigit(s[i])) ==> ParseU64(s).None?
    ensures |s| > 0 && s[0] != '+' && !IsDigit(s[0]) ==> ParseU64(s).None?
    ensures |s| > 0 && AllDigits(s) && DigitsValue(s) >= U64_LIMIT ==> ParseU64(s).None?
  {
    if i :| 0 < i < |s| && !IsDigit(s[i]) {
      if s[0] == '+' {
        assert s[1..][i - 1] == s[i];
      }
    }
  }

  // ---------------------------------------------------------------------
  // `trim`.

  /** Unicode `White_Space`, which `char::is_whitespace` tests. */
  predicate IsWhitespace(c: char) {
    || ('\t' <= c <= '\r') || c == ' ' || c == '\U{85}' || c == '\U{A0}' || c == '\U{1680}'
    || ('\U{2000}' <= c <= '\U{200A}') || c == '\U{2028}' || c == '\U{2029}' || c == '\U{202F}'
    || c == '\U{205F}' || c == '\U{3000}'
  }

  function TrimStart(s: string): (r: string)
    ensures |r| <= |s| && r == s[|s| - |r|..]
    ensures r == [] || !IsWhitespace(r[0])
    decreases |s|
  {
    if s != [] && IsWhitespace(s[0]) then TrimStart(s[1..]) else s
  }

  function TrimEnd(s: string): (r: string)
    ensures |r| <= |s| && r == s[..|r|]
    ensures r == [] || !IsWhitespace(r[|r| - 1])
    decreases |s|
  {
    if s != [] && IsWhitespace(s[|s| - 1]) then TrimEnd(s[..|s| - 1]) else s
  }

  /** `str::trim`. */
  function Trim(s: string): (r: string)
    ensures r == [] || (!IsWhitespace(r[0]) && !IsWhitespace(r[|r| - 1]))
  {
    TrimEnd(TrimStart(s))
  }

  /** Neither end of `s` is whitespace. */
  predicate Trimmed(s: string) {
    s == [] || (!IsWhitespace(s[0]) && !IsWhitespace(s[|s| - 1]))
  }

  /** A trimmed string padded with one space on each side trims back to itself. */
  lemma TrimPadded(s: string)
    requires Trimmed(s)
    ensures Trim(" " + s + " ") == s
  {
    TrimStartPadded(s);
    if s == [] {
      assert s + " " == " ";
      TrimStartBlank();
    } else {
      TrimStartKeeps(s + " ", s[0]);
      TrimEndSpace(s);
      TrimEndKeeps(s);
    }
  }

  /** The leading space of a padded cell is trimmed away. */
  lemma TrimStartPadded(s: string)
    ensures TrimStart(" " + s + " ") == TrimStart(s + " ")
  {
    var p := " " + s + " ";
    assert p[0] == ' ' && p[1..] == s + " ";
  }

  /** A lone space trims to nothing. */
  lemma TrimStartBlank()
    ensures TrimStart(" ") == []
  {
    assert " "[1..] == [];
  }

  lemma TrimStartKeeps(t: string, c: char)
    requires t != [] && t[0] == c && !IsWhitespace(c)
    ensures TrimStart(t) == t
  {
  }

  lemma TrimEndSpace(t: string)
    ensures TrimEnd(t + " ") == TrimEnd(t)
  {
    assert (t + " ")[..|t|] == t;
  }

  lemma TrimEndKeeps(t: string)
    requires t != [] && !IsWhitespace(t[|t| - 1])
    ensures TrimEnd(t) == t
  {
  }

  // ---------------------------------------------------------------------
  // `split` and `lines`.

  /** The position of the first `c` in `s`. */
  function IndexOf(s: string, c: char): (i: nat)
    requires c in s
    ensures i < |s| && s[i] == c
  {
    if s[0] == c then 0
    else
      assert s == [s[0]] + s[1..];
      IndexOf(s[1..], c) + 1
  }

  /** No earlier position holds `c`. */
  lemma {:induction false} IndexOfFirst(s: string, c: char)
    requires c in s
    ensures forall j :: 0 <= j < IndexOf(s, c) ==> s[j] != c
    decreases |s|
  {
    if s[0] != c {
      assert s == [s[0]] + s[1..];
      IndexOfFirst(s[1..], c);
      assert forall j :: 1 <= j < |s| ==> s[j] == s[1..][j - 1];
    }
  }

  /** `str::split(sep)`: the pieces between separators, empty ones kept. */
  function Split(s: string, sep: char): (r: seq<string>)
    ensures |r| > 0
    decreases |s|
  {
    if sep !in s then [s]
    else
      var i := IndexOf(s, sep);
      [s[..i]] + Split(s[i + 1..], sep)
  }

  lemma SplitCons(a: string, sep: char, rest: string)
    requires sep !in a
    ensures Split(a + [sep] + rest, sep) == [a] + Split(rest, sep)
  {
    var s := a + [sep] + rest;
    assert s[|a|] == sep;
    assert forall j :: 0 <= j < |a| ==> s[j] == a[j];
    IndexOfFirst(s, sep);
    var i := IndexOf(s, sep);
    assert i == |a|;
    assert s[..i] == a;
    assert s[i + 1..] == rest;
  }

  /** The carriage return `lines` removes before a line feed. */
  function StripCR(line: string): (r: string)
    ensures |line| > 0 && line[|line| - 1] == '\r' ==> r == line[..|line| - 1]
    ensures (|line| == 0 || line[|line| - 1] != '\r') ==> r == line
  {
    if |line| > 0 && line[|line| - 1] == '\r' then line[..|line| - 1] else line
  }

  /** `str::lines`: split at each `\n` (dropping a `\r` before it); a final
      line without `\n` is kept as it is, and an ending `\n` adds no empty
      line. */
  function Lines(s: string): seq<string>
    decreases |s|
  {
    if s == [] then []
    else if '\n' !in s then [s]
    else
      var i := IndexOf(s, '\n');
      [StripCR(s[..i])] + Lines(s[i + 1..])
  }

  lemma LinesCons(a: string, rest: string)
    requires '\n' !in a
    ensures Lines(a + "\n" + rest) == [StripCR(a)] + Lines(rest)
  {
    var s := a + "\n" + rest;
    assert s[|a|] == '\n';
    assert forall j :: 0 <= j < |a| ==> s[j] == a[j];
    IndexOfFirst(s, '\n');
    var i := IndexOf(s, '\n');
    assert i == |a|;
    assert s[..i] == a;
    assert s[i + 1..] == rest;
  }

  /** Each line followed by `\n`, as a file of lines is written. */
  function JoinLines(lines: seq<string>): string
    decreases |lines|
  {
    if lines == [] then "" else lines[0] + "\n" + JoinLines(lines[1..])
  }

  lemma {:induction false} JoinLinesAppend(a: seq<string>, b: seq<string>)
    ensures JoinLines(a + b) == JoinLines(a) + JoinLines(b)
    decreases |a|
  {
    if a != [] {
      assert (a + b)[0] == a[0] && (a + b)[1..] == a[1..] + b;
      JoinLinesAppend(a[1..], b);
    } else {
      assert a + b == b;
    }
  }

  /** Every line stripped of an ending carriage return. */
  function StripAll(lines: seq<string>): (r: seq<string>)
    ensures |r| == |lines| && forall i :: 0 <= i < |lines| ==> r[i] == StripCR(lines[i])
    decreases |lines|
  {
    if lines == [] then [] else [StripCR(lines[0])] + StripAll(lines[1..])
  }

  /** The lines of joined text are the joined lines, each stripped of an
      ending carriage return, followed by the lines of what comes after. */
  lemma {:induction false} LinesOfJoin(lines: seq<string>, rest: string)
    requires forall i :: 0 <= i < |lines| ==> '\n' !in lines[i]
    ensures Lines(JoinLines(lines) + rest) == StripAll(lines) + Lines(rest)
    decreases |lines|
  {
    if lines != [] {
      var tail := JoinLines(lines[1..]) + rest;
      assert forall i :: 0 <= i < |lines[1..]| ==> lines[1..][i] == lines[i + 1];
      calc {
        Lines(JoinLines(lines) + rest);
        { assert JoinLines(lines) + rest == lines[0] + "\n" + tail; }
        Lines(lines[0] + "\n" + tail);
        { LinesCons(lines[0], tail); }
        [StripCR(lines[0])] + Lines(tail);
        { LinesOfJoin(lines[1..], rest); }
        [StripCR(lines[0])] + (StripAll(lines[1..]) + Lines(rest));
        { assert StripAll(lines) == [StripCR(lines[0])] + StripAll(lines[1..]); }
        StripAll(lines) + Lines(rest);
      }
    } else {
      assert JoinLines(lines) + rest == rest;
      assert StripAll(lines) + Lines(rest) == Lines(rest);
    }
  }

  /** The number of occurrences of `c` in `s`. */
  function Count(s: string, c: char): nat
    decreases |s|
  {
    if s == [] then 0 else Count(s[..|s| - 1], c) + (if s[|s| - 1] == c then 1 else 0)
  }

  lemma {:induction false} CountAppend(a: string, b: string, c: char)
    ensures Count(a + b, c) == Count(a, c) + Count(b, c)
    decreases |b|
  {
    if b != [] {
      assert (a + b)[..|a + b| - 1] == a + b[..|b| - 1];
      assert (a + b)[|a + b| - 1] == b[|b| - 1];
      CountAppend(a, b[..|b| - 1], c);
    } else {
      assert a + b == a;
    }
  }

  lemma {:induction false} CountAbsent(s: string, c: char)
    requires c !in s
    ensures Count(s, c) == 0
    decreases |s|
  {
    if s != [] {
      assert s == s[..|s| - 1] + [s[|s| - 1]];
      CountAbsent(s[..|s| - 1], c);
    }
  }
}
