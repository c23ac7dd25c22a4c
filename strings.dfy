/** The string operations the editor relies on: trimming, splitting into lines, decimal
    numerals. Whitespace and line boundaries are the characters that Python's
    `str.isspace` and `str.splitlines` treat as such. */
module Strings {

  /** Whitespace as `str.strip()` without arguments removes it. */
  predicate IsSpace(c: char)
  {
    var n := c as int;
    || 0x09 <= n <= 0x0D || 0x1C <= n <= 0x20
    || n == 0x85 || n == 0xA0 || n == 0x1680
    || 0x2000 <= n <= 0x200A
    || n == 0x2028 || n == 0x2029 || n == 0x202F || n == 0x205F || n == 0x3000
  }

  /** A character at which `str.splitlines()` ends a line. */
  predicate IsLineBoundary(c: char)
  {
    var n := c as int;
    || 0x0A <= n <= 0x0D || 0x1C <= n <= 0x1E
    || n == 0x85 || n == 0x2028 || n == 0x2029
  }

  /** Every character of `s` is whitespace (the empty string included). */
  predicate IsBlank(s: string)
  {
    forall i | 0 <= i < |s| :: IsSpace(s[i])
  }

  /** `s` without its leading whitespace. */
  function TrimStart(s: string): (r: string)
    ensures |r| <= |s| && r == s[|s| - |r|..]
    ensures IsBlank(s[..|s| - |r|])
    ensures r != [] ==> !IsSpace(r[0])
    decreases |s|
  {
    if s != [] && IsSpace(s[0]) then TrimStart(s[1..]) else s
  }

  /** `s` without its trailing whitespace. */
  function TrimEnd(s: string): (r: string)
    ensures |r| <= |s| && r == s[..|r|]
    ensures IsBlank(s[|r|..])
    ensures r != [] ==> !IsSpace(r[|r| - 1])
    decreases |s|
  {
    if s != [] && IsSpace(s[|s| - 1]) then
      var r := TrimEnd(s[..|s| - 1]);
      assert s[|r|..] == s[..|s| - 1][|r|..] + [s[|s| - 1]];
      r
    else s
  }

  /** `s` without leading and trailing whitespace, as `str.strip()`: `TrimStart` cuts the
      blank prefix and `TrimEnd` the blank suffix of what is left; the result neither starts
      nor ends with whitespace. */
  function Trim(s: string): (r: string)
    ensures |r| <= |s|
    ensures r == [] <==> IsBlank(s)
    ensures r != [] ==> !IsSpace(r[0]) && !IsSpace(r[|r| - 1])
  {
    var t := TrimStart(s);
    TrimStartBlank(s);
    TrimEndBlank(t);
    TrimEndFirst(t);
    TrimEnd(t)
  }

  /** Removing leading whitespace leaves a blank string exactly when the input was blank. */
  lemma TrimStartBlank(s: string)
    ensures IsBlank(TrimStart(s)) <==> IsBlank(s)
  {
    var t := TrimStart(s);
    if t == [] {
      assert s[..|s|] == s;
    } else {
      assert s[|s| - |t|] == t[0];
    }
  }

  /** Removing trailing whitespace leaves nothing exactly when the input was blank. */
  lemma TrimEndBlank(t: string)
    ensures TrimEnd(t) == [] <==> IsBlank(t)
  {
    var r := TrimEnd(t);
    if r == [] {
      assert t[|r|..] == t;
    } else {
      assert t[|r| - 1] == r[|r| - 1];
    }
  }

  /** Removing trailing whitespace keeps the first character. */
  lemma TrimEndFirst(t: string)
    ensures TrimEnd(t) != [] ==> TrimEnd(t)[0] == t[0]
  {
  }

  /** Trimming a trimmed string changes nothing. */
  lemma TrimTrimmed(s: string)
    ensures Trim(Trim(s)) == Trim(s)
  {
    TrimOfTrimmed(Trim(s));
  }

  /** A string with no whitespace at either end is its own trim. */
  lemma TrimOfTrimmed(r: string)
    requires r == [] || (!IsSpace(r[0]) && !IsSpace(r[|r| - 1]))
    ensures Trim(r) == r
  {
    TrimStartKeeps(r);
    TrimEndKeeps(r);
  }

  /** A string that does not start with whitespace has nothing to trim at the start. */
  lemma TrimStartKeeps(r: string)
    requires r == [] || !IsSpace(r[0])
    ensures TrimStart(r) == r
  {
  }

  /** A string that does not end with whitespace has nothing to trim at the end. */
  lemma TrimEndKeeps(r: string)
    requires r == [] || !IsSpace(r[|r| - 1])
    ensures TrimEnd(r) == r
  {
  }

  /** The index of the first line boundary of `s`, or `|s|` when there is none. */
  function LineEnd(s: string): (k: nat)
    ensures k <= |s|
    ensures k < |s| ==> IsLineBoundary(s[k])
    ensures forall i | 0 <= i < k :: !IsLineBoundary(s[i])
    decreases |s|
  {
    if s == [] || IsLineBoundary(s[0]) then 0 else 1 + LineEnd(s[1..])
  }

  /** `s` with every line-boundary character removed. */
  function WithoutBoundaries(s: string): string
    decreases |s|
  {
    if s == [] then []
    else (if IsLineBoundary(s[0]) then [] else [s[0]]) + WithoutBoundaries(s[1..])
  }

  /** The lines laid end to end. */
  function Concat(lines: seq<string>): string
    decreases |lines|
  {
    if lines == [] then [] else lines[0] + Concat(lines[1..])
  }

  predicate NoBoundary(line: string)
  {
    forall j | 0 <= j < |line| :: !IsLineBoundary(line[j])
  }

  lemma AppendAssoc<T>(a: seq<T>, b: seq<T>, c: seq<T>)
    ensures (a + b) + c == a + (b + c)
  {
  }

  lemma SplitThree<T>(s: seq<T>, i: nat, j: nat)
    requires i <= j <= |s|
    ensures s == s[..i] + s[i..j] + s[j..]
  {
  }

  lemma {:induction false} WithoutBoundariesAppend(a: string, b: string)
    ensures WithoutBoundaries(a + b) == WithoutBoundaries(a) + WithoutBoundaries(b)
    decreases |a|
  {
    if a == [] {
      assert a + b == b;
    } else {
      var ab := a + b;
      assert ab[0] == a[0] && ab[1..] == a[1..] + b;
      var head := if IsLineBoundary(a[0]) then [] else [a[0]];
      assert WithoutBoundaries(ab) == head + WithoutBoundaries(a[1..] + b);
      assert WithoutBoundaries(a) == head + WithoutBoundaries(a[1..]);
      WithoutBoundariesAppend(a[1..], b);
      AppendAssoc(head, WithoutBoundaries(a[1..]), WithoutBoundaries(b));
    }
  }

  lemma {:induction false} WithoutBoundariesOfLine(s: string)
    requires NoBoundary(s)
    ensures WithoutBoundaries(s) == s
    decreases |s|
  {
    if s != [] {
      WithoutBoundariesOfLine(s[1..]);
    }
  }

  lemma WithoutBoundariesOfBoundaries(s: string)
    requires 1 <= |s| <= 2 && IsLineBoundary(s[0]) && IsLineBoundary(s[|s| - 1])
    ensures WithoutBoundaries(s) == []
  {
    assert |s| == 2 ==> s[1..][1..] == [];
  }

  /** The boundary that ends the line at `k`: two characters for `\r\n`, one otherwise. */
  function BoundaryEnd(s: string, k: nat): (next: nat)
    requires k < |s|
    ensures k < next <= |s|
  {
    if s[k] == '\r' && k + 1 < |s| && s[k + 1] == '\n' then k + 2 else k + 1
  }

  /** Removing the boundaries of `s` keeps its first line and what follows the boundary
      that ends it. */
  lemma WithoutBoundariesStep(s: string, k: nat)
    requires k < |s| && k == LineEnd(s)
    ensures WithoutBoundaries(s) == s[..k] + WithoutBoundaries(s[BoundaryEnd(s, k)..])
  {
    var next := BoundaryEnd(s, k);
    SplitThree(s, k, next);
    LineBeforeEnd(s);
    BoundaryShape(s, k);
    WithoutLineAndBoundary(s[..k], s[k..next], s[next..]);
  }

  /** Everything before the first line boundary is free of boundaries. */
  lemma LineBeforeEnd(s: string)
    ensures NoBoundary(s[..LineEnd(s)])
  {
    var k := LineEnd(s);
    forall j | 0 <= j < k
      ensures !IsLineBoundary(s[..k][j])
    {
      assert s[..k][j] == s[j];
    }
  }

  /** The boundary at `k` is one or two characters, each a line boundary. */
  lemma BoundaryShape(s: string, k: nat)
    requires k < |s| && IsLineBoundary(s[k])
    ensures var boundary := s[k..BoundaryEnd(s, k)];
      && 1 <= |boundary| <= 2 && IsLineBoundary(boundary[0]) && IsLineBoundary(boundary[|boundary| - 1])
  {
    var next := BoundaryEnd(s, k);
    var boundary := s[k..next];
    assert boundary[0] == s[k];
    assert boundary[|boundary| - 1] == s[next - 1];
    assert next == k + 2 ==> s[next - 1] == '\n';
  }

  lemma WithoutLineAndBoundary(line: string, boundary: string, rest: string)
    requires NoBoundary(line)
    requires 1 <= |boundary| <= 2 && IsLineBoundary(boundary[0]) && IsLineBoundary(boundary[|boundary| - 1])
    ensures WithoutBoundaries(line + boundary + rest) == line + WithoutBoundaries(rest)
  {
    WithoutBoundariesAppend(line + boundary, rest);
    WithoutBoundariesAppend(line, boundary);
    WithoutBoundariesOfLine(line);
    WithoutBoundariesOfBoundaries(boundary);
    assert line + [] == line;
  }

  /** The lines of `s`, as `str.splitlines()`: a line ends at any line boundary, `\r\n`
      counts as one boundary, and a boundary at the very end starts no further line.
      The lines hold no boundary and together hold every other character in order. */
  function SplitLines(s: string): (lines: seq<string>)
    ensures forall i | 0 <= i < |lines| :: NoBoundary(lines[i])
    ensures Concat(lines) == WithoutBoundaries(s)
    ensures lines == [] <==> s == []
    decreases |s|
  {
    if s == [] then []
    else
      var k := LineEnd(s);
      if k == |s| then
        WithoutBoundariesOfLine(s);
        [s]
      else
        var rest := SplitLines(s[BoundaryEnd(s, k)..]);
        WithoutBoundariesStep(s, k);
        assert ([s[..k]] + rest)[1..] == rest;
        [s[..k]] + rest
  }

  /** One boundary: a single boundary character, or the pair `\r\n`. Inside `s`, a lone
      `\r` is one boundary only when no `\n` follows it in `rest`. */
  predicate IsOneBoundary(boundary: string, rest: string)
  {
    || boundary == "\r\n"
    || (|boundary| == 1 && IsLineBoundary(boundary[0])
        && !(boundary[0] == '\r' && rest != [] && rest[0] == '\n'))
  }

  /** The first line boundary after a line without boundaries is where that line ends. */
  lemma LineEndAfterLine(line: string, tail: string)
    requires NoBoundary(line) && tail != [] && IsLineBoundary(tail[0])
    ensures LineEnd(line + tail) == |line|
  {
    var s := line + tail;
    assert forall i | 0 <= i < |line| :: s[i] == line[i];
    assert s[|line|] == tail[0];
  }

  /** Together with `SplitLinesOfLine` and the empty case of `SplitLines`, this characterises the split: a line
      followed by one boundary is a line of its own, and the split goes on after the
      boundary. A boundary at the very end therefore adds no further line, and `\r\n`
      ends one line only. */
  lemma SplitLinesAtBoundary(line: string, boundary: string, rest: string)
    requires NoBoundary(line) && IsOneBoundary(boundary, rest)
    ensures SplitLines(line + boundary + rest) == [line] + SplitLines(rest)
  {
    var s, k := line + boundary + rest, |line|;
    assert s == line + (boundary + rest);
    LineEndAfterLine(line, boundary + rest);
    assert s[k] == boundary[0];
    assert s[..k] == line;
    if boundary == "\r\n" {
      assert s[k + 1] == '\n';
    } else if k + 1 < |s| {
      assert s[k + 1] == rest[0];
    }
    assert BoundaryEnd(s, k) == k + |boundary|;
    assert s[k + |boundary|..] == rest;
  }

  /** A last line without boundaries is a single line. */
  lemma SplitLinesOfLine(line: string)
    requires NoBoundary(line) && line != []
    ensures SplitLines(line) == [line]
  {
    assert LineEnd(line) == |line| by {
      assert NoBoundary(line);
    }
  }

  /** Every line boundary is also whitespace. */
  lemma BoundaryIsSpace(c: char)
    requires IsLineBoundary(c)
    ensures IsSpace(c)
  {
  }

  /** A string that starts with a non-space character has a first line that is not blank. */
  lemma FirstLineNotBlank(s: string)
    requires s != [] && !IsSpace(s[0])
    ensures !IsBlank(SplitLines(s)[0])
  {
    if IsLineBoundary(s[0]) {
      BoundaryIsSpace(s[0]);
    }
    var k := LineEnd(s);
    assert k >= 1;
    assert SplitLines(s)[0] == s[..k];
    assert s[..k][0] == s[0];
  }

  predicate IsDigits(s: string)
  {
    forall i | 0 <= i < |s| :: '0' <= s[i] <= '9'
  }

  /** The number a string of decimal digits denotes. */
  function DecimalValue(s: string): nat
    requires IsDigits(s)
    decreases |s|
  {
    if s == [] then 0
    else DecimalValue(s[..|s| - 1]) * 10 + (s[|s| - 1] as int - '0' as int)
  }

  function DigitChar(d: nat): (c: char)
    requires d < 10
    ensures '0' <= c <= '9' && c as int - '0' as int == d
  {
    (d + '0' as int) as char
  }

  /** The decimal numeral of `n`, as `str(n)`: digits only, no leading zero, and it
      denotes `n`. */
  function Decimal(n: nat): (s: string)
    ensures |s| >= 1 && IsDigits(s)
    ensures |s| == 1 || s[0] != '0'
    ensures n > 0 ==> s[0] != '0'
    ensures DecimalValue(s) == n
    decreases n
  {
    if n < 10 then [DigitChar(n)]
    else
      var front := Decimal(n / 10);
      var s := front + [DigitChar(n % 10)];
      assert s[..|s| - 1] == front;
      s
  }
}
