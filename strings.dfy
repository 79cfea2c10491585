/**
  The Python `str` operations the scraper relies on, written out over `seq<char>`:
  whitespace splitting, splitting on one character, joining, substring tests,
  `splitlines`, ASCII lower-casing, decimal rendering and the punctuation strip
  done before the name pattern is tried.
*/
module Strings {

  /** Python's `str.isspace()`: the characters `str.split()` with no argument splits on. */
  predicate IsSpace(c: char) {
    c == ' ' || ('\t' <= c <= '\r') || ('\U{1c}' <= c <= '\U{1f}') || c == '\U{85}' || c == '\U{a0}'
    || c == '\U{1680}' || ('\U{2000}' <= c <= '\U{200a}') || c == '\U{2028}' || c == '\U{2029}'
    || c == '\U{202f}' || c == '\U{205f}' || c == '\U{3000}'
  }

  /** The line boundaries of Python's `str.splitlines()` ("\r\n" counts as one). */
  predicate IsLineBreak(c: char) {
    ('\n' <= c <= '\r') || ('\U{1c}' <= c <= '\U{1e}') || c == '\U{85}' || c == '\U{2028}' || c == '\U{2029}'
  }

  predicate IsAsciiUpper(c: char) { 'A' <= c <= 'Z' }

  predicate IsAsciiLetter(c: char) { IsAsciiUpper(c) || 'a' <= c <= 'z' }

  function LowerChar(c: char): char {
    if IsAsciiUpper(c) then (c as int + 32) as char else c
  }

  /** `s.lower()`, restricted to the ASCII letters. */
  function Lower(s: string): (r: string)
    ensures |r| == |s|
    ensures forall i :: 0 <= i < |s| ==> r[i] == LowerChar(s[i])
  {
    seq(|s|, i requires 0 <= i < |s| => LowerChar(s[i]))
  }

  /** `sub in s`: `sub` occurs as a contiguous run of `s`. */
  predicate Contains(s: string, sub: string)
    decreases |s|
  {
    |sub| <= |s| && (s[..|sub|] == sub || Contains(s[1..], sub))
  }

  /** The end of the run of non-whitespace characters that starts at `i`. */
  function TokenEnd(s: string, i: nat): (k: nat)
    requires i <= |s|
    ensures i <= k <= |s|
    ensures forall j :: i <= j < k ==> !IsSpace(s[j])
    ensures k < |s| ==> IsSpace(s[k])
    decreases |s| - i
  {
    if i == |s| || IsSpace(s[i]) then i else TokenEnd(s, i + 1)
  }

  /** A token of `str.split()`: non-empty and free of whitespace. */
  predicate IsToken(t: string) {
    t != "" && forall j :: 0 <= j < |t| ==> !IsSpace(t[j])
  }

  /** `s.split()`: the maximal runs of non-whitespace characters, in order. */
  function Tokens(s: string): (r: seq<string>)
    ensures forall t :: t in r ==> IsToken(t)
    ensures r == [] <==> forall j :: 0 <= j < |s| ==> IsSpace(s[j])
    decreases |s|
  {
    if s == [] then []
    else if IsSpace(s[0]) then Tokens(s[1..])
    else
      var k := TokenEnd(s, 0);
      [s[..k]] + Tokens(s[k..])
  }

  /** The first position of `c` in `s`, or `|s|` when there is none. */
  function IndexOf(s: string, c: char): (i: nat)
    ensures i <= |s|
    ensures i < |s| ==> s[i] == c
    ensures forall j :: 0 <= j < i ==> s[j] != c
  {
    if s == [] then 0 else if s[0] == c then 0 else 1 + IndexOf(s[1..], c)
  }

  /** `s.split(c)` for a one-character separator; never empty (`"".split(";") == [""]`). */
  function SplitOn(s: string, c: char): (r: seq<string>)
    ensures |r| >= 1
    decreases |s|
  {
    var i := IndexOf(s, c);
    if i == |s| then [s] else [s[..i]] + SplitOn(s[i + 1..], c)
  }

  /** `sep.join(parts)`. */
  function Join(sep: string, parts: seq<string>): string
    decreases |parts|
  {
    if |parts| == 0 then ""
    else if |parts| == 1 then parts[0]
    else parts[0] + sep + Join(sep, parts[1..])
  }

  /** The end of the line that starts at `i`. */
  function LineEnd(s: string, i: nat): (k: nat)
    requires i <= |s|
    ensures i <= k <= |s|
    ensures forall j :: i <= j < k ==> !IsLineBreak(s[j])
    ensures k < |s| ==> IsLineBreak(s[k])
    decreases |s| - i
  {
    if i == |s| || IsLineBreak(s[i]) then i else LineEnd(s, i + 1)
  }

  /** `s.splitlines()`: no trailing empty line, "\r\n" is a single boundary. */
  function SplitLines(s: string): (r: seq<string>)
    ensures forall l :: l in r ==> forall j :: 0 <= j < |l| ==> !IsLineBreak(l[j])
    ensures r == [] <==> s == []
    decreases |s|
  {
    if s == [] then []
    else
      var k := LineEnd(s, 0);
      if k == |s| then [s]
      else if s[k] == '\r' && k + 1 < |s| && s[k + 1] == '\n' then [s[..k]] + SplitLines(s[k + 2..])
      else [s[..k]] + SplitLines(s[k + 1..])
  }

  function DigitChar(d: nat): (c: char)
    requires d < 10
    ensures '0' <= c <= '9'
  {
    ('0' as int + d) as char
  }

  predicate IsDigits(s: string) {
    forall j :: 0 <= j < |s| ==> '0' <= s[j] <= '9'
  }

  /** The number a string of decimal digits denotes, the last digit the least significant. */
  function DecimalValue(s: string): nat
    requires IsDigits(s)
  {
    if s == [] then 0 else 10 * DecimalValue(s[..|s| - 1]) + (s[|s| - 1] as int - '0' as int)
  }

  /** `str(n)` for a natural number: its decimal digits, without leading zeros. */
  function NatToString(n: nat): (r: string)
    ensures r != "" && IsDigits(r)
    ensures DecimalValue(r) == n
    ensures r[0] == '0' ==> r == "0"
    decreases n
  {
    if n < 10 then [DigitChar(n)]
    else
      var init := NatToString(n / 10);
      var r := init + [DigitChar(n % 10)];
      assert r[..|r| - 1] == init;
      r
  }

  /** `re.sub(r"\.|,", "", s)`: every '.' and ',' removed, everything else kept in order. */
  function StripDotsCommas(s: string): (r: string)
    ensures '.' !in r && ',' !in r
    ensures |r| <= |s|
    ensures forall c :: c in r <==> c in s && c != '.' && c != ','
    ensures '.' !in s && ',' !in s ==> r == s
  {
    if s == [] then []
    else (if s[0] == '.' || s[0] == ',' then [] else [s[0]]) + StripDotsCommas(s[1..])
  }

  // ---------------------------------------------------------------------------
  // Lemmas

  /** Joining a non-empty list with one more part puts the separator in front of it. */
  lemma {:induction false} JoinSnoc(sep: string, parts: seq<string>, v: string)
    requires |parts| > 0
    ensures Join(sep, parts + [v]) == Join(sep, parts) + sep + v
    decreases |parts|
  {
    if |parts| == 1 {
      assert parts + [v] == [parts[0], v];
      assert ([parts[0], v])[1..] == [v];
    } else {
      assert (parts + [v])[1..] == parts[1..] + [v];
      JoinSnoc(sep, parts[1..], v);
    }
  }

  /** The join of non-empty parts is empty exactly when there are no parts. */
  lemma JoinEmptyIff(sep: string, parts: seq<string>)
    requires forall p :: p in parts ==> p != ""
    ensures Join(sep, parts) == "" <==> parts == []
  {
    if |parts| > 0 {
      assert parts[0] in parts;
      assert Join(sep, parts)[..|parts[0]|] == parts[0];
    }
  }

  lemma IndexOfAfter(p: string, c: char, rest: string)
    requires c !in p
    ensures IndexOf(p + [c] + rest, c) == |p|
  {
    var s := p + [c] + rest;
    assert s[|p|] == c;
    assert forall j :: 0 <= j < |p| ==> s[j] == p[j] && p[j] in p;
  }

  /**
    Splitting a `c`-joined list of `c`-free parts on `c` gives the parts back:
    the inverse of `Join` used for the `;`-joined contact fields.
  */
  lemma {:induction false} SplitJoin(parts: seq<string>, c: char)
    requires |parts| > 0
    requires forall p :: p in parts ==> c !in p
    ensures SplitOn(Join([c], parts), c) == parts
    decreases |parts|
  {
    assert parts[0] in parts;
    if |parts| == 1 {
      SplitOnFree(parts[0], c);
    } else {
      var rest := Join([c], parts[1..]);
      assert Join([c], parts) == parts[0] + [c] + rest;
      SplitOnCons(parts[0], c, rest);
      forall p | p in parts[1..] ensures c !in p {
        assert p in parts;
      }
      SplitJoin(parts[1..], c);
      assert parts == [parts[0]] + parts[1..];
    }
  }

  /** A string without the separator splits into itself alone. */
  lemma SplitOnFree(s: string, c: char)
    requires c !in s
    ensures SplitOn(s, c) == [s]
  {
    assert forall j :: 0 <= j < |s| ==> s[j] in s;
  }

  /** A separator-free head, the separator, then the rest: the head is the first part. */
  lemma SplitOnCons(p: string, c: char, rest: string)
    requires c !in p
    ensures SplitOn(p + [c] + rest, c) == [p] + SplitOn(rest, c)
  {
    IndexOfAfter(p, c, rest);
    var s := p + [c] + rest;
    assert s[..|p|] == p;
    assert s[|p| + 1..] == rest;
  }

  /** A non-empty whitespace-free string is its own single token. */
  lemma TokensOfToken(t: string)
    requires IsToken(t)
    ensures Tokens(t) == [t]
  {
    assert !IsSpace(t[0]);
    var k := TokenEnd(t, 0);
    assert k == |t|;
    assert t[..k] == t && t[k..] == [];
  }

  /** Stripping distributes over concatenation: it works one character at a time. */
  lemma {:induction false} StripDotsCommasAppend(a: string, b: string)
    ensures StripDotsCommas(a + b) == StripDotsCommas(a) + StripDotsCommas(b)
    decreases |a|
  {
    if a == [] {
      assert a + b == b;
    } else {
      assert (a + b)[0] == a[0] && (a + b)[1..] == a[1..] + b;
      StripDotsCommasAppend(a[1..], b);
      assert StripDotsCommas(a + b) == (if a[0] == '.' || a[0] == ',' then [] else [a[0]]) + StripDotsCommas(a[1..] + b);
    }
  }

  /** A token followed by whitespace (or nothing) is the first token. */
  lemma TokensCons(t: string, rest: string)
    requires IsToken(t)
    requires rest == [] || IsSpace(rest[0])
    ensures Tokens(t + rest) == [t] + Tokens(rest)
  {
    var s := t + rest;
    assert s[0] == t[0];
    assert forall j :: 0 <= j < |t| ==> s[j] == t[j];
    assert |rest| > 0 ==> s[|t|] == rest[0];
    var k := TokenEnd(s, 0);
    assert k == |t|;
    assert s[..k] == t && s[k..] == rest;
  }

  /** Splitting a space-joined list of tokens on whitespace gives the tokens back. */
  lemma {:induction false} TokensOfJoin(ts: seq<string>)
    requires forall t :: t in ts ==> IsToken(t)
    ensures Tokens(Join(" ", ts)) == ts
    decreases |ts|
  {
    if |ts| == 1 {
      TokensOfToken(ts[0]);
    } else if |ts| > 1 {
      assert ts[0] in ts;
      forall t | t in ts[1..] ensures IsToken(t) {
        assert t in ts;
      }
      var rest := Join(" ", ts[1..]);
      var tail := " " + rest;
      assert Join(" ", ts) == ts[0] + tail;
      TokensCons(ts[0], tail);
      assert tail[1..] == rest;
      assert Tokens(tail) == Tokens(rest);
      TokensOfJoin(ts[1..]);
      assert ts == [ts[0]] + ts[1..];
    }
  }

  /** A join ends with its last part. */
  lemma {:induction false} JoinEndsWithLast(sep: string, parts: seq<string>)
    requires |parts| > 0
    ensures |Join(sep, parts)| >= |parts[|parts| - 1]|
    decreases |parts|
  {
    if |parts| > 1 {
      JoinEndsWithLast(sep, parts[1..]);
    }
  }

  /** A line-break-free line followed by "\n" and more text is the first line. */
  lemma SplitLinesCons(l: string, rest: string)
    requires forall j :: 0 <= j < |l| ==> !IsLineBreak(l[j])
    requires rest != []
    ensures SplitLines(l + "\n" + rest) == [l] + SplitLines(rest)
  {
    var s := l + "\n" + rest;
    assert forall j :: 0 <= j < |l| ==> s[j] == l[j];
    assert s[|l|] == '\n';
    var k := LineEnd(s, 0);
    assert k == |l|;
    assert s[..k] == l && s[k + 1..] == rest;
  }

  /**
    The inverse of `splitlines()` on text whose lines are joined by "\n": the lines
    come back, provided the last one is not empty (a trailing break adds no line).
  */
  lemma {:induction false} SplitLinesOfJoin(lines: seq<string>)
    requires |lines| > 0 && lines[|lines| - 1] != ""
    requires forall l :: l in lines ==> forall j :: 0 <= j < |l| ==> !IsLineBreak(l[j])
    ensures SplitLines(Join("\n", lines)) == lines
    decreases |lines|
  {
    assert lines[0] in lines;
    if |lines| == 1 {
      var s := lines[0];
      assert LineEnd(s, 0) == |s|;
    } else {
      forall l | l in lines[1..] ensures forall j :: 0 <= j < |l| ==> !IsLineBreak(l[j]) {
        assert l in lines;
      }
      var rest := Join("\n", lines[1..]);
      assert Join("\n", lines) == lines[0] + "\n" + rest;
      assert lines[1..][|lines[1..]| - 1] == lines[|lines| - 1];
      JoinEndsWithLast("\n", lines[1..]);
      assert rest != [];
      SplitLinesCons(lines[0], rest);
      SplitLinesOfJoin(lines[1..]);
      assert lines == [lines[0]] + lines[1..];
    }
  }
}
