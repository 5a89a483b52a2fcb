/** The parts of Python's `str` that the modelled code relies on: stripping,
    ASCII lower-casing, `splitlines`, `split`, `join`, `replace`, `in`, `repr`
    and decimal formatting of integers. */
module Strings {
  import opened Wrappers

  /** The characters `str.isspace()` and the regular-expression class `\s` accept. */
  const Whitespace: set<char> := {
    ' ', '\t', '\n', '\U{000B}', '\U{000C}', '\r', '\U{001C}', '\U{001D}', '\U{001E}', '\U{001F}',
    '\U{0085}', '\U{00A0}', '\U{1680}', '\U{2000}', '\U{2001}', '\U{2002}', '\U{2003}', '\U{2004}',
    '\U{2005}', '\U{2006}', '\U{2007}', '\U{2008}', '\U{2009}', '\U{200A}', '\U{2028}', '\U{2029}',
    '\U{202F}', '\U{205F}', '\U{3000}'
  }

  /** The line boundaries `str.splitlines()` splits on (`\r\n` counts as one). */
  const LineBreaks: set<char> := {
    '\n', '\r', '\U{000B}', '\U{000C}', '\U{001C}', '\U{001D}', '\U{001E}', '\U{0085}', '\U{2028}', '\U{2029}'
  }

  predicate IsSpace(c: char) {
    c in Whitespace
  }

  predicate NoLineBreak(s: string) {
    forall i :: 0 <= i < |s| ==> s[i] !in LineBreaks
  }

  predicate IsBlank(s: string) {
    forall i :: 0 <= i < |s| ==> IsSpace(s[i])
  }

  // ---------- strip ----------

  /** `s.lstrip(chars)`: drops the longest prefix made of `cs`. */
  function LStripChars(s: string, cs: set<char>): string {
    if s != [] && s[0] in cs then LStripChars(s[1..], cs) else s
  }

  /** `s.rstrip(chars)`: drops the longest suffix made of `cs`. */
  function RStripChars(s: string, cs: set<char>): string {
    if s != [] && s[|s| - 1] in cs then RStripChars(s[..|s| - 1], cs) else s
  }

  /** `lstrip` leaves a suffix of `s` that does not start with a character of
      `cs`, and removes only characters of `cs`. */
  lemma {:induction false} LStripCharsSuffix(s: string, cs: set<char>)
    ensures var r := LStripChars(s, cs);
      |r| <= |s| && r == s[|s| - |r|..] && (r != [] ==> r[0] !in cs)
      && forall i :: 0 <= i < |s| - |r| ==> s[i] in cs
    decreases |s|
  {
    if s != [] && s[0] in cs {
      LStripCharsSuffix(s[1..], cs);
      assert forall i :: 1 <= i < |s| ==> s[i] == s[1..][i - 1];
    }
  }

  /** `rstrip` leaves a prefix of `s` that does not end with a character of `cs`,
      and removes only characters of `cs`. */
  lemma {:induction false} RStripCharsPrefix(s: string, cs: set<char>)
    ensures var r := RStripChars(s, cs);
      |r| <= |s| && r == s[..|r|] && (r != [] ==> r[|r| - 1] !in cs)
      && forall i :: |r| <= i < |s| ==> s[i] in cs
    decreases |s|
  {
    if s != [] && s[|s| - 1] in cs {
      RStripCharsPrefix(s[..|s| - 1], cs);
    }
  }

  /** `s.strip(chars)`. */
  function StripChars(s: string, cs: set<char>): string {
    RStripChars(LStripChars(s, cs), cs)
  }

  function LStrip(s: string): string {
    LStripChars(s, Whitespace)
  }

  function RStrip(s: string): string {
    RStripChars(s, Whitespace)
  }

  /** `s.strip()`. */
  function Strip(s: string): string {
    StripChars(s, Whitespace)
  }

  /** `s.strip(chars)` is a slice of `s` with no character of `cs` at either end. */
  lemma {:induction false} StripCharsSlice(s: string, cs: set<char>)
    ensures var r := StripChars(s, cs);
      var a := |s| - |LStripChars(s, cs)|;
      0 <= a && a + |r| <= |s| && r == s[a..a + |r|]
      && (r != [] ==> r[0] !in cs && r[|r| - 1] !in cs)
      && (forall i :: 0 <= i < a ==> s[i] in cs)
      && (forall i :: a + |r| <= i < |s| ==> s[i] in cs)
  {
    var l := LStripChars(s, cs);
    LStripCharsSuffix(s, cs);
    RStripCharsPrefix(l, cs);
    var r := RStripChars(l, cs);
    var a := |s| - |l|;
    assert forall i :: a + |r| <= i < |s| ==> s[i] == l[i - a];
    if r != [] {
      assert r[0] == l[0];
    }
  }

  /** `s.strip()` is empty exactly when `s` is blank. */
  lemma {:induction false} StripEmptyIffBlank(s: string)
    ensures Strip(s) == "" <==> IsBlank(s)
  {
    StripCharsSlice(s, Whitespace);
    var a := |s| - |LStrip(s)|;
    if Strip(s) == "" {
      assert forall i :: 0 <= i < |s| ==> (i < a || a <= i) && IsSpace(s[i]);
    } else {
      assert !IsSpace(s[a]);
    }
  }

  /** A text with no whitespace at either end, as `strip()` leaves it. */
  predicate Stripped(s: string) {
    s == [] || (!IsSpace(s[0]) && !IsSpace(s[|s| - 1]))
  }

  lemma {:induction false} LStripBlankPrefix(pre: string, rest: string)
    requires IsBlank(pre) && (rest == [] || !IsSpace(rest[0]))
    ensures LStrip(pre + rest) == rest
    decreases |pre|
  {
    if pre != [] {
      assert (pre + rest)[1..] == pre[1..] + rest;
      LStripBlankPrefix(pre[1..], rest);
    } else {
      assert pre + rest == rest;
    }
  }

  lemma {:induction false} RStripBlankSuffix(rest: string, post: string)
    requires IsBlank(post) && (rest == [] || !IsSpace(rest[|rest| - 1]))
    ensures RStrip(rest + post) == rest
    decreases |post|
  {
    if post != [] {
      var p0 := post[..|post| - 1];
      assert (rest + post)[..|rest + post| - 1] == rest + p0;
      RStripBlankSuffix(rest, p0);
    } else {
      assert rest + post == rest;
    }
  }

  /** Stripping blank margins off a stripped text gives the text back. */
  lemma {:induction false} StripOfStripped(pre: string, s: string, post: string)
    requires IsBlank(pre) && Stripped(s) && IsBlank(post)
    ensures Strip(pre + s + post) == s
  {
    if s == [] {
      assert IsBlank(pre + post);
      assert pre + s + post == pre + post;
      LStripBlankPrefix(pre + post, []);
      assert pre + post + [] == pre + post;
      RStripBlankSuffix([], []);
    } else {
      assert pre + s + post == pre + (s + post);
      LStripBlankPrefix(pre, s + post);
      RStripBlankSuffix(s, post);
    }
  }

  /** `strip()` leaves a stripped text, so a second `strip()` changes nothing. */
  lemma StripTwice(s: string)
    ensures Stripped(Strip(s)) && Strip(Strip(s)) == Strip(s)
  {
    StripCharsSlice(s, Whitespace);
    var r := Strip(s);
    StripOfStripped([], r, []);
    assert [] + r + [] == r;
  }

  lemma StrippedIsFixed(s: string)
    requires Stripped(s)
    ensures Strip(s) == s
  {
    StripOfStripped([], s, []);
    assert [] + s + [] == s;
  }

  lemma StripAfterSpace(s: string)
    requires Stripped(s)
    ensures Strip(" " + s) == s
  {
    StripOfStripped(" ", s, []);
    assert " " + s + [] == " " + s;
  }

  // ---------- case ----------

  function LowerChar(c: char): char {
    if 'A' <= c <= 'Z' then (c as int + 32) as char else c
  }

  /** `s.lower()`, restricted to ASCII letters. */
  function Lower(s: string): (r: string)
    ensures |r| == |s|
  {
    if s == [] then [] else [LowerChar(s[0])] + Lower(s[1..])
  }

  /** Each character is lower-cased on its own. */
  lemma {:induction false} LowerAt(s: string, i: nat)
    requires i < |s|
    ensures Lower(s)[i] == LowerChar(s[i])
  {
    if i > 0 {
      LowerAt(s[1..], i - 1);
    }
  }

  lemma LowerIdempotent(s: string)
    ensures Lower(Lower(s)) == Lower(s)
  {
  }

  // ---------- searching ----------

  predicate StartsWith(s: string, p: string) {
    p <= s
  }

  predicate EndsWith(s: string, p: string) {
    |p| <= |s| && s[|s| - |p|..] == p
  }

  predicate OccursAt(s: string, sub: string, i: int) {
    0 <= i && i + |sub| <= |s| && s[i..i + |sub|] == sub
  }

  /** `sub in s`. */
  predicate Contains(s: string, sub: string) {
    exists i | 0 <= i <= |s| - |sub| :: OccursAt(s, sub, i)
  }

  /** `s.find(sub)`, `None` standing for -1. */
  function Find(s: string, sub: string): (r: Option<nat>)
    ensures r.Some? ==> OccursAt(s, sub, r.value) && forall j :: 0 <= j < r.value ==> !OccursAt(s, sub, j)
    ensures r.None? ==> !Contains(s, sub)
    decreases |s|
  {
    if |s| < |sub| then None
    else if s[..|sub|] == sub then Some(0)
    else
      match Find(s[1..], sub)
      case None =>
        assert forall j :: 1 <= j <= |s| - |sub| ==> (OccursAt(s, sub, j) <==> OccursAt(s[1..], sub, j - 1));
        None
      case Some(k) =>
        assert forall j :: 1 <= j <= k ==> (OccursAt(s, sub, j) <==> OccursAt(s[1..], sub, j - 1));
        Some(k + 1)
  }

  /** The first index of character `c` in `s`, if any. */
  function IndexOfChar(s: string, c: char): (r: Option<nat>)
    ensures r.Some? ==> r.value < |s| && s[r.value] == c && c !in s[..r.value]
    ensures r.None? ==> c !in s
  {
    if s == [] then None
    else if s[0] == c then Some(0)
    else match IndexOfChar(s[1..], c)
      case None => None
      case Some(k) => Some(k + 1)
  }

  /** The first occurrence is the one found. */
  lemma IndexOfCharAt(s: string, c: char, i: nat)
    requires i < |s| && s[i] == c && c !in s[..i]
    ensures IndexOfChar(s, c) == Some(i)
  {
    var r := IndexOfChar(s, c);
    assert c in s;
    var k := r.value;
    assert forall j | 0 <= j < i :: s[..i][j] == s[j];
    assert forall j | 0 <= j < k :: s[..k][j] == s[j];
  }

  // ---------- splitting and joining ----------

  /** `s.split(c)` for a one-character separator: the pieces joined with `c` give `s` back. */
  function SplitOn(s: string, c: char): (r: seq<string>)
    ensures |r| >= 1
    ensures forall k :: 0 <= k < |r| ==> c !in r[k]
    ensures Join([c], r) == s
    decreases |s|
  {
    match IndexOfChar(s, c)
    case None => [s]
    case Some(i) =>
      var rest := SplitOn(s[i + 1..], c);
      assert s == s[..i] + [c] + s[i + 1..];
      [s[..i]] + rest
  }

  /** Splitting at the first separator. */
  lemma SplitOnFirst(s: string, c: char, i: nat)
    requires i < |s| && s[i] == c
    requires forall k :: 0 <= k < i ==> s[k] != c
    ensures SplitOn(s, c) == [s[..i]] + SplitOn(s[i + 1..], c)
  {
    assert c !in s[..i];
    IndexOfCharAt(s, c, i);
  }

  /** Splitting a string without the separator. */
  lemma SplitOnNone(s: string, c: char)
    requires c !in s
    ensures SplitOn(s, c) == [s]
  {
  }

  /** A string with no separator before a first one splits there. */
  lemma SplitOnPieces(x: string, rest: string, c: char)
    requires c !in x
    ensures SplitOn(x + [c] + rest, c) == [x] + SplitOn(rest, c)
  {
    var s := x + [c] + rest;
    assert s[..|x|] == x && s[|x| + 1..] == rest;
    SplitOnFirst(s, c, |x|);
  }

  /** `sep.join(parts)`. */
  function Join(sep: string, parts: seq<string>): string {
    if |parts| == 0 then ""
    else if |parts| == 1 then parts[0]
    else parts[0] + sep + Join(sep, parts[1..])
  }

  lemma {:induction false} JoinAppend(sep: string, parts: seq<string>, last: string)
    requires parts != []
    ensures Join(sep, parts + [last]) == Join(sep, parts) + sep + last
  {
    if |parts| == 1 {
    } else {
      assert (parts + [last])[1..] == parts[1..] + [last];
      JoinAppend(sep, parts[1..], last);
    }
  }

  /** `s.splitlines()`: the lines without their terminators; a final terminator
      does not start an extra line. */
  function SplitLines(s: string): (r: seq<string>)
    ensures forall k :: 0 <= k < |r| ==> NoLineBreak(r[k])
  {
    SplitLinesFrom(s, "")
  }

  function SplitLinesFrom(s: string, cur: string): (r: seq<string>)
    requires NoLineBreak(cur)
    ensures forall k :: 0 <= k < |r| ==> NoLineBreak(r[k])
    decreases |s|
  {
    if s == [] then (if cur == [] then [] else [cur])
    else if s[0] == '\r' && |s| > 1 && s[1] == '\n' then [cur] + SplitLinesFrom(s[2..], "")
    else if s[0] in LineBreaks then [cur] + SplitLinesFrom(s[1..], "")
    else SplitLinesFrom(s[1..], cur + [s[0]])
  }

  lemma {:induction false} SplitLinesOfPlainLine(s: string, cur: string)
    requires NoLineBreak(cur) && NoLineBreak(s)
    ensures SplitLinesFrom(s, cur) == if cur + s == [] then [] else [cur + s]
    decreases |s|
  {
    if s != [] {
      assert s[0] !in LineBreaks;
      assert NoLineBreak(s[1..]);
      SplitLinesOfPlainLine(s[1..], cur + [s[0]]);
      assert cur + [s[0]] + s[1..] == cur + s;
      assert SplitLinesFrom(s, cur) == SplitLinesFrom(s[1..], cur + [s[0]]);
    } else {
      assert cur + s == cur;
    }
  }

  /** Text-mode reading with universal newlines: `\r\n` and a lone `\r` become `\n`. */
  function UniversalNewlines(s: string): (r: string)
    ensures '\r' !in r
    ensures |r| <= |s|
  {
    if s == [] then []
    else if s[0] == '\r' then
      "\n" + UniversalNewlines(if |s| > 1 && s[1] == '\n' then s[2..] else s[1..])
    else [s[0]] + UniversalNewlines(s[1..])
  }

  /** `s.replace(pat, rep)`: every non-overlapping occurrence, scanning left to right. */
  function ReplaceAll(s: string, pat: string, rep: string): string
    requires pat != []
    decreases |s|
  {
    if |s| < |pat| then s
    else if s[..|pat|] == pat then rep + ReplaceAll(s[|pat|..], pat, rep)
    else [s[0]] + ReplaceAll(s[1..], pat, rep)
  }

  /** `s.replace(pat, rep, 1)`. */
  function ReplaceFirst(s: string, pat: string, rep: string): string {
    match Find(s, pat)
    case None => s
    case Some(i) => s[..i] + rep + s[i + |pat|..]
  }

  lemma {:induction false} ReplaceAllAbsent(s: string, pat: string, rep: string)
    requires pat != [] && !Contains(s, pat)
    ensures ReplaceAll(s, pat, rep) == s
    decreases |s|
  {
    if |s| >= |pat| {
      assert !OccursAt(s, pat, 0);
      assert forall j :: 0 <= j <= |s| - 1 - |pat| ==> (OccursAt(s[1..], pat, j) ==> OccursAt(s, pat, j + 1));
      ReplaceAllAbsent(s[1..], pat, rep);
    }
  }

  // ---------- formatting ----------

  function DigitChar(d: nat): char
    requires d < 10
  {
    "0123456789"[d]
  }

  function NatToString(n: nat): (r: string)
    ensures r != []
    ensures forall i :: 0 <= i < |r| ==> '0' <= r[i] <= '9'
  {
    if n < 10 then [DigitChar(n)] else NatToString(n / 10) + [DigitChar(n % 10)]
  }

  /** `str(n)` for an int. */
  function IntToString(n: int): string {
    if n < 0 then "-" + NatToString(-n) else NatToString(n)
  }

  function HexDigits(n: nat, width: nat): string
    decreases width
  {
    if width == 0 then "" else HexDigits(n / 16, width - 1) + ["0123456789abcdef"[n % 16]]
  }

  /** `repr(s)` for a str: single quotes unless the text holds a single quote and no
      double quote; backslash, the quote, `\n`, `\r`, `\t` and other ASCII control
      characters are escaped. */
  function PyRepr(s: string): string {
    var q := if '\'' in s && '"' !in s then '"' else '\'';
    [q] + ReprBody(s, q) + [q]
  }

  function ReprBody(s: string, q: char): string {
    if s == [] then ""
    else
      var c := s[0];
      var e :=
        if c == '\\' then "\\\\"
        else if c == q then ['\\', q]
        else if c == '\n' then "\\n"
        else if c == '\r' then "\\r"
        else if c == '\t' then "\\t"
        else if c < ' ' || c == '\U{007F}' then "\\x" + HexDigits(c as int, 2)
        else [c];
      e + ReprBody(s[1..], q)
  }
}
