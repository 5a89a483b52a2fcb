/** Shell-style pattern matching as Python's `fnmatch.fnmatch` does it on POSIX
    (case-sensitive), and the include/exclude test `_matches_globs` of the
    publisher (app/libraries/publisher.py). `*` matches any run of characters,
    `/` included, `?` any one character, and `[...]` one character of a class
    (`[!...]` one character outside it); a `[` that no `]` closes, and every
    other pattern character, matches itself. */
module Globs {
  import opened Wrappers
  import opened Strings

  /** `fnmatch.fnmatch(name, pat)`. */
  predicate FnMatch(name: string, pat: string)
    decreases |pat| + |name|
  {
    if pat == [] then name == []
    else if pat[0] == '*' then FnMatch(name, pat[1..]) || (name != [] && FnMatch(name[1..], pat))
    else if pat[0] == '?' then name != [] && FnMatch(name[1..], pat[1..])
    else if pat[0] == '[' && ClassEnd(pat).Some? then
      var e := ClassEnd(pat).value;
      name != [] && ClassAccepts(pat[1..e], name[0]) && FnMatch(name[1..], pat[e + 1..])
    else name != [] && name[0] == pat[0] && FnMatch(name[1..], pat[1..])
  }

  /** The index of the first `]` in `pat` at or after `j`, if there is one. */
  function CloseFrom(pat: string, j: nat): (r: Option<nat>)
    ensures r.Some? ==> j <= r.value < |pat| && pat[r.value] == ']'
    ensures r.Some? ==> forall k | j <= k < r.value :: pat[k] != ']'
    ensures r.None? ==> forall k | j <= k < |pat| :: pat[k] != ']'
    decreases |pat| - j
  {
    if j >= |pat| then None
    else if pat[j] == ']' then Some(j)
    else CloseFrom(pat, j + 1)
  }

  /** For a pattern opening with `[`, where its class closes: at the first `]`
      after an optional `!` and an optional leading `]`, which belongs to the
      class. `None` when nothing closes it, and the `[` is then a plain character. */
  function ClassEnd(pat: string): (r: Option<nat>)
    requires pat != [] && pat[0] == '['
    ensures r.Some? ==> 2 <= r.value < |pat| && pat[r.value] == ']'
  {
    var j := if 1 < |pat| && pat[1] == '!' then 2 else 1;
    var k := if j < |pat| && pat[j] == ']' then j + 1 else j;
    CloseFrom(pat, k)
  }

  /** `c` is one of the items of a class body, read left to right: `x-y` is the
      range of characters from `x` to `y` (none when `y` comes before `x`), any
      other character is itself. */
  predicate InItems(c: char, items: string)
    decreases |items|
  {
    if items == [] then false
    else if |items| >= 3 && items[1] == '-' then (items[0] <= c <= items[2]) || InItems(c, items[3..])
    else c == items[0] || InItems(c, items[1..])
  }

  /** The class between `[` and `]` accepts `c`; a leading `!` negates it. */
  predicate ClassAccepts(body: string, c: char) {
    if body != [] && body[0] == '!' then !InItems(c, body[1..]) else InItems(c, body)
  }

  /** Examples of classes: a member matches, a non-member does not, and a
      leading `!` turns that round. */
  lemma ClassMemberExamples()
    ensures FnMatch("b", "[abc]") && !FnMatch("d", "[abc]")
    ensures FnMatch("d", "[!abc]") && !FnMatch("a", "[!abc]")
  {
    assert ClassEnd("[abc]") == Some(4);
    assert ClassEnd("[!abc]") == Some(5);
    assert "[abc]"[1..4] == "abc";
    assert "[!abc]"[1..5] == "!abc";
  }

  /** Examples of ranges: `a-z` holds the letters between, a trailing `-` is
      itself a member, and a reversed range holds nothing. */
  lemma ClassRangeExamples()
    ensures FnMatch("q", "[a-z]") && !FnMatch("-", "[a-z]") && FnMatch("-", "[a-]")
    ensures !FnMatch("a", "[z-a]") && FnMatch("a", "[!z-a]")
  {
    assert ClassEnd("[a-z]") == Some(4);
    assert ClassEnd("[a-]") == Some(3);
    assert ClassEnd("[z-a]") == Some(4);
    assert ClassEnd("[!z-a]") == Some(5);
    assert "[a-z]"[1..4] == "a-z";
    assert "[a-]"[1..3] == "a-";
    assert "[z-a]"[1..4] == "z-a";
    assert "[!z-a]"[1..5] == "!z-a";
  }

  /** Examples of brackets: a `]` first in a class is a member, and a `[`
      that nothing closes is an ordinary character. */
  lemma ClassBracketExamples()
    ensures FnMatch("]", "[]]") && FnMatch("[a", "[a") && !FnMatch("a", "[a")
  {
    assert ClassEnd("[]]") == Some(2);
    assert ClassEnd("[a") == None;
  }

  // One pattern of an include or exclude list: a plain match, or, for a pattern
  // written `**/X`, a match of `X` alone.
  predicate PatternMatches(rel: string, pat: string) {
    FnMatch(rel, pat) || (StartsWith(pat, "**/") && FnMatch(rel, pat[3..]))
  }

  /** `_matches_globs(rel_path, globs)`: an empty list matches everything. */
  predicate MatchesGlobs(rel: string, globs: seq<string>) {
    globs == [] || exists i | 0 <= i < |globs| :: PatternMatches(rel, globs[i])
  }

  /** A pattern with no wildcard and no class. */
  predicate Literal(p: string) {
    forall i :: 0 <= i < |p| ==> p[i] != '*' && p[i] != '?' && p[i] != '['
  }

  /** Every class `p` opens is closed within `p`, so that nothing appended to it
      can change how it is read. */
  predicate ClassesClosed(p: string)
    decreases |p|
  {
    if p == [] then true
    else if p[0] == '[' then ClassEnd(p).Some? && ClassesClosed(p[ClassEnd(p).value + 1..])
    else ClassesClosed(p[1..])
  }

  /** Appending text never moves the first `]` already found. */
  lemma {:induction false} CloseFromAppend(p: string, q: string, j: nat)
    requires CloseFrom(p, j).Some?
    ensures CloseFrom(p + q, j) == CloseFrom(p, j)
    decreases |p| - j
  {
    if p[j] != ']' {
      CloseFromAppend(p, q, j + 1);
    }
  }

  /** A class closed within `p` ends at the same place in `p + q`. */
  lemma ClassEndAppend(p: string, q: string)
    requires p != [] && p[0] == '[' && ClassEnd(p).Some?
    ensures ClassEnd(p + q) == ClassEnd(p)
  {
    var j := if 1 < |p| && p[1] == '!' then 2 else 1;
    var k := if j < |p| && p[j] == ']' then j + 1 else j;
    assert (p + q)[1..|p|] == p[1..];
    CloseFromAppend(p, q, k);
  }

  lemma {:induction false} LiteralMatchesItself(p: string)
    requires Literal(p)
    ensures FnMatch(p, p)
    decreases |p|
  {
    if p != [] {
      LiteralMatchesItself(p[1..]);
    }
  }

  lemma {:induction false} StarMatchesAnything(s: string)
    ensures FnMatch(s, "*")
    decreases |s|
  {
    if s != [] {
      StarMatchesAnything(s[1..]);
    }
  }

  /** Matching is compositional: if `p1` matches `s1` and `p2` matches `s2`, then
      `p1 + p2` matches `s1 + s2`. */
  lemma {:induction false} ConcatMatches(s1: string, p1: string, s2: string, p2: string)
    requires ClassesClosed(p1) && FnMatch(s1, p1) && FnMatch(s2, p2)
    ensures FnMatch(s1 + s2, p1 + p2)
    decreases |p1| + |s1|, 1
  {
    if p1 == [] {
      assert s1 + s2 == s2;
      assert p1 + p2 == p2;
    } else {
      var p := p1 + p2;
      assert p[0] == p1[0] && p[1..] == p1[1..] + p2;
      if p1[0] == '*' {
        if FnMatch(s1, p1[1..]) {
          ConcatMatches(s1, p1[1..], s2, p2);
          assert FnMatch(s1 + s2, p[1..]);
        } else {
          assert s1 != [] && FnMatch(s1[1..], p1);
          ConcatMatches(s1[1..], p1, s2, p2);
          assert (s1 + s2)[1..] == s1[1..] + s2;
          assert FnMatch((s1 + s2)[1..], p);
        }
      } else if p1[0] == '[' {
        ConcatMatchesClass(s1, p1, s2, p2);
      } else {
        assert s1 != [] && FnMatch(s1[1..], p1[1..]);
        assert (s1 + s2)[0] == s1[0] && (s1 + s2)[1..] == s1[1..] + s2;
        ConcatMatches(s1[1..], p1[1..], s2, p2);
        assert FnMatch((s1 + s2)[1..], p[1..]);
      }
    }
  }

  /** How a pattern opening with a closed class matches: one accepted
      character, then the rest of the pattern. */
  lemma ClassStep(name: string, pat: string)
    requires pat != [] && pat[0] == '[' && ClassEnd(pat).Some?
    ensures var e := ClassEnd(pat).value;
      FnMatch(name, pat) <==> name != [] && ClassAccepts(pat[1..e], name[0]) && FnMatch(name[1..], pat[e + 1..])
  {
  }

  /** Cutting `a + b` around a position `k` of `a`. */
  lemma SplitAppend(a: string, b: string, k: nat)
    requires k < |a|
    ensures (a + b)[k] == a[k] && (a + b)[k + 1..] == a[k + 1..] + b
    ensures 1 <= k ==> (a + b)[1..k] == a[1..k]
  {
  }

  /** The step of `ConcatMatches` for a pattern opening with a class. */
  lemma {:induction false} ConcatMatchesClass(s1: string, p1: string, s2: string, p2: string)
    requires p1 != [] && p1[0] == '['
    requires ClassesClosed(p1) && FnMatch(s1, p1) && FnMatch(s2, p2)
    ensures FnMatch(s1 + s2, p1 + p2)
    decreases |p1| + |s1|, 0
  {
    var e := ClassEnd(p1).value;
    ClassEndAppend(p1, p2);
    ClassStep(s1, p1);
    ConcatMatches(s1[1..], p1[e + 1..], s2, p2);
    SplitAppend(p1, p2, e);
    SplitAppend(s1, s2, 0);
    ClassStep(s1 + s2, p1 + p2);
  }

  /** The empty include list keeps every path. */
  lemma EmptyGlobsMatchEverything(rel: string)
    ensures MatchesGlobs(rel, [])
  {
  }

  // A pattern `**/*<ext>` with a wildcard-free `<ext>` matches every path that
  // ends with `<ext>`, at any depth and at the mirror root alike.
  lemma {:induction false} DoubleStarExtensionMatchesAnyDepth(rel: string, ext: string)
    requires Literal(ext) && EndsWith(rel, ext)
    ensures PatternMatches(rel, "**/*" + ext)
  {
    var pat := "**/*" + ext;
    var stem := rel[..|rel| - |ext|];
    StarMatchesAnything(stem);
    LiteralMatchesItself(ext);
    ConcatMatches(stem, "*", ext, ext);
    assert stem + ext == rel;
    assert pat[3..] == "*" + ext;
  }

  lemma DoubleStarMatchesAnything(s: string)
    ensures FnMatch(s, "**")
  {
    StarMatchesAnything(s);
    ConcatMatches(s, "*", [], "*");
    assert s + [] == s;
  }

  // `.git/**` matches every path inside a `.git` directory at the root.
  lemma GitPrefixMatches(b: string)
    ensures FnMatch(".git/" + b, ".git/**")
  {
    DoubleStarMatchesAnything(b);
    LiteralMatchesItself(".git/");
    ConcatMatches(".git/", ".git/", b, "**");
    assert ".git/" + "**" == ".git/**";
  }

  // `**/.git/**` matches every path with a `.git` segment below the root.
  lemma GitBelowRootMatches(a: string, b: string)
    ensures FnMatch(a + "/.git/" + b, "**/.git/**")
  {
    DoubleStarMatchesAnything(a);
    DoubleStarMatchesAnything(b);
    LiteralMatchesItself("/.git/");
    ConcatMatches("/.git/", "/.git/", b, "**");
    assert "/.git/" + "**" == "/.git/**";
    ConcatMatches(a, "**", "/.git/" + b, "/.git/**");
    assert a + ("/.git/" + b) == a + "/.git/" + b;
    assert "**" + "/.git/**" == "**/.git/**";
  }

  // The default exclude pattern `**/.git/**` matches every path with a `.git`
  // directory segment, below the root or at it.
  lemma GitDirectoryExcluded(a: string, b: string)
    ensures PatternMatches(a + "/.git/" + b, "**/.git/**")
    ensures PatternMatches(".git/" + b, "**/.git/**")
  {
    GitBelowRootMatches(a, b);
    GitPrefixMatches(b);
    assert "**/.git/**"[3..] == ".git/**";
  }
}
