/** The `{key: value}` directive line shared by the importer, the parser and the
    directive editor: `DIRECTIVE_KV_RE` (stagepro/importers.py), `DIRECTIVE_RE`
    (stagepro/chordpro.py) and `_KV_RE` (stagepro/chordpro_edit.py) accept the same
    lines, since a whitespace run after `{` can always be read as part of the key. */
module Directives {
  import opened Wrappers
  import opened Strings

  /** `s[1:-1]` in Python: empty for strings shorter than two characters. */
  function Inner(s: string): string {
    if |s| >= 2 then s[1..|s| - 1] else ""
  }

  /** The match of the directive pattern on a stripped line `s`: `{KEY:VALUE}`
      where KEY runs from `{` to the first `:` and is at least one character long,
      and no `}` appears before the closing one. The groups come back stripped, as
      every caller strips them. */
  function KvMatch(s: string): Option<(string, string)> {
    if |s| >= 2 && s[0] == '{' && s[|s| - 1] == '}' && '}' !in Inner(s) then
      var inner := Inner(s);
      match IndexOfChar(inner, ':')
      case None => None
      case Some(i) =>
        if i >= 1 then Some((Strip(inner[..i]), Strip(inner[i + 1..]))) else None
    else None
  }

  /** The pattern matches exactly the braced strings whose inside holds a `:` that
      is not its first character and no `}`; the key is the text before the first
      `:`, the value the text after it. */
  lemma KvMatchSpec(s: string)
    ensures KvMatch(s).Some? <==>
      (|s| >= 2 && s[0] == '{' && s[|s| - 1] == '}' && '}' !in Inner(s)
       && ':' in Inner(s) && Inner(s)[0] != ':')
    ensures KvMatch(s).Some? ==> exists i | 1 <= i < |Inner(s)| ::
      Inner(s)[i] == ':' && ':' !in Inner(s)[..i]
      && KvMatch(s).value == (Strip(Inner(s)[..i]), Strip(Inner(s)[i + 1..]))
  {
  }

  /** A line that `DIRECTIVE_RE` (or `_KV_RE`) matches: the lower-cased key and the value. */
  function MetaMatch(line: string): Option<(string, string)> {
    match KvMatch(Strip(line))
    case Some(kv) => Some((Lower(kv.0), kv.1))
    case None => None
  }

  /** The directive line the editors write, `{key: value}`. */
  function DirectiveLine(key: string, value: string): string {
    "{" + key + ": " + value + "}"
  }

  /** A braced text without `}` whose first `:` sits at `i >= 1` is matched, with
      the text on either side of that `:` as its groups. */
  lemma KvMatchAt(inner: string, i: nat)
    requires '}' !in inner && 1 <= i < |inner| && inner[i] == ':' && ':' !in inner[..i]
    ensures KvMatch("{" + inner + "}") == Some((Strip(inner[..i]), Strip(inner[i + 1..])))
  {
    assert Inner("{" + inner + "}") == inner;
    IndexOfCharAt(inner, ':', i);
  }

  /** The inside of a directive line: the key, then `: ` and the value. */
  lemma DirectiveLineInner(key: string, value: string)
    requires '}' !in key && '}' !in value
    ensures var inner := key + (": " + value);
      DirectiveLine(key, value) == "{" + inner + "}" && '}' !in inner
      && inner[|key|] == ':' && inner[..|key|] == key && inner[|key| + 1..] == " " + value
  {
    var inner := key + (": " + value);
    assert inner[..|key|] == key && inner[|key| + 1..] == " " + value;
  }

  /** A directive line written for a stripped key without `:` or `}` and a stripped
      value without `}` is matched back to that key and value. */
  lemma {:induction false} DirectiveLineRoundTrip(key: string, value: string)
    requires key != [] && Stripped(key) && ':' !in key && '}' !in key
    requires Stripped(value) && '}' !in value
    ensures KvMatch(DirectiveLine(key, value)) == Some((key, value))
  {
    DirectiveLineInner(key, value);
    KvMatchAt(key + (": " + value), |key|);
    StrippedIsFixed(key);
    StripAfterSpace(value);
  }
}
