/** Theme colours and font styles (app/theme.py). A theme maps semantic keys
    such as `section.chorus` to colours and to style lists; a colour lookup
    falls back from the key to its prefix before the first dot, then to the
    built-in defaults for the key and for the prefix, and finally to the
    lyrics colour. A colour the theme gives as "" counts as absent, as
    Python's `or` treats it. */
module Themes {
  import opened Wrappers
  import opened Strings

  /** `DEFAULT_COLORS`. */
  const DefaultColors: map<string, string> := map[
    "background" := "#000000",
    "lyrics" := "#FFFFFF",
    "chords" := "#FFD166",
    "section.verse" := "#FFFFFF",
    "section.chorus" := "#FFFFFF",
    "section.comment" := "#AAAAAA",
    "directive.title" := "#FFFFFF",
    "directive.subtitle" := "#BBBBBB",
    "directive.meta" := "#888888"
  ]

  /** The fields of a theme's JSON object that the theme reads. */
  datatype ThemeData = ThemeData(
    name: Option<string>,
    colors: Option<map<string, string>>,
    styles: Option<map<string, seq<string>>>)

  datatype Theme = Theme(name: string, colors: map<string, string>, styles: map<string, seq<string>>)

  /** `Theme(data)`: the name defaults to "Default", the maps to empty ones;
      no data is an empty object. */
  function MakeTheme(data: Option<ThemeData>): (t: Theme)
    ensures data.None? ==> t == Theme("Default", map[], map[])
    ensures data.Some? && data.value.name.Some? ==> t.name == data.value.name.value
    ensures data.Some? && data.value.colors.Some? ==> t.colors == data.value.colors.value
    ensures data.Some? && data.value.styles.Some? ==> t.styles == data.value.styles.value
    ensures data.Some? && data.value == ThemeData(None, None, None) ==> t == MakeTheme(None)
  {
    var d := if data.Some? then data.value else ThemeData(None, None, None);
    Theme(
      if d.name.Some? then d.name.value else "Default",
      if d.colors.Some? then d.colors.value else map[],
      if d.styles.Some? then d.styles.value else map[])
  }

  // ---------- colours ----------

  /** `m.get(k)` as a truth value: a missing key reads as "". */
  function Get(m: map<string, string>, k: string): string {
    if k in m then m[k] else ""
  }

  /** `key.split(".")[0]`. */
  function Prefix(key: string): (r: string)
    ensures '.' !in r
  {
    SplitOn(key, '.')[0]
  }

  /** The prefix of a key with no dot is the key; of `a.b` it is `a`. */
  lemma PrefixSpec(a: string, b: string)
    requires '.' !in a
    ensures Prefix(a) == a
    ensures Prefix(a + "." + b) == a
  {
    SplitOnNone(a, '.');
    SplitOnPieces(a, b, '.');
  }

  /** `c[0] or c[1] or ...`: the first non-empty candidate, else the last one. */
  function FirstTruthy(c: seq<string>): (r: string)
    requires c != []
    ensures r in c
    ensures r == "" <==> forall i :: 0 <= i < |c| ==> c[i] == ""
  {
    if |c| == 1 || c[0] != "" then c[0]
    else
      assert forall i :: 0 < i < |c| ==> c[i] == c[1..][i - 1];
      FirstTruthy(c[1..])
  }

  /** `or` picks the first non-empty candidate. */
  lemma {:induction false} FirstTruthyPick(c: seq<string>, i: nat)
    requires i < |c| && c[i] != ""
    requires forall j :: 0 <= j < i ==> c[j] == ""
    ensures FirstTruthy(c) == c[i]
  {
    if i > 0 {
      FirstTruthyPick(c[1..], i - 1);
    }
  }

  /** The lookup `color_for` does, over the theme's colours and a table of
      defaults: the first non-empty of the colour for the key, the colour
      for its prefix, the default for the key, the default for the prefix,
      and the default lyrics colour. */
  function Resolve(colors: map<string, string>, defaults: map<string, string>, key: string): (r: string)
    ensures Get(defaults, "lyrics") != "" ==> r != ""
    ensures Get(colors, key) != "" ==> r == colors[key]
  {
    var p := Prefix(key);
    var c := [Get(colors, key), Get(colors, p), Get(defaults, key), Get(defaults, p), Get(defaults, "lyrics")];
    assert c[4] == Get(defaults, "lyrics");
    FirstTruthy(c)
  }

  /** Each step of the fallback is taken exactly when the earlier ones give
      nothing. */
  lemma ResolveFallback(colors: map<string, string>, defaults: map<string, string>, key: string)
    ensures var p := Prefix(key);
      var r := Resolve(colors, defaults, key);
      (Get(colors, key) == "" && Get(colors, p) != "" ==> r == colors[p])
      && ((Get(colors, key) == "" && Get(colors, p) == "" && Get(defaults, key) != "")
          ==> r == defaults[key])
      && ((Get(colors, key) == "" && Get(colors, p) == "" && Get(defaults, key) == ""
           && Get(defaults, p) != "") ==> r == defaults[p])
      && ((Get(colors, key) == "" && Get(colors, p) == "" && Get(defaults, key) == ""
           && Get(defaults, p) == "") ==> r == Get(defaults, "lyrics"))
  {
    var p := Prefix(key);
    var c := [Get(colors, key), Get(colors, p), Get(defaults, key), Get(defaults, p), Get(defaults, "lyrics")];
    if c[0] != "" {
      FirstTruthyPick(c, 0);
    } else if c[1] != "" {
      FirstTruthyPick(c, 1);
    } else if c[2] != "" {
      FirstTruthyPick(c, 2);
    } else if c[3] != "" {
      FirstTruthyPick(c, 3);
    } else if c[4] != "" {
      FirstTruthyPick(c, 4);
    }
  }

  /** `color_for(key)` over `DEFAULT_COLORS`: never empty, and a colour the
      theme gives for the key itself always wins. */
  function ColorFor(t: Theme, key: string): (r: string)
    ensures r != ""
    ensures Get(t.colors, key) != "" ==> r == t.colors[key]
  {
    assert Get(DefaultColors, "lyrics") == "#FFFFFF";
    Resolve(t.colors, DefaultColors, key)
  }

  /** A dotted key the theme does not colour takes its prefix's colour when
      the theme has one. */
  lemma DottedKeyTakesPrefix(t: Theme, a: string, b: string)
    requires '.' !in a
    requires Get(t.colors, a + "." + b) == "" && Get(t.colors, a) != ""
    ensures ColorFor(t, a + "." + b) == ColorFor(t, a) == t.colors[a]
  {
    PrefixSpec(a, b);
    ResolveFallback(t.colors, DefaultColors, a + "." + b);
  }

  /** Every default colour is non-empty. */
  lemma DefaultsNonEmpty()
    ensures forall k | k in DefaultColors :: DefaultColors[k] != ""
  {
  }

  /** The default theme gives every default colour, and an unknown dotted
      key under a defaulted prefix takes the prefix's default. */
  lemma DefaultThemeColors(key: string, a: string, b: string)
    requires '.' !in a && a in DefaultColors && a + "." + b !in DefaultColors
    ensures key in DefaultColors ==> ColorFor(MakeTheme(None), key) == DefaultColors[key]
    ensures ColorFor(MakeTheme(None), a + "." + b) == DefaultColors[a]
  {
    DefaultsNonEmpty();
    PrefixSpec(a, b);
    ResolveFallback(map[], DefaultColors, key);
    ResolveFallback(map[], DefaultColors, a + "." + b);
  }

  /** `background_color()`: the colour for "background". */
  function BackgroundColor(t: Theme): (r: string)
    ensures r != ""
    ensures Get(t.colors, "background") != "" ==> r == t.colors["background"]
  {
    ColorFor(t, "background")
  }

  /** The background follows the colour lookup, black by default. */
  lemma BackgroundDefault(t: Theme)
    ensures BackgroundColor(t) == ColorFor(t, "background")
    ensures Get(t.colors, "background") == "" ==> BackgroundColor(t) == "#000000"
  {
    assert Prefix("background") == "background" by {
      PrefixSpec("background", "");
    }
    assert Get(DefaultColors, "background") == "#000000" by {
      DefaultBackground();
    }
    ResolveFallback(t.colors, DefaultColors, "background");
  }

  /** The default table's background entry. */
  lemma DefaultBackground()
    ensures Get(DefaultColors, "background") == "#000000"
  {
    assert "background" in DefaultColors;
  }

  // ---------- styles ----------

  /** `style_for(key)`: the CSS for the key's styles, bold before italic. */
  function StyleFor(t: Theme, key: string): (r: string) {
    var styles := if key in t.styles then t.styles[key] else [];
    var css := (if "bold" in styles then ["font-weight:600"] else [])
      + (if "italic" in styles then ["font-style:italic"] else []);
    Join("; ", css)
  }

  /** The four outcomes of `style_for`: empty unless the styles name "bold" or
      "italic", and both joined by "; " with bold first; any other style name
      is ignored. */
  lemma StyleForCases(t: Theme, key: string)
    ensures var s := if key in t.styles then t.styles[key] else [];
      var r := StyleFor(t, key);
      ("bold" !in s && "italic" !in s <==> r == "")
      && ("bold" in s && "italic" !in s ==> r == "font-weight:600")
      && ("bold" !in s && "italic" in s ==> r == "font-style:italic")
      && ("bold" in s && "italic" in s ==> r == "font-weight:600; font-style:italic")
  {
    var s := if key in t.styles then t.styles[key] else [];
    if "bold" in s && "italic" in s {
      JoinAppend("; ", ["font-weight:600"], "font-style:italic");
      assert ["font-weight:600"] + ["font-style:italic"] == ["font-weight:600", "font-style:italic"];
    }
  }

  /** A key with no styles, as in the default theme, has no CSS. */
  lemma NoStylesNoCss(t: Theme, key: string)
    requires key !in t.styles
    ensures StyleFor(t, key) == ""
  {
    StyleForCases(t, key);
  }
}
