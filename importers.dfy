/** Recognising, validating and normalising user song files into ChordPro
    (stagepro/importers.py): the ChordPro heuristics, the strict Title/Artist
    fallback format, file-name sanitising and the choice of a free destination. */
module Importers {
  import opened Wrappers
  import opened Strings
  import opened Paths
  import opened FileSystem
  import opened Directives

  datatype ImportedSong = ImportedSong(title: string, artist: string, chordproText: string)

  const TitleKeys: set<string> := {"title", "t"}
  const ArtistKeys: set<string> := {"artist", "a"}

  predicate Braced(s: string) {
    StartsWith(s, "{") && EndsWith(s, "}")
  }

  // ---------- looks_like_chordpro ----------

  /** A stripped line that makes the text look like ChordPro. */
  predicate Signal(s: string) {
    s != "" && (Braced(s) || ('[' in s && ']' in s))
  }

  predicate LooksLikeChordproSpec(text: string) {
    var lines := SplitLines(text);
    exists i | 0 <= i < |lines| :: Signal(Strip(lines[i]))
  }

  /** `looks_like_chordpro(text)`: true at the first non-blank line that is brace
      enclosed or holds both brackets. */
  method LooksLikeChordpro(text: string) returns (r: bool)
    ensures r <==> LooksLikeChordproSpec(text)
  {
    var lines := SplitLines(text);
    var i := 0;
    while i < |lines|
      invariant 0 <= i <= |lines|
      invariant forall k :: 0 <= k < i ==> !Signal(Strip(lines[k]))
    {
      var s := Strip(lines[i]);
      if s == "" {
        i := i + 1;
        continue;
      }
      if StartsWith(s, "{") && EndsWith(s, "}") {
        return true;
      }
      if '[' in s && ']' in s {
        return true;
      }
      i := i + 1;
    }
    return false;
  }

  // ---------- validate_chordpro_basic ----------

  /** A stripped line passes validation: it does not open a directive, or it closes
      it and, when it holds a `:` inside the braces, parses as key:value. */
  predicate LineValid(s: string) {
    s == "" || !StartsWith(s, "{") || (EndsWith(s, "}") && (':' in Inner(s) ==> KvMatch(s).Some?))
  }

  predicate ValidChordpro(text: string) {
    var lines := SplitLines(text);
    forall i | 0 <= i < |lines| :: LineValid(Strip(lines[i]))
  }

  /** The message for an invalid stripped line `s` at 1-based line `n`. */
  function LineError(n: nat, s: string): string {
    if !EndsWith(s, "}") then
      "Line " + NatToString(n) + " starts a directive '{' but is missing a closing '}'."
    else
      "Line " + NatToString(n) + " looks like a key:value directive but couldn't be parsed: " + PyRepr(s)
  }

  /** `validate_chordpro_basic(text)`: `(True, None)` when every line passes, else
      `(False, reason)` for the first line that does not. */
  method ValidateChordproBasic(text: string) returns (ok: bool, reason: Option<string>)
    ensures ok <==> ValidChordpro(text)
    ensures ok ==> reason == None
    ensures !ok ==> var lines := SplitLines(text);
      exists i | 0 <= i < |lines| ::
        !LineValid(Strip(lines[i])) && (forall k | 0 <= k < i :: LineValid(Strip(lines[k])))
        && reason == Some(LineError(i + 1, Strip(lines[i])))
  {
    var lines := SplitLines(text);
    var i := 0;
    while i < |lines|
      invariant 0 <= i <= |lines|
      invariant forall k | 0 <= k < i :: LineValid(Strip(lines[k]))
    {
      var s := Strip(lines[i]);
      if s == "" {
        i := i + 1;
        continue;
      }
      if StartsWith(s, "{") {
        if !EndsWith(s, "}") {
          return false, Some("Line " + NatToString(i + 1) + " starts a directive '{' but is missing a closing '}'.");
        }
        if ':' in Inner(s) {
          if KvMatch(s).None? {
            return false, Some("Line " + NatToString(i + 1) + " looks like a key:value directive but couldn't be parsed: " + PyRepr(s));
          }
        }
      }
      i := i + 1;
    }
    return true, None;
  }

  // ---------- fallback_import_from_plain_text ----------

  /** The indices of the lines among the first `n` whose `strip()` is not empty
      (see `StripEmptyIffBlank`), in order. */
  function NonEmptyIndices(lines: seq<string>, n: nat): (r: seq<nat>)
    requires n <= |lines|
    ensures forall k :: 0 <= k < |r| ==> r[k] < n
    ensures forall k, m :: 0 <= k < m < |r| ==> r[k] < r[m]
    decreases n
  {
    if n == 0 then []
    else NonEmptyIndices(lines, n - 1) + (if !IsBlank(lines[n - 1]) then [n - 1] else [])
  }

  /** Only non-blank lines are listed. */
  lemma {:induction false} NonEmptyIndicesSound(lines: seq<string>, n: nat, k: nat)
    requires n <= |lines| && k < |NonEmptyIndices(lines, n)|
    ensures !IsBlank(lines[NonEmptyIndices(lines, n)[k]])
    decreases n
  {
    var prev := NonEmptyIndices(lines, n - 1);
    if k < |prev| {
      NonEmptyIndicesSound(lines, n - 1, k);
      assert NonEmptyIndices(lines, n)[k] == prev[k];
    }
  }

  /** Every non-blank line among the first `n` is listed. */
  lemma {:induction false} NonEmptyIndicesComplete(lines: seq<string>, n: nat, j: nat)
    requires n <= |lines| && j < n && !IsBlank(lines[j])
    ensures j in NonEmptyIndices(lines, n)
    decreases n
  {
    var prev := NonEmptyIndices(lines, n - 1);
    if j < n - 1 {
      NonEmptyIndicesComplete(lines, n - 1, j);
      NonEmptyIndicesPrefix(lines, n - 1, n);
      var k :| 0 <= k < |prev| && prev[k] == j;
      assert NonEmptyIndices(lines, n)[k] == j;
    } else {
      NonEmptyIndicesSnoc(lines, j);
      assert NonEmptyIndices(lines, n)[|prev|] == j;
    }
  }

  /** Looking at more lines only extends the list. */
  lemma {:induction false} NonEmptyIndicesPrefix(lines: seq<string>, m: nat, n: nat)
    requires m <= n <= |lines|
    ensures NonEmptyIndices(lines, m) <= NonEmptyIndices(lines, n)
    decreases n
  {
    if m < n {
      NonEmptyIndicesPrefix(lines, m, n - 1);
    }
  }

  /** With every line before `n` blank except possibly line `t`, the list is `[t]` or empty. */
  lemma {:induction false} NonEmptyIndicesAtMostOne(lines: seq<string>, n: nat, t: nat)
    requires n <= |lines|
    requires forall j | 0 <= j < n && j != t :: IsBlank(lines[j])
    ensures NonEmptyIndices(lines, n) == if t < n && !IsBlank(lines[t]) then [t] else []
    decreases n
  {
    if n > 0 {
      NonEmptyIndicesAtMostOne(lines, n - 1, t);
      var prev := NonEmptyIndices(lines, n - 1);
      if n - 1 == t {
        assert prev == [];
        assert NonEmptyIndices(lines, n) == [] + (if !IsBlank(lines[t]) then [t] else []);
      } else {
        assert IsBlank(lines[n - 1]);
        assert NonEmptyIndices(lines, n) == prev + [];
      }
    }
  }

  const SectionNames: set<string> := {"verse", "verse 1", "verse 2", "chorus", "bridge", "intro", "outro", "pre-chorus"}

  predicate LooksLikeSectionHeader(s: string) {
    var s2 := StripChars(Lower(s), {':', '-', ' '});
    s2 in SectionNames || StartsWith(s2, "verse ")
  }

  /** `re.search(r"\[[^\]]+\]", s)`: a `[`, at least one character that is not `]`, then `]`. */
  predicate HasChordToken(s: string) {
    exists i, j | 0 <= i && i + 1 < j < |s| :: s[i] == '[' && s[j] == ']' && ']' !in s[i + 1..j]
  }

  predicate LooksLikeChordedLyric(s: string) {
    '[' in s && ']' in s && HasChordToken(s)
  }

  const ImportFailed := "Import failed: "

  /** An import error: the common prefix, the word that follows it, then the rest. */
  function Message(word: string, rest: string): string {
    ImportFailed + word + rest
  }

  /** The `k`-th letter of the word after the prefix sits at a fixed position. */
  lemma MessageWord(word: string, rest: string, k: nat)
    requires k < |word|
    ensures Message(word, rest)[15 + k] == word[k]
  {
    assert |ImportFailed| == 15;
  }

  const NotTwoLinesDetail := " isn't valid ChordPro and doesn't match the fallback format. Expected at least 2 non-empty lines: Title then Artist."
  const NotTwoLinesError := Message("file", NotTwoLinesDetail)

  const TitleDirectiveDetail := " non-empty line looks like a ChordPro directive, but the file did not validate as ChordPro. Either fix the directive formatting or use the fallback format with a plain Title line first."
  const TitleDirectiveError := Message("first", TitleDirectiveDetail)

  function TitleLyricDetail(title: string): string {
    " format expects first non-empty line to be the song Title. Found: " + PyRepr(title) + " (looks like lyrics/section header)."
  }

  function TitleLyricError(title: string): string {
    Message("fallback", TitleLyricDetail(title))
  }

  function ArtistDirectiveDetail(artist: string): string {
    " format expects second non-empty line to be the Artist (plain text). Found directive-like line: " + PyRepr(artist) + "."
  }

  function ArtistDirectiveError(artist: string): string {
    Message("fallback", ArtistDirectiveDetail(artist))
  }

  function ArtistLyricDetail(artist: string): string {
    " format expects second non-empty line to be the Artist. Found: " + PyRepr(artist) + " (looks like lyrics/section header)."
  }

  function ArtistLyricError(artist: string): string {
    Message("fallback", ArtistLyricDetail(artist))
  }

  /** The canonical text the fallback produces from a title, an artist and the lyric lines. */
  function FallbackText(title: string, artist: string, lyricLines: seq<string>): (r: string)
    ensures EndsWith(r, "\n")
  {
    "{title: " + title + "}\n" + "{artist: " + artist + "}\n" + "\n" + RStrip(Join("\n", lyricLines)) + "\n"
  }

  /** The header checks of the fallback on the first two non-blank lines. */
  predicate HeaderLineOk(s: string) {
    !Braced(s) && !LooksLikeSectionHeader(s) && !LooksLikeChordedLyric(s)
  }

  /** The fallback once the title and artist lines are found: the title is checked
      first, then the artist, each for a directive and then for lyrics. */
  function CheckHeader(title: string, artist: string, lyricLines: seq<string>): (r: Result<ImportedSong>)
    ensures r.Ok? <==> HeaderLineOk(title) && HeaderLineOk(artist)
    ensures r.Ok? ==> r.value == ImportedSong(title, artist, FallbackText(title, artist, lyricLines))
  {
    if Braced(title) then Err(TitleDirectiveError)
    else if LooksLikeSectionHeader(title) || LooksLikeChordedLyric(title) then
      Err(TitleLyricError(title))
    else if Braced(artist) then
      Err(ArtistDirectiveError(artist))
    else if LooksLikeSectionHeader(artist) || LooksLikeChordedLyric(artist) then
      Err(ArtistLyricError(artist))
    else Ok(ImportedSong(title, artist, FallbackText(title, artist, lyricLines)))
  }

  /** `fallback_import_from_plain_text(text)`. */
  function FallbackImport(text: string): (r: Result<ImportedSong>)
    ensures r.Ok? ==> EndsWith(r.value.chordproText, "\n")
  {
    FallbackFromLines(SplitLines(text))
  }

  /** The fallback on the lines of the text. */
  function FallbackFromLines(lines: seq<string>): (r: Result<ImportedSong>)
    ensures r.Ok? ==> EndsWith(r.value.chordproText, "\n")
  {
    var nonempty := NonEmptyIndices(lines, |lines|);
    if |nonempty| < 2 then Err(NotTwoLinesError)
    else CheckHeader(Strip(lines[nonempty[0]]), Strip(lines[nonempty[1]]), lines[nonempty[1] + 1..])
  }

  /** When `t` and `a` are the first two non-blank lines, they head the list. */
  lemma {:induction false} NonEmptyIndicesFirstTwo(lines: seq<string>, t: nat, a: nat)
    requires t < a < |lines| && !IsBlank(lines[t]) && !IsBlank(lines[a])
    requires forall j | 0 <= j < a && j != t :: IsBlank(lines[j])
    ensures var ne := NonEmptyIndices(lines, |lines|); |ne| >= 2 && ne[0] == t && ne[1] == a
  {
    NonEmptyIndicesAtMostOne(lines, a, t);
    NonEmptyIndicesSnoc(lines, a);
    var two := NonEmptyIndices(lines, a + 1);
    assert two == [t, a];
    NonEmptyIndicesPrefix(lines, a + 1, |lines|);
    var ne := NonEmptyIndices(lines, |lines|);
    assert ne[0] == two[0] && ne[1] == two[1];
  }

  /** A non-blank line joins the list at its end. */
  lemma NonEmptyIndicesSnoc(lines: seq<string>, a: nat)
    requires a < |lines| && !IsBlank(lines[a])
    ensures NonEmptyIndices(lines, a + 1) == NonEmptyIndices(lines, a) + [a]
  {
  }

  /** When the first two non-blank lines are `t` and `a` and pass the header checks,
      the fallback succeeds: the title and artist are those lines stripped, and the
      lyrics are the lines after the artist line. */
  lemma {:induction false} FallbackHeaderLines(lines: seq<string>, t: nat, a: nat)
    requires t < a < |lines| && !IsBlank(lines[t]) && !IsBlank(lines[a])
    requires forall j | 0 <= j < a && j != t :: IsBlank(lines[j])
    requires HeaderLineOk(Strip(lines[t])) && HeaderLineOk(Strip(lines[a]))
    ensures FallbackFromLines(lines) == Ok(ImportedSong(Strip(lines[t]), Strip(lines[a]),
        FallbackText(Strip(lines[t]), Strip(lines[a]), lines[a + 1..])))
  {
    NonEmptyIndicesFirstTwo(lines, t, a);
  }

  /** Every header error differs from the two-line error. */
  lemma CheckHeaderNeverTwoLinesError(title: string, artist: string, lyricLines: seq<string>)
    ensures CheckHeader(title, artist, lyricLines) != Err(NotTwoLinesError)
  {
    HeaderErrorsDiffer(title, artist);
  }

  /** The two-line message differs from each header message in its first word. */
  lemma HeaderErrorsDiffer(title: string, artist: string)
    ensures NotTwoLinesError != TitleDirectiveError
    ensures NotTwoLinesError != TitleLyricError(title)
    ensures NotTwoLinesError != ArtistDirectiveError(artist)
    ensures NotTwoLinesError != ArtistLyricError(artist)
  {
    MessageWord("file", NotTwoLinesDetail, 1);
    MessageWord("file", NotTwoLinesDetail, 2);
    MessageWord("first", TitleDirectiveDetail, 2);
    MessageWord("fallback", TitleLyricDetail(title), 1);
    MessageWord("fallback", ArtistDirectiveDetail(artist), 1);
    MessageWord("fallback", ArtistLyricDetail(artist), 1);
  }

  /** The fallback fails with the fixed message exactly when the text does not
      have two non-blank lines. */
  lemma {:induction false} FallbackNeedsTwoLines(lines: seq<string>)
    ensures FallbackFromLines(lines) == Err(NotTwoLinesError) <==>
        !exists j, k | 0 <= j < k < |lines| :: !IsBlank(lines[j]) && !IsBlank(lines[k])
  {
    var ne := NonEmptyIndices(lines, |lines|);
    if |ne| >= 2 {
      CheckHeaderNeverTwoLinesError(Strip(lines[ne[0]]), Strip(lines[ne[1]]), lines[ne[1] + 1..]);
      NonEmptyIndicesSound(lines, |lines|, 0);
      NonEmptyIndicesSound(lines, |lines|, 1);
      assert !IsBlank(lines[ne[0]]) && !IsBlank(lines[ne[1]]) && ne[0] < ne[1];
    } else {
      forall j, k | 0 <= j < k < |lines|
        ensures IsBlank(lines[j]) || IsBlank(lines[k])
      {
        if !IsBlank(lines[j]) && !IsBlank(lines[k]) {
          NonEmptyIndicesComplete(lines, |lines|, j);
          NonEmptyIndicesComplete(lines, |lines|, k);
        }
      }
    }
  }

  // ---------- sanitize_filename_component ----------

  const ForbiddenChars: set<char> := {'\\', '/', ':', '*', '?', '"', '<', '>', '|'}

  /** `re.sub("[cls]+", [c], s)`: every maximal run of characters of `cls` becomes one `c`. */
  function SubRuns(s: string, cls: set<char>, c: char): (r: string)
    ensures forall i :: 0 <= i < |r| && r[i] in cls ==> r[i] == c
    ensures forall i :: 0 <= i < |r| - 1 && r[i] in cls ==> r[i + 1] !in cls
    ensures forall i :: 0 <= i < |r| ==> r[i] in s || r[i] == c
    ensures r == [] <==> s == []
    ensures s != [] && s[0] !in cls ==> r[0] == s[0]
    decreases |s|
  {
    if s == [] then []
    else if s[0] in cls then
      var rest := LStripChars(s, cls);
      LStripCharsSuffix(s, cls);
      assert forall ch :: ch in rest ==> ch in s;
      [c] + SubRuns(rest, cls, c)
    else
      [s[0]] + SubRuns(s[1..], cls, c)
  }

  function Min(a: int, b: int): int {
    if a < b then a else b
  }

  /** `sanitize_filename_component(s)`. */
  function SanitizeFilenameComponent(s: string): string {
    var t := SubRuns(SubRuns(Strip(s), ForbiddenChars, '-'), Whitespace, ' ');
    var u := Strip(t[..Min(120, |t|)]);
    if u == "" then "Untitled" else u
  }

  /** No forbidden character, and every whitespace is a lone plain space. */
  predicate CleanName(r: string) {
    (forall i :: 0 <= i < |r| ==> r[i] !in ForbiddenChars)
    && (forall i :: 0 <= i < |r| && IsSpace(r[i]) ==> r[i] == ' ')
    && (forall i :: 0 <= i < |r| - 1 && IsSpace(r[i]) ==> !IsSpace(r[i + 1]))
  }

  lemma {:induction false} CleanNameSlice(r: string, a: nat, b: nat)
    requires a <= b <= |r| && CleanName(r)
    ensures CleanName(r[a..b])
  {
    var q := r[a..b];
    assert forall i :: 0 <= i < |q| ==> q[i] == r[a + i];
  }

  /** After both substitutions the text is clean. */
  lemma {:induction false} SubstitutedIsClean(s: string)
    ensures CleanName(SubRuns(SubRuns(s, ForbiddenChars, '-'), Whitespace, ' '))
  {
    var t1 := SubRuns(s, ForbiddenChars, '-');
    SubRunsAvoids(s, ForbiddenChars, '-', ForbiddenChars);
    SubRunsAvoids(t1, Whitespace, ' ', ForbiddenChars);
  }

  /** Substituting runs of `cls` by a character outside `bad` brings in no
      character of `bad`, when every character of `bad` in the input is in `cls`. */
  lemma SubRunsAvoids(s: string, cls: set<char>, c: char, bad: set<char>)
    requires c !in bad
    requires forall i | 0 <= i < |s| :: s[i] in bad ==> s[i] in cls
    ensures forall i | 0 <= i < |SubRuns(s, cls, c)| :: SubRuns(s, cls, c)[i] !in bad
  {
    var r := SubRuns(s, cls, c);
    forall i | 0 <= i < |r|
      ensures r[i] !in bad
    {
      if r[i] != c {
        var k :| 0 <= k < |s| && s[k] == r[i];
      }
    }
  }

  /** Cutting a clean text and stripping it keeps it clean. */
  lemma {:induction false} CutIsClean(t: string, n: nat)
    requires CleanName(t) && n <= |t|
    ensures CleanName(Strip(t[..n])) && |Strip(t[..n])| <= n
  {
    var v := t[..n];
    CleanNameSlice(t, 0, n);
    var u := Strip(v);
    StripCharsSlice(v, Whitespace);
    var a := |v| - |LStrip(v)|;
    CleanNameSlice(v, a, a + |u|);
  }

  /** The sanitised component is never empty, at most 120 characters long, free of
      the characters `\/:*?"<>|`, and holds no whitespace run. */
  lemma {:induction false} SanitizedIsClean(s: string)
    ensures var r := SanitizeFilenameComponent(s);
      r != "" && |r| <= 120 && CleanName(r)
  {
    var t := SubRuns(SubRuns(Strip(s), ForbiddenChars, '-'), Whitespace, ' ');
    SubstitutedIsClean(Strip(s));
    CutIsClean(t, Min(120, |t|));
    UntitledIsClean();
  }

  /** The fallback name is itself clean: a capital followed by lower-case letters. */
  lemma UntitledIsClean()
    ensures CleanName("Untitled")
  {
    var x := "Untitled";
    var letters := {'U', 'n', 't', 'i', 'l', 'e', 'd'};
    assert letters !! ForbiddenChars && letters !! Whitespace;
    assert forall i :: 0 <= i < |x| ==> x[i] in letters;
  }

  // ---------- choose_destination_path ----------

  /** `songs_dir / name`. */
  function Child(dir: Path, name: string): Path {
    dir + Segments(name)
  }

  function NumberedName(base: string, i: int, ext: string): string {
    base + " (" + IntToString(i) + ")" + ext
  }

  function DestinationBase(title: string, artist: string): string {
    SanitizeFilenameComponent(artist) + " - " + SanitizeFilenameComponent(title)
  }

  /** `(songs_dir / name).exists()`. */
  predicate Taken(fs: Fs, dir: Path, name: string) {
    Exists(fs, Child(dir, name))
  }

  /** The numbered name `base (j) + ext` is taken. */
  predicate NumberTaken(fs: Fs, dir: Path, base: string, ext: string, j: int) {
    Taken(fs, dir, NumberedName(base, j, ext))
  }

  /** The first `i` in `from..limit-1` whose numbered name is free, or `limit`
      when none is. */
  function FirstFreeNumber(fs: Fs, dir: Path, base: string, ext: string, from: int, limit: int): (r: int)
    requires from <= limit
    ensures from <= r <= limit
    ensures r < limit ==> !NumberTaken(fs, dir, base, ext, r)
    ensures forall j | from <= j < r :: NumberTaken(fs, dir, base, ext, j)
    decreases limit - from
  {
    if from == limit then limit
    else if !NumberTaken(fs, dir, base, ext, from) then from
    else
      var r := FirstFreeNumber(fs, dir, base, ext, from + 1, limit);
      assert forall j | from <= j < r :: NumberTaken(fs, dir, base, ext, j) by {
        forall j | from <= j < r
          ensures NumberTaken(fs, dir, base, ext, j)
        {
          if j == from {
          } else {
            assert from + 1 <= j < r;
          }
        }
      }
      r
  }

  /** `name` is the choice after trying numbers `2..i-1`, all taken: the free
      numbered name `i`, or the `(imported)` name once `i` reaches 999. */
  predicate NumberedChoice(fs: Fs, dir: Path, base: string, ext: string, i: int, name: string) {
    2 <= i <= 999
    && (forall j | 2 <= j < i :: NumberTaken(fs, dir, base, ext, j))
    && (i < 999 ==> name == NumberedName(base, i, ext) && !Taken(fs, dir, name))
    && (i == 999 ==> name == base + " (imported)" + ext)
  }

  /** The file name `choose_destination_path` picks: `base + ext` when that is free;
      otherwise the first free `base (i) + ext` for `i` in 2..998, every earlier one
      being taken; and when all of those are taken, `base (imported) + ext`, which
      may itself exist. */
  function DestinationName(fs: Fs, dir: Path, title: string, artist: string, ext: string): (r: string)
    ensures var base := DestinationBase(title, artist);
      (!Taken(fs, dir, base + ext) ==> r == base + ext)
      && (Taken(fs, dir, base + ext) ==> exists i :: NumberedChoice(fs, dir, base, ext, i, r))
  {
    var base := DestinationBase(title, artist);
    if !Taken(fs, dir, base + ext) then base + ext
    else
      var i := FirstFreeNumber(fs, dir, base, ext, 2, 999);
      var name := if i < 999 then NumberedName(base, i, ext) else base + " (imported)" + ext;
      assert NumberedChoice(fs, dir, base, ext, i, name);
      name
  }

  /** `choose_destination_path(songs_dir, title, artist, ext)`. */
  method ChooseDestinationPath(fs: Fs, songsDir: Path, title: string, artist: string, ext: string) returns (r: Path)
    ensures r == Child(songsDir, DestinationName(fs, songsDir, title, artist, ext))
  {
    var base := DestinationBase(title, artist);
    var cand := Child(songsDir, base + ext);
    if !Exists(fs, cand) {
      return cand;
    }
    var i := 2;
    while i < 999
      invariant 2 <= i <= 999
      invariant FirstFreeNumber(fs, songsDir, base, ext, i, 999) == FirstFreeNumber(fs, songsDir, base, ext, 2, 999)
    {
      var cand2 := Child(songsDir, NumberedName(base, i, ext));
      if !Exists(fs, cand2) {
        return cand2;
      }
      i := i + 1;
    }
    return Child(songsDir, base + " (imported)" + ext);
  }

  // ---------- import_user_file_to_chordpro ----------

  /** One step of the title/artist scan: a key:value directive fills the title or
      the artist if it is still empty. */
  function ScanStep(acc: (string, string), raw: string): (string, string) {
    match KvMatch(Strip(raw))
    case None => acc
    case Some(kv) =>
      var key := Lower(kv.0);
      var val := kv.1;
      (if key in TitleKeys && acc.0 == "" then val else acc.0,
       if key in ArtistKeys && acc.1 == "" then val else acc.1)
  }

  /** The title and artist after scanning `lines` in order. */
  function ScanTitleArtist(lines: seq<string>): (string, string) {
    if lines == [] then ("", "") else ScanStep(ScanTitleArtist(lines[..|lines| - 1]), lines[|lines| - 1])
  }

  /** The value of the first directive of `lines` whose lower-cased key is in `keys`
      and whose value is not empty, or "". */
  function FirstDirectiveValue(lines: seq<string>, keys: set<string>): (r: string) {
    if lines == [] then ""
    else match KvMatch(Strip(lines[0]))
      case Some(kv) =>
        if Lower(kv.0) in keys && kv.1 != "" then kv.1 else FirstDirectiveValue(lines[1..], keys)
      case None => FirstDirectiveValue(lines[1..], keys)
  }

  lemma {:induction false} FirstDirectiveValueSnoc(lines: seq<string>, keys: set<string>, last: string)
    ensures FirstDirectiveValue(lines + [last], keys) ==
      if FirstDirectiveValue(lines, keys) != "" then FirstDirectiveValue(lines, keys) else FirstDirectiveValue([last], keys)
  {
    if lines != [] {
      assert (lines + [last])[1..] == lines[1..] + [last];
      FirstDirectiveValueSnoc(lines[1..], keys, last);
    }
  }

  /** The scan keeps the first non-empty `title`/`t` value and the first non-empty
      `artist`/`a` value. */
  lemma {:induction false} ScanFindsFirstValues(lines: seq<string>)
    ensures ScanTitleArtist(lines) == (FirstDirectiveValue(lines, TitleKeys), FirstDirectiveValue(lines, ArtistKeys))
  {
    if lines != [] {
      var init := lines[..|lines| - 1];
      var last := lines[|lines| - 1];
      ScanFindsFirstValues(init);
      assert init + [last] == lines;
      FirstDirectiveValueSnoc(init, TitleKeys, last);
      FirstDirectiveValueSnoc(init, ArtistKeys, last);
      ScanStepFirst(ScanTitleArtist(init), last);
    }
  }

  /** One scan step fills an empty title or artist with the line's own first value. */
  lemma ScanStepFirst(acc: (string, string), last: string)
    ensures ScanStep(acc, last) ==
      (if acc.0 != "" then acc.0 else FirstDirectiveValue([last], TitleKeys),
       if acc.1 != "" then acc.1 else FirstDirectiveValue([last], ArtistKeys))
  {
    assert [last][1..] == [];
  }

  /** The text of a validated ChordPro file, given a final newline if it lacks one. */
  function WithFinalNewline(text: string): (r: string)
    ensures EndsWith(r, "\n") && text <= r && |r| <= |text| + 1
  {
    if EndsWith(text, "\n") then text else text + "\n"
  }

  /** What `import_user_file_to_chordpro` makes of a file's text. */
  function ImportText(text: string): Result<ImportedSong> {
    if LooksLikeChordproSpec(text) && ValidChordpro(text) then
      var ta := ScanTitleArtist(SplitLines(text));
      Ok(ImportedSong(ta.0, ta.1, WithFinalNewline(text)))
    else FallbackImport(text)
  }

  /** `normalize_song_file(src)`, which is `import_user_file_to_chordpro(src)`. */
  function ImportFile(fs: Fs, src: Path): Result<ImportedSong> {
    var text :- ReadText(fs, src);
    ImportText(text)
  }

  /** Every imported song's text ends with a newline. */
  lemma ImportedTextEndsWithNewline(text: string)
    requires ImportText(text).Ok?
    ensures EndsWith(ImportText(text).value.chordproText, "\n")
  {
  }

  /** `import_user_file_to_chordpro(src)`. */
  method ImportUserFileToChordpro(fs: Fs, src: Path) returns (r: Result<ImportedSong>)
    ensures r == ImportFile(fs, src)
  {
    var read := ReadText(fs, src);
    if read.Err? {
      return Err(read.error);
    }
    var text := read.value;
    var looks := LooksLikeChordpro(text);
    if looks {
      var ok, reason := ValidateChordproBasic(text);
      if ok {
        var title := "";
        var artist := "";
        var lines := SplitLines(text);
        var i := 0;
        while i < |lines|
          invariant 0 <= i <= |lines|
          invariant (title, artist) == ScanTitleArtist(lines[..i])
        {
          assert lines[..i + 1][..i] == lines[..i];
          var m := KvMatch(Strip(lines[i]));
          if m.Some? {
            var key := Lower(m.value.0);
            var val := m.value.1;
            if key in TitleKeys && title == "" {
              title := val;
            }
            if key in ArtistKeys && artist == "" {
              artist := val;
            }
          }
          i := i + 1;
        }
        assert lines[..i] == lines;
        return Ok(ImportedSong(title, artist, if EndsWith(text, "\n") then text else text + "\n"));
      }
    }
    r := FallbackImport(text);
  }
}
