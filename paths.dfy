/** Paths as `pathlib` sees them on POSIX, and the application's directory layout
    (stagepro/paths.py). A path is the sequence of its segments below the file
    system root; the app-data directory and the home directory, which the
    program asks Qt and the environment for, are parameters. */
module Paths {
  import opened Wrappers
  import opened Strings

  type Path = seq<string>

  /** A segment `pathlib` keeps: not empty, not `.`, and without a separator. */
  predicate ValidSegment(s: string) {
    s != "" && s != "." && '/' !in s
  }

  predicate ValidPath(p: Path) {
    forall i :: 0 <= i < |p| ==> ValidSegment(p[i])
  }

  /** The segments `pathlib` keeps out of pieces split at `/`: empty pieces and `.` go. */
  function KeepSegments(parts: seq<string>): (r: Path)
    requires forall i :: 0 <= i < |parts| ==> '/' !in parts[i]
    ensures ValidPath(r)
    ensures |r| <= |parts|
  {
    if parts == [] then []
    else
      var rest := KeepSegments(parts[1..]);
      if parts[0] == "" || parts[0] == "." then rest else [parts[0]] + rest
  }

  /** The segments of `Path(s)`, the root (if any) left aside. */
  function Segments(s: string): (r: Path)
    ensures ValidPath(r)
  {
    KeepSegments(SplitOn(s, '/'))
  }

  /** The text of a relative path, `rel.as_posix()`. */
  function RelText(rel: Path): string {
    if rel == [] then "." else Join("/", rel)
  }

  /** The text of an absolute path, `str(p)`. */
  function AbsText(p: Path): string {
    "/" + Join("/", p)
  }

  /** `p.parent`; the root is its own parent. */
  function Parent(p: Path): (r: Path)
    ensures p != [] ==> r + [p[|p| - 1]] == p
  {
    if p == [] then [] else p[..|p| - 1]
  }

  /** `p.name`; empty for the root. */
  function Name(p: Path): string {
    if p == [] then "" else p[|p| - 1]
  }

  /** `p.relative_to(base)`, which raises when `p` is not under `base`. */
  function RelativeTo(p: Path, base: Path): (r: Result<Path>)
    ensures r.Ok? <==> base <= p
    ensures r.Ok? ==> base + r.value == p
  {
    if base <= p then Ok(p[|base|..]) else Err(AbsText(p) + " is not in the subpath of " + AbsText(base))
  }

  // ---------- names: suffix, stem, suffixes ----------

  /** The index of the last `.` in `name`, if any. */
  function LastDot(name: string): (r: Option<nat>)
    ensures r.Some? ==> r.value < |name| && name[r.value] == '.' && '.' !in name[r.value + 1..]
    ensures r.None? ==> '.' !in name
  {
    if name == [] then None
    else if name[|name| - 1] == '.' then Some(|name| - 1)
    else match LastDot(name[..|name| - 1])
      case None => assert name == name[..|name| - 1] + [name[|name| - 1]]; None
      case Some(i) => assert name[i + 1..] == name[..|name| - 1][i + 1..] + [name[|name| - 1]]; Some(i)
  }

  /** `PurePath(name).suffix`: from the last dot, unless that dot leads or ends the name. */
  function Suffix(name: string): (r: string)
    ensures r == [] || (r[0] == '.' && |r| >= 2 && EndsWith(name, r) && |r| < |name| && '.' !in r[1..])
  {
    match LastDot(name)
    case Some(i) => if 0 < i < |name| - 1 then name[i..] else ""
    case None => ""
  }

  /** `PurePath(name).stem`: the name without its suffix. */
  function Stem(name: string): (r: string)
    ensures r + Suffix(name) == name
  {
    match LastDot(name)
    case Some(i) => if 0 < i < |name| - 1 then name[..i] else name
    case None => name
  }

  /** `PurePath(name).suffixes`, joined: every dotted part after the first, the
      leading dots of a hidden name skipped; none when the name ends in a dot. */
  function AllSuffixes(name: string): string {
    if name != [] && name[|name| - 1] == '.' then ""
    else
      var parts := SplitOn(LStripChars(name, {'.'}), '.');
      Join("", DotEach(parts[1..]))
  }

  function DotEach(parts: seq<string>): (r: seq<string>)
    ensures |r| == |parts|
    ensures forall i :: 0 <= i < |parts| ==> r[i] == "." + parts[i]
  {
    if parts == [] then [] else ["." + parts[0]] + DotEach(parts[1..])
  }

  // ---------- the application's layout ----------

  /** `resolve_library_path(path_str)`: the app-data dir for an empty string, a
      `~` prefix expanded to the home directory, an absolute path kept as it is,
      and a relative one joined under the app-data dir. */
  function ResolveLibraryPath(appData: Path, home: Path, s: string): (r: Path)
    ensures s == "" ==> r == appData
    ensures s != "" && s[0] == '/' ==> r == Segments(s)
    ensures s != "" && s[0] != '/' && s[0] != '~' ==> r == appData + Segments(s)
    ensures s == "~" || StartsWith(s, "~/") ==> r == home + Segments(s[1..])
    ensures s != "" && s[0] == '~' && s != "~" && !StartsWith(s, "~/") ==> r == appData + Segments(s)
  {
    if s == "" then appData
    else if s == "~" || StartsWith(s, "~/") then home + Segments(s[1..])
    else if s[0] == '/' then Segments(s)
    else appData + Segments(s)
  }

  function LibrariesBaseDir(appData: Path): Path {
    appData + ["libraries"]
  }

  function LibrariesSourcesDir(appData: Path): Path {
    LibrariesBaseDir(appData) + ["sources"]
  }

  function LibrariesPublishedDir(appData: Path): Path {
    LibrariesBaseDir(appData) + ["published"]
  }

  function OverridesDir(appData: Path): Path {
    appData + ["songs", "overrides"]
  }

  function LibrariesConfigPath(appData: Path): Path {
    appData + ["libraries.json"]
  }

  /** Splitting the `/`-joined text of segments without `/` gives the segments back. */
  lemma {:induction false} SplitJoin(parts: seq<string>)
    requires parts != []
    requires forall i :: 0 <= i < |parts| ==> '/' !in parts[i]
    ensures SplitOn(Join("/", parts), '/') == parts
  {
    if |parts| == 1 {
      assert SplitOn(parts[0], '/') == [parts[0]];
    } else {
      var s := Join("/", parts);
      assert s == parts[0] + "/" + Join("/", parts[1..]);
      assert s[|parts[0]|] == '/' && s[..|parts[0]|] == parts[0];
      assert IndexOfChar(s, '/') == Some(|parts[0]|) by {
        IndexOfCharAt(s, '/', |parts[0]|);
      }
      assert s[|parts[0]| + 1..] == Join("/", parts[1..]);
      SplitJoin(parts[1..]);
    }
  }

  lemma {:induction false} KeepValidSegments(parts: seq<string>)
    requires ValidPath(parts)
    ensures KeepSegments(parts) == parts
  {
    if parts != [] {
      KeepValidSegments(parts[1..]);
    }
  }

  /** Rendering a well-formed absolute path and resolving it again gives the same path. */
  lemma {:induction false} ResolveAbsoluteRoundTrip(appData: Path, home: Path, p: Path)
    requires ValidPath(p)
    ensures ResolveLibraryPath(appData, home, AbsText(p)) == p
  {
    var s := AbsText(p);
    assert s[0] == '/';
    if p == [] {
      assert s == "/";
      assert IndexOfChar(s, '/') == Some(0);
      assert SplitOn(s, '/') == [""] + SplitOn("", '/');
      return;
    }
    var parts := [""] + p;
    forall i | 0 <= i < |parts|
      ensures '/' !in parts[i]
    {
      if i > 0 {
        assert parts[i] == p[i - 1];
      }
    }
    assert parts[1..] == p;
    assert Join("/", parts) == s;
    SplitJoin(parts);
    KeepValidSegments(p);
    assert KeepSegments(parts) == KeepSegments(p);
  }

  /** A well-formed relative path not starting with `~` resolves under the app-data dir. */
  lemma {:induction false} ResolveRelativeUnderAppData(appData: Path, home: Path, rel: Path)
    requires ValidPath(rel) && rel != [] && rel[0][0] != '~'
    ensures ResolveLibraryPath(appData, home, Join("/", rel)) == appData + rel
  {
    var s := Join("/", rel);
    assert s[0] == rel[0][0] by {
      if |rel| > 1 {
        assert s == rel[0] + "/" + Join("/", rel[1..]);
      }
    }
    SplitJoin(rel);
    KeepValidSegments(rel);
  }

  /** The three layout roots are disjoint: none lies inside another. */
  lemma LayoutRootsDisjoint(appData: Path)
    ensures !(LibrariesSourcesDir(appData) <= LibrariesPublishedDir(appData))
    ensures !(LibrariesPublishedDir(appData) <= LibrariesSourcesDir(appData))
    ensures !(OverridesDir(appData) <= LibrariesSourcesDir(appData)) && !(LibrariesSourcesDir(appData) <= OverridesDir(appData))
    ensures !(OverridesDir(appData) <= LibrariesPublishedDir(appData)) && !(LibrariesPublishedDir(appData) <= OverridesDir(appData))
  {
    var n := |appData|;
    assert LibrariesSourcesDir(appData)[n + 1] == "sources";
    assert LibrariesPublishedDir(appData)[n + 1] == "published";
    assert OverridesDir(appData)[n] == "songs";
    assert LibrariesSourcesDir(appData)[n] == "libraries";
  }
}
