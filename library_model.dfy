/** The library configuration and sync-state records (stagepro/libraries/model.py):
    a subscribed source, the list of sources, and the per-source sync state, each
    with its JSON-object form. A JSON object is a record of `Field`s, one per key
    the program reads; values of an unexpected JSON type are not modelled. */
module LibraryModel {
  import opened Wrappers
  import opened Strings
  import opened Paths
  import opened FileSystem

  const DefaultVersion := 1

  /** A JSON object with text values, as the `local`, `sync` and `auth` tables hold. */
  type Table = map<string, string>

  datatype LibrarySource = LibrarySource(
    sourceId: string,
    sourceType: string,
    name: string,
    enabled: bool,
    repoUrl: string,
    defaultBranch: string,
    includeGlobs: seq<string>,
    excludeGlobs: seq<string>,
    sync: Table,
    auth: Table,
    local: Table)

  /** The JSON object of one source, key by key. */
  datatype SourceDict = SourceDict(
    id: Field<string>,
    sourceType: Field<string>,
    name: Field<string>,
    enabled: Field<bool>,
    repoUrl: Field<string>,
    defaultBranch: Field<string>,
    includeGlobs: Field<seq<string>>,
    excludeGlobs: Field<seq<string>>,
    sync: Field<Table>,
    auth: Field<Table>,
    local: Field<Table>)

  // ---------- Python truthiness ----------

  /** `data.get(key) or default` for a text value: absent, `null` and `""` give the default. */
  function TextOr(f: Field<string>, default: string): string {
    if f.Present? && f.value != "" then f.value else default
  }

  /** `list(data.get(key) or [])`. */
  function ListOr(f: Field<seq<string>>): seq<string> {
    if f.Present? then f.value else []
  }

  /** `dict(data.get(key, {}) or {})`. */
  function TableOr(f: Field<Table>): Table {
    if f.Present? then f.value else map[]
  }

  /** `bool(data.get(key, default))`: an absent key gives the default, `null` gives false. */
  function BoolOr(f: Field<bool>, default: bool): bool {
    match f
    case Missing => default
    case Null => false
    case Present(b) => b
  }

  // ---------- the default local layout ----------

  const DefaultKeys: seq<string> := ["source_root", "mirror_dir", "published_dir", "overrides_dir"]

  /** The default values, in the order of `DefaultKeys`. */
  function DefaultValues(id: string): (r: seq<string>)
    ensures |r| == |DefaultKeys|
  {
    var base := "libraries/sources/" + id;
    [base, base + "/mirror", "libraries/published/" + id, "songs/overrides/" + id]
  }

  function DefaultLocal(id: string): (r: Table)
    ensures forall k :: k in r <==> k in DefaultKeys
  {
    var vs := DefaultValues(id);
    map[DefaultKeys[0] := vs[0], DefaultKeys[1] := vs[1], DefaultKeys[2] := vs[2], DefaultKeys[3] := vs[3]]
  }

  /** The table `_ensure_local_defaults` returns: every entry of `local` as it was,
      and every default key it lacks with its default value. */
  function WithDefaults(id: string, local: Table): (r: Table)
    ensures r.Keys == local.Keys + DefaultLocal(id).Keys
    ensures forall k | k in local :: r[k] == local[k]
    ensures forall k | k in r && k !in local :: r[k] == DefaultLocal(id)[k]
  {
    DefaultLocal(id) + local
  }

  /** The `i`-th default key is stored with the `i`-th default value. */
  lemma DefaultLocalAt(id: string, i: nat)
    requires i < |DefaultKeys|
    ensures DefaultKeys[i] in DefaultLocal(id) && DefaultLocal(id)[DefaultKeys[i]] == DefaultValues(id)[i]
  {
    if i == 0 {
    } else if i == 1 {
    } else if i == 2 {
    } else {
    }
  }

  /** `out` holds `local` and, for each of the first `i` default keys that `local`
      lacks, that key's default value; no other key. */
  ghost predicate FilledUpTo(id: string, local: Table, out: Table, i: nat)
    requires i <= |DefaultKeys|
  {
    (forall k :: k in out <==> k in local || k in DefaultKeys[..i])
    && (forall k | k in local :: k in out && out[k] == local[k])
    && (forall j | 0 <= j < i && DefaultKeys[j] !in local :: DefaultKeys[j] in out && out[DefaultKeys[j]] == DefaultValues(id)[j])
  }

  /** `dict.setdefault(key, value)`. */
  function SetDefault(m: Table, key: string, value: string): (r: Table)
    ensures key in r && r[key] == (if key in m then m[key] else value)
    ensures forall k | k != key :: (k in r <==> k in m) && (k in m ==> r[k] == m[k])
  {
    if key in m then m else m[key := value]
  }

  lemma FilledStep(id: string, local: Table, out: Table, i: nat)
    requires i < |DefaultKeys| && FilledUpTo(id, local, out, i)
    ensures FilledUpTo(id, local, SetDefault(out, DefaultKeys[i], DefaultValues(id)[i]), i + 1)
  {
    var key := DefaultKeys[i];
    if key !in out {
      var out2 := out[key := DefaultValues(id)[i]];
      assert DefaultKeys[..i + 1] == DefaultKeys[..i] + [key];
      forall j | 0 <= j < i + 1 && DefaultKeys[j] !in local
        ensures DefaultKeys[j] in out2 && out2[DefaultKeys[j]] == DefaultValues(id)[j]
      {
        if j < i {
          assert DefaultKeys[j] in DefaultKeys[..i];
        }
      }
    } else {
      assert DefaultKeys[..i + 1] == DefaultKeys[..i] + [key];
    }
  }

  lemma FilledAt(id: string, local: Table, out: Table, k: string)
    requires FilledUpTo(id, local, out, |DefaultKeys|)
    ensures k in out <==> k in WithDefaults(id, local)
    ensures k in out ==> out[k] == WithDefaults(id, local)[k]
  {
    assert DefaultKeys[..|DefaultKeys|] == DefaultKeys;
    if k in out && k !in local {
      var j :| 0 <= j < |DefaultKeys| && DefaultKeys[j] == k;
      DefaultLocalAt(id, j);
    }
  }

  /** Once every default key is handled, the table is the one `WithDefaults` describes. */
  lemma FilledAll(id: string, local: Table, out: Table)
    requires FilledUpTo(id, local, out, |DefaultKeys|)
    ensures out == WithDefaults(id, local)
  {
    var w := WithDefaults(id, local);
    forall k
      ensures (k in out <==> k in w) && (k in out ==> out[k] == w[k])
    {
      FilledAt(id, local, out, k);
    }
    assert out.Keys == w.Keys;
  }

  /** `_ensure_local_defaults(source_id, local)`: a copy of `local` on which
      `setdefault` is called for each default key in turn. */
  method EnsureLocalDefaults(id: string, local: Table) returns (out: Table)
    ensures out == WithDefaults(id, local)
  {
    var vs := DefaultValues(id);
    out := local;
    var i := 0;
    while i < |DefaultKeys|
      invariant 0 <= i <= |DefaultKeys|
      invariant FilledUpTo(id, local, out, i)
    {
      FilledStep(id, local, out, i);
      if DefaultKeys[i] !in out {
        out := out[DefaultKeys[i] := vs[i]];
      }
      i := i + 1;
    }
    FilledAll(id, local, out);
  }

  /** A table that already holds every default key is left as it is. */
  lemma WithDefaultsKeepsComplete(id: string, local: Table)
    requires forall i | 0 <= i < |DefaultKeys| :: DefaultKeys[i] in local
    ensures WithDefaults(id, local) == local
  {
  }

  /** Filling the defaults twice is the same as filling them once. */
  lemma WithDefaultsIdempotent(id: string, local: Table)
    ensures WithDefaults(id, WithDefaults(id, local)) == WithDefaults(id, local)
  {
  }

  // ---------- sources ----------

  /** `LibrarySource.from_dict`. */
  function SourceFromDict(d: SourceDict): (r: LibrarySource)
    ensures r.sourceId == Strip(TextOr(d.id, ""))
  {
    var id := Strip(TextOr(d.id, ""));
    var local := TableOr(d.local);
    LibrarySource(
      id,
      TextOr(d.sourceType, "github"),
      TextOr(d.name, id),
      BoolOr(d.enabled, true),
      TextOr(d.repoUrl, ""),
      TextOr(d.defaultBranch, "main"),
      ListOr(d.includeGlobs),
      ListOr(d.excludeGlobs),
      TableOr(d.sync),
      TableOr(d.auth),
      if id != "" then WithDefaults(id, local) else local)
  }

  /** `LibrarySource.to_dict`: every key present. */
  function SourceToDict(s: LibrarySource): SourceDict {
    SourceDict(
      Present(s.sourceId), Present(s.sourceType), Present(s.name), Present(s.enabled),
      Present(s.repoUrl), Present(s.defaultBranch), Present(s.includeGlobs),
      Present(s.excludeGlobs), Present(s.sync), Present(s.auth), Present(s.local))
  }

  /** A source that survives a trip through its JSON form unchanged. */
  predicate RoundTrips(s: LibrarySource) {
    s.sourceId != "" && Strip(s.sourceId) == s.sourceId
    && s.sourceType != "" && s.name != "" && s.defaultBranch != ""
    && forall i | 0 <= i < |DefaultKeys| :: DefaultKeys[i] in s.local
  }

  /** The defaults `from_dict` applies to a source with a usable id: the id stripped,
      the name falling back to the id, type `github`, branch `main`, enabled unless
      stated otherwise, and the local layout filled in without overwriting. */
  lemma SourceDefaults(d: SourceDict)
    requires Strip(TextOr(d.id, "")) != ""
    ensures var s := SourceFromDict(d);
      && s.sourceId == Strip(s.sourceId)
      && (d.name.Missing? || d.name.Null? || d.name == Present("") ==> s.name == s.sourceId)
      && (d.sourceType.Missing? || d.sourceType.Null? ==> s.sourceType == "github")
      && (d.defaultBranch.Missing? || d.defaultBranch.Null? ==> s.defaultBranch == "main")
      && (d.enabled.Missing? ==> s.enabled)
      && (forall k | k in TableOr(d.local) :: k in s.local && s.local[k] == TableOr(d.local)[k])
      && RoundTrips(s)
  {
    StripTwice(TextOr(d.id, ""));
  }

  /** Without a usable id, no local defaults are filled in. */
  lemma SourceWithoutIdKeepsLocal(d: SourceDict)
    requires Strip(TextOr(d.id, "")) == ""
    ensures SourceFromDict(d).local == TableOr(d.local)
    ensures SourceFromDict(d).sourceId == "" && SourceFromDict(d).name == TextOr(d.name, "")
  {
  }

  /** `from_dict(to_dict(s)) == s` for a source in normal form. */
  lemma SourceRoundTrip(s: LibrarySource)
    requires RoundTrips(s)
    ensures SourceFromDict(SourceToDict(s)) == s
  {
    WithDefaultsKeepsComplete(s.sourceId, s.local);
  }

  /** A source read from any JSON object is already in normal form: writing it out
      and reading it again gives the same source. */
  lemma SourceNormalFormStable(d: SourceDict)
    ensures SourceFromDict(SourceToDict(SourceFromDict(d))) == SourceFromDict(d)
  {
    var s := SourceFromDict(d);
    StripTwice(TextOr(d.id, ""));
    if s.sourceId != "" {
      WithDefaultsIdempotent(s.sourceId, TableOr(d.local));
    }
  }

  // ---------- the directory layout of a source ----------

  /** `str(self.local.get(key, ""))`. */
  function LocalText(local: Table, key: string): string {
    if key in local then local[key] else ""
  }

  /** `LibrarySource.mirror_dir()`. */
  function MirrorDir(appData: Path, home: Path, s: LibrarySource): Path {
    ResolveLibraryPath(appData, home, LocalText(s.local, "mirror_dir"))
  }

  /** `LibrarySource.published_dir()`. */
  function PublishedDir(appData: Path, home: Path, s: LibrarySource): Path {
    ResolveLibraryPath(appData, home, LocalText(s.local, "published_dir"))
  }

  /** `LibrarySource.overrides_dir()`. */
  function SourceOverridesDir(appData: Path, home: Path, s: LibrarySource): Path {
    ResolveLibraryPath(appData, home, LocalText(s.local, "overrides_dir"))
  }

  lemma JoinThree(a: string, b: string, c: string)
    ensures Join("/", [a, b, c]) == a + "/" + b + "/" + c
  {
    assert [a, b, c][1..] == [b, c];
    assert [b, c][1..] == [c];
    assert Join("/", [b, c]) == b + "/" + c;
    assert a + "/" + (b + "/" + c) == a + "/" + b + "/" + c;
  }

  lemma JoinFour(a: string, b: string, c: string, d: string)
    ensures Join("/", [a, b, c, d]) == a + "/" + b + "/" + c + "/" + d
  {
    assert [a, b, c, d][1..] == [b, c, d];
    JoinThree(b, c, d);
    assert a + "/" + (b + "/" + c + "/" + d) == a + "/" + b + "/" + c + "/" + d;
  }

  /** The stored defaults, looked up by their keys. */
  lemma DefaultLocalLookup(id: string)
    ensures LocalText(DefaultLocal(id), "mirror_dir") == DefaultValues(id)[1]
    ensures LocalText(DefaultLocal(id), "published_dir") == DefaultValues(id)[2]
    ensures LocalText(DefaultLocal(id), "overrides_dir") == DefaultValues(id)[3]
  {
  }

  lemma MirrorValueJoined(id: string)
    ensures DefaultValues(id)[1] == Join("/", ["libraries", "sources", id, "mirror"])
  {
    JoinFour("libraries", "sources", id, "mirror");
    assert "libraries/sources/" == "libraries" + "/" + "sources" + "/";
  }

  lemma PublishedValueJoined(id: string)
    ensures DefaultValues(id)[2] == Join("/", ["libraries", "published", id])
  {
    JoinThree("libraries", "published", id);
    assert "libraries/published/" == "libraries" + "/" + "published" + "/";
  }

  lemma OverridesValueJoined(id: string)
    ensures DefaultValues(id)[3] == Join("/", ["songs", "overrides", id])
  {
    JoinThree("songs", "overrides", id);
    assert "songs/overrides/" == "songs" + "/" + "overrides" + "/";
  }

  /** The default mirror path resolves inside the sources root, in a directory
      named after the source. */
  lemma DefaultMirrorDir(appData: Path, home: Path, s: LibrarySource)
    requires ValidSegment(s.sourceId) && s.local == DefaultLocal(s.sourceId)
    ensures MirrorDir(appData, home, s) == LibrariesSourcesDir(appData) + [s.sourceId, "mirror"]
    ensures var p := MirrorDir(appData, home, s);
      |p| == |appData| + 4 && p[|appData| + 1] == "sources" && p[|appData| + 2] == s.sourceId
  {
    var rel := ["libraries", "sources", s.sourceId, "mirror"];
    DefaultLocalLookup(s.sourceId);
    MirrorValueJoined(s.sourceId);
    assert ValidPath(rel);
    ResolveRelativeUnderAppData(appData, home, rel);
  }

  /** The default published path resolves inside the published root. */
  lemma DefaultPublishedDir(appData: Path, home: Path, s: LibrarySource)
    requires ValidSegment(s.sourceId) && s.local == DefaultLocal(s.sourceId)
    ensures PublishedDir(appData, home, s) == LibrariesPublishedDir(appData) + [s.sourceId]
    ensures var p := PublishedDir(appData, home, s);
      |p| == |appData| + 3 && p[|appData| + 1] == "published" && p[|appData| + 2] == s.sourceId
  {
    var rel := ["libraries", "published", s.sourceId];
    DefaultLocalLookup(s.sourceId);
    PublishedValueJoined(s.sourceId);
    assert ValidPath(rel);
    ResolveRelativeUnderAppData(appData, home, rel);
  }

  /** The default overrides path resolves inside the overrides root. */
  lemma DefaultOverridesDir(appData: Path, home: Path, s: LibrarySource)
    requires ValidSegment(s.sourceId) && s.local == DefaultLocal(s.sourceId)
    ensures SourceOverridesDir(appData, home, s) == Paths.OverridesDir(appData) + [s.sourceId]
    ensures var p := SourceOverridesDir(appData, home, s);
      |p| == |appData| + 3 && p[|appData| + 2] == s.sourceId
  {
    var rel := ["songs", "overrides", s.sourceId];
    DefaultLocalLookup(s.sourceId);
    OverridesValueJoined(s.sourceId);
    assert ValidPath(rel);
    ResolveRelativeUnderAppData(appData, home, rel);
  }

  /** Two sources with different ids never share a default directory. */
  lemma DefaultDirsNamespaced(appData: Path, home: Path, s: LibrarySource, t: LibrarySource)
    requires ValidSegment(s.sourceId) && s.local == DefaultLocal(s.sourceId)
    requires ValidSegment(t.sourceId) && t.local == DefaultLocal(t.sourceId)
    requires s.sourceId != t.sourceId
    ensures MirrorDir(appData, home, s) != MirrorDir(appData, home, t)
    ensures PublishedDir(appData, home, s) != PublishedDir(appData, home, t)
    ensures SourceOverridesDir(appData, home, s) != SourceOverridesDir(appData, home, t)
    ensures MirrorDir(appData, home, s) != PublishedDir(appData, home, t)
  {
    var n := |appData|;
    DefaultMirrorDir(appData, home, s);
    DefaultMirrorDir(appData, home, t);
    DefaultPublishedDir(appData, home, s);
    DefaultPublishedDir(appData, home, t);
    DefaultOverridesDir(appData, home, s);
    DefaultOverridesDir(appData, home, t);
    assert MirrorDir(appData, home, s)[n + 2] != MirrorDir(appData, home, t)[n + 2];
    assert PublishedDir(appData, home, s)[n + 2] != PublishedDir(appData, home, t)[n + 2];
    assert SourceOverridesDir(appData, home, s)[n + 2] != SourceOverridesDir(appData, home, t)[n + 2];
    assert MirrorDir(appData, home, s)[n + 1] != PublishedDir(appData, home, t)[n + 1];
  }

  // ---------- the list of sources ----------

  datatype LibrariesConfig = LibrariesConfig(version: int, librarySources: seq<LibrarySource>)

  datatype ConfigDict = ConfigDict(version: Field<int>, librarySources: Field<seq<SourceDict>>)

  const DefaultConfig := LibrariesConfig(DefaultVersion, [])

  /** Every entry read with `LibrarySource.from_dict`, in order. */
  function SourcesFromDicts(ds: seq<SourceDict>): (r: seq<LibrarySource>)
    ensures |r| == |ds|
    ensures forall i | 0 <= i < |ds| :: r[i] == SourceFromDict(ds[i])
  {
    if ds == [] then [] else [SourceFromDict(ds[0])] + SourcesFromDicts(ds[1..])
  }

  /** The sources with a non-empty id, in their original order. */
  function KeepWithId(ss: seq<LibrarySource>): (r: seq<LibrarySource>)
    ensures forall i | 0 <= i < |r| :: r[i].sourceId != "" && r[i] in ss
    ensures forall s | s in ss && s.sourceId != "" :: s in r
    ensures |r| <= |ss|
  {
    if ss == [] then []
    else if ss[0].sourceId != "" then [ss[0]] + KeepWithId(ss[1..])
    else KeepWithId(ss[1..])
  }

  /** Filtering is done piece by piece, so the kept sources stay in input order. */
  lemma {:induction false} KeepWithIdAppend(a: seq<LibrarySource>, b: seq<LibrarySource>)
    ensures KeepWithId(a + b) == KeepWithId(a) + KeepWithId(b)
  {
    if a == [] {
      assert a + b == b;
    } else {
      assert (a + b)[1..] == a[1..] + b;
      KeepWithIdAppend(a[1..], b);
    }
  }

  /** `LibrariesConfig.from_dict`: the version defaults to 1 (also for 0), and
      sources without an id are dropped. */
  function ConfigFromDict(d: ConfigDict): (r: LibrariesConfig)
    ensures r.version != 0
    ensures forall i | 0 <= i < |r.librarySources| :: r.librarySources[i].sourceId != ""
  {
    var entries := if d.librarySources.Present? then d.librarySources.value else [];
    var version := if d.version.Present? && d.version.value != 0 then d.version.value else DefaultVersion;
    LibrariesConfig(version, KeepWithId(SourcesFromDicts(entries)))
  }

  function SourcesToDicts(ss: seq<LibrarySource>): (r: seq<SourceDict>)
    ensures |r| == |ss|
    ensures forall i | 0 <= i < |ss| :: r[i] == SourceToDict(ss[i])
  {
    if ss == [] then [] else [SourceToDict(ss[0])] + SourcesToDicts(ss[1..])
  }

  /** `LibrariesConfig.to_dict`. */
  function ConfigToDict(c: LibrariesConfig): ConfigDict {
    ConfigDict(Present(c.version), Present(SourcesToDicts(c.librarySources)))
  }

  lemma SourcesToDictsCons(ss: seq<LibrarySource>)
    requires ss != []
    ensures SourcesToDicts(ss) == [SourceToDict(ss[0])] + SourcesToDicts(ss[1..])
  {
  }

  lemma SourcesFromDictsCons(d: SourceDict, ds: seq<SourceDict>)
    ensures SourcesFromDicts([d] + ds) == [SourceFromDict(d)] + SourcesFromDicts(ds)
  {
    assert ([d] + ds)[1..] == ds;
  }

  lemma KeepWithIdCons(s: LibrarySource, ss: seq<LibrarySource>)
    requires s.sourceId != ""
    ensures KeepWithId([s] + ss) == [s] + KeepWithId(ss)
  {
    assert ([s] + ss)[1..] == ss;
  }

  lemma {:induction false} SourcesRoundTrip(ss: seq<LibrarySource>)
    requires forall i | 0 <= i < |ss| :: RoundTrips(ss[i])
    ensures KeepWithId(SourcesFromDicts(SourcesToDicts(ss))) == ss
  {
    if ss != [] {
      var rest := ss[1..];
      SourcesToDictsCons(ss);
      SourcesFromDictsCons(SourceToDict(ss[0]), SourcesToDicts(rest));
      assert RoundTrips(ss[0]);
      SourceRoundTrip(ss[0]);
      KeepWithIdCons(ss[0], SourcesFromDicts(SourcesToDicts(rest)));
      forall i | 0 <= i < |rest|
        ensures RoundTrips(rest[i])
      {
        assert rest[i] == ss[i + 1];
      }
      SourcesRoundTrip(rest);
      assert [ss[0]] + rest == ss;
    }
  }

  /** `from_dict(to_dict(c)) == c` when the version is not 0 and every source is in normal form. */
  lemma ConfigRoundTrip(c: LibrariesConfig)
    requires c.version != 0
    requires forall i | 0 <= i < |c.librarySources| :: RoundTrips(c.librarySources[i])
    ensures ConfigFromDict(ConfigToDict(c)) == c
  {
    SourcesRoundTrip(c.librarySources);
  }

  /** The source `sync_source` looks for: the first one with the given id. */
  function FindSource(c: LibrariesConfig, id: string): (r: Option<LibrarySource>)
    ensures r.Some? ==> r.value in c.librarySources && r.value.sourceId == id
    ensures r.None? <==> forall i | 0 <= i < |c.librarySources| :: c.librarySources[i].sourceId != id
    decreases |c.librarySources|
  {
    if c.librarySources == [] then None
    else if c.librarySources[0].sourceId == id then Some(c.librarySources[0])
    else FindSource(LibrariesConfig(c.version, c.librarySources[1..]), id)
  }

  /** `load_libraries_config`: the decoded file when it exists and decodes; the
      default list when it does not decode; when there is no file the default is
      also written out (written by `encode`). `decode` and `encode` stand for
      `json.loads` and `json.dumps`. */
  function LoadLibrariesConfig(fs: Fs, path: Path, decode: string -> Result<ConfigDict>,
                               encode: ConfigDict -> string): (r: (LibrariesConfig, Result<Fs>))
    ensures Exists(fs, path) ==> r.1 == Ok(fs)
    ensures Exists(fs, path) && (ReadText(fs, path).Err? || decode(ReadText(fs, path).value).Err?) ==> r.0 == DefaultConfig
    ensures Exists(fs, path) && ReadText(fs, path).Ok? && decode(ReadText(fs, path).value).Ok?
      ==> r.0 == ConfigFromDict(decode(ReadText(fs, path).value).value)
    ensures !Exists(fs, path) ==> r.0 == DefaultConfig
    ensures !Exists(fs, path) && r.1.Ok?
      ==> ReadText(r.1.value, path) == Ok(UniversalNewlines(encode(ConfigToDict(DefaultConfig))))
  {
    if Exists(fs, path) then
      match ReadText(fs, path)
      case Err(_) => (DefaultConfig, Ok(fs))
      case Ok(text) =>
        match decode(text)
        case Err(_) => (DefaultConfig, Ok(fs))
        case Ok(d) => (ConfigFromDict(d), Ok(fs))
    else
      var text := encode(ConfigToDict(DefaultConfig));
      (DefaultConfig, match Mkdirs(fs, Parent(path))
                      case Err(e) => Err(e)
                      case Ok(fs1) => WriteText(fs1, path, text))
  }

  // ---------- sync state ----------

  datatype LibrarySyncState = LibrarySyncState(
    status: string,
    lastSyncAt: Option<string>,
    lastSuccessAt: Option<string>,
    lastError: Option<string>,
    lastCommit: Option<string>,
    filesIndexed: int)

  datatype StateDict = StateDict(
    status: Field<string>,
    lastSyncAt: Field<string>,
    lastSuccessAt: Field<string>,
    lastError: Field<string>,
    lastCommit: Field<string>,
    filesIndexed: Field<int>)

  const DefaultState := LibrarySyncState("idle", None, None, None, None, 0)

  /** What `load_state` gives when the file cannot be read or decoded. */
  const ReadFailedState := LibrarySyncState("error", None, None, Some("Failed to read state.json"), None, 0)

  /** `LibrarySyncState.from_dict`. */
  function StateFromDict(d: StateDict): (r: LibrarySyncState)
    ensures r.status != ""
  {
    LibrarySyncState(
      TextOr(d.status, "idle"),
      d.lastSyncAt.ToOption(),
      d.lastSuccessAt.ToOption(),
      d.lastError.ToOption(),
      d.lastCommit.ToOption(),
      if d.filesIndexed.Present? then d.filesIndexed.value else 0)
  }

  /** `None` is written as JSON `null`. */
  function NullOr(o: Option<string>): (r: Field<string>)
    ensures r.ToOption() == o
  {
    match o
    case None => Null
    case Some(v) => Present(v)
  }

  /** `LibrarySyncState.to_dict`. */
  function StateToDict(st: LibrarySyncState): StateDict {
    StateDict(Present(st.status), NullOr(st.lastSyncAt), NullOr(st.lastSuccessAt),
      NullOr(st.lastError), NullOr(st.lastCommit), Present(st.filesIndexed))
  }

  /** `from_dict(to_dict(st)) == st` whenever the status is not empty. */
  lemma StateRoundTrip(st: LibrarySyncState)
    requires st.status != ""
    ensures StateFromDict(StateToDict(st)) == st
  {
  }

  /** An object with no known key reads as the default state. */
  lemma EmptyStateDictIsDefault()
    ensures StateFromDict(StateDict(Missing, Missing, Missing, Missing, Missing, Missing)) == DefaultState
  {
  }

  /** Where a source keeps its `state.json`. */
  function StatePath(appData: Path, id: string): Path {
    LibrariesSourcesDir(appData) + [id, "state.json"]
  }

  /** `load_state(source_id)`: the default state when no file exists, the decoded
      state when it reads and decodes, and the error state otherwise. */
  function LoadState(fs: Fs, appData: Path, id: string, decode: string -> Result<StateDict>): (r: LibrarySyncState)
    ensures !Exists(fs, StatePath(appData, id)) ==> r == DefaultState
    ensures Exists(fs, StatePath(appData, id)) && ReadText(fs, StatePath(appData, id)).Err? ==> r == ReadFailedState
    ensures Exists(fs, StatePath(appData, id)) && ReadText(fs, StatePath(appData, id)).Ok?
      ==> r == match decode(ReadText(fs, StatePath(appData, id)).value)
               case Err(_) => ReadFailedState
               case Ok(d) => StateFromDict(d)
    ensures r.status != ""
  {
    var p := StatePath(appData, id);
    if !Exists(fs, p) then DefaultState
    else
      match ReadText(fs, p)
      case Err(_) => ReadFailedState
      case Ok(text) =>
        match decode(text)
        case Err(_) => ReadFailedState
        case Ok(d) => StateFromDict(d)
  }

  /** `save_state(source_id, state)`: creates the directory, then writes the JSON text. */
  function SaveState(fs: Fs, appData: Path, id: string, st: LibrarySyncState, encode: StateDict -> string): (r: Result<Fs>)
    ensures r.Ok? ==> IsFile(r.value, StatePath(appData, id))
  {
    var p := StatePath(appData, id);
    var fs1 :- Mkdirs(fs, Parent(p));
    WriteText(fs1, p, encode(StateToDict(st)))
  }

  /** What `save_state` writes, `load_state` reads back, given a JSON codec that
      decodes what it encodes. */
  lemma SaveThenLoad(fs: Fs, appData: Path, id: string, st: LibrarySyncState,
                     encode: StateDict -> string, decode: string -> Result<StateDict>)
    requires SaveState(fs, appData, id, st, encode).Ok? && st.status != ""
    requires decode(UniversalNewlines(encode(StateToDict(st)))) == Ok(StateToDict(st))
    ensures LoadState(SaveState(fs, appData, id, st, encode).value, appData, id, decode) == st
  {
    StateRoundTrip(st);
  }
}
