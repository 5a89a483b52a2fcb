/** The older configuration model of library sources (stagepro/library_sources.py).
    A source here keeps a copy of the JSON object it was read from, and its
    directories fall back to the layout roots when the local table has no entry. */
module LibrarySources {
  import opened Wrappers
  import opened Strings
  import opened Paths
  import opened LibraryModel

  datatype LegacySource = LegacySource(
    sourceId: string,
    sourceType: string,
    name: string,
    enabled: bool,
    includeGlobs: seq<string>,
    excludeGlobs: seq<string>,
    local: Table,
    raw: SourceDict)

  /** `default_libraries_config()`. */
  function DefaultLibrariesConfig(): (r: ConfigDict)
    ensures r.librarySources == Present([])
  {
    ConfigDict(Present(DefaultVersion), Present([]))
  }

  /** `LibrarySource.from_dict` of the older model. */
  function LegacyFromDict(d: SourceDict): (r: LegacySource)
    ensures r.raw == d
  {
    var id := Strip(TextOr(d.id, ""));
    var local := TableOr(d.local);
    LegacySource(
      id,
      TextOr(d.sourceType, "github"),
      TextOr(d.name, id),
      BoolOr(d.enabled, true),
      ListOr(d.includeGlobs),
      ListOr(d.excludeGlobs),
      if id != "" then WithDefaults(id, local) else local,
      d)
  }

  /** Both models read the fields they share in the same way. */
  lemma LegacyAgreesWithModel(d: SourceDict)
    ensures var l := LegacyFromDict(d);
      var s := SourceFromDict(d);
      && l.sourceId == s.sourceId && l.sourceType == s.sourceType && l.name == s.name
      && l.enabled == s.enabled && l.includeGlobs == s.includeGlobs
      && l.excludeGlobs == s.excludeGlobs && l.local == s.local
  {
  }

  /** `LibrarySource.published_dir()`: the local entry when it is a non-empty text,
      otherwise the source's directory under the published root. */
  function LegacyPublishedDir(appData: Path, home: Path, s: LegacySource): (r: Path)
    ensures LocalText(s.local, "published_dir") == "" ==> r == LibrariesPublishedDir(appData) + [s.sourceId]
  {
    var v := LocalText(s.local, "published_dir");
    if v != "" then ResolveLibraryPath(appData, home, v) else LibrariesPublishedDir(appData) + [s.sourceId]
  }

  /** `LibrarySource.overrides_dir()`: as above, under the overrides root. */
  function LegacyOverridesDir(appData: Path, home: Path, s: LegacySource): (r: Path)
    ensures LocalText(s.local, "overrides_dir") == "" ==> r == Paths.OverridesDir(appData) + [s.sourceId]
  {
    var v := LocalText(s.local, "overrides_dir");
    if v != "" then ResolveLibraryPath(appData, home, v) else Paths.OverridesDir(appData) + [s.sourceId]
  }

  /** For a source whose local table holds only the defaults, the older and newer
      models find the same published and overrides directories. */
  lemma LegacyDefaultDirsAgree(appData: Path, home: Path, d: SourceDict)
    requires ValidSegment(LegacyFromDict(d).sourceId) && TableOr(d.local) == map[]
    ensures LegacyPublishedDir(appData, home, LegacyFromDict(d)) == PublishedDir(appData, home, SourceFromDict(d))
    ensures LegacyOverridesDir(appData, home, LegacyFromDict(d)) == SourceOverridesDir(appData, home, SourceFromDict(d))
  {
    var s := SourceFromDict(d);
    assert s.local == DefaultLocal(s.sourceId);
    DefaultPublishedDir(appData, home, s);
    DefaultOverridesDir(appData, home, s);
  }

  /** An empty `published_dir` entry is where the models part: the newer one
      resolves it to the app-data directory itself, the older one falls back to
      the source's directory under the published root. */
  lemma EmptyPublishedEntryDiffers(appData: Path, home: Path, d: SourceDict)
    requires "published_dir" in TableOr(d.local) && TableOr(d.local)["published_dir"] == ""
    ensures PublishedDir(appData, home, SourceFromDict(d)) == appData
    ensures LegacyPublishedDir(appData, home, LegacyFromDict(d)) == LibrariesPublishedDir(appData) + [LegacyFromDict(d).sourceId]
    ensures PublishedDir(appData, home, SourceFromDict(d)) != LegacyPublishedDir(appData, home, LegacyFromDict(d))
  {
  }

  /** The sources `parse_library_sources` keeps: those with a non-empty id, in order. */
  function LegacySources(entries: seq<SourceDict>): (r: seq<LegacySource>)
    ensures forall i | 0 <= i < |r| :: r[i].sourceId != "" && r[i].raw in entries && r[i] == LegacyFromDict(r[i].raw)
    ensures forall d | d in entries && LegacyFromDict(d).sourceId != "" :: LegacyFromDict(d) in r
  {
    if entries == [] then []
    else
      var s := LegacyFromDict(entries[0]);
      if s.sourceId != "" then [s] + LegacySources(entries[1..]) else LegacySources(entries[1..])
  }

  lemma {:induction false} LegacySourcesAppend(a: seq<SourceDict>, b: seq<SourceDict>)
    ensures LegacySources(a + b) == LegacySources(a) + LegacySources(b)
  {
    if a == [] {
      assert a + b == b;
    } else {
      assert (a + b)[1..] == a[1..] + b;
      LegacySourcesAppend(a[1..], b);
    }
  }

  lemma LegacySourcesSnoc(entries: seq<SourceDict>, i: nat)
    requires i < |entries|
    ensures var s := LegacyFromDict(entries[i]);
      LegacySources(entries[..i + 1]) == LegacySources(entries[..i]) + (if s.sourceId != "" then [s] else [])
  {
    assert entries[..i + 1] == entries[..i] + [entries[i]];
    LegacySourcesAppend(entries[..i], [entries[i]]);
    assert [entries[i]][1..] == [];
  }

  /** `parse_library_sources(cfg)`. */
  method ParseLibrarySources(cfg: ConfigDict) returns (sources: seq<LegacySource>)
    ensures sources == LegacySources(if cfg.librarySources.Present? then cfg.librarySources.value else [])
  {
    var entries := if cfg.librarySources.Present? then cfg.librarySources.value else [];
    sources := [];
    var i := 0;
    while i < |entries|
      invariant 0 <= i <= |entries|
      invariant sources == LegacySources(entries[..i])
    {
      LegacySourcesSnoc(entries, i);
      var source := LegacyFromDict(entries[i]);
      if source.sourceId != "" {
        sources := sources + [source];
      }
      i := i + 1;
    }
    assert entries[..i] == entries;
  }

  /** The default configuration lists no sources. */
  lemma DefaultConfigHasNoSources()
    ensures LegacySources(DefaultLibrariesConfig().librarySources.value) == []
  {
  }
}
