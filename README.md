# StagePro core, modelled in Dafny

StagePro shows song lyrics and chords on stage. Songs are ChordPro text files. The program parses them, cuts them into HTML chunks, paginates those to the window height, and lets a footswitch turn pages and songs. Playlists order the songs. Song libraries are git repositories: each one is mirrored, and its songs are normalised into a published tree that the program reads.

This project models that core and proves what it promises. There is one module per source file, plus shared modules:

- `Wrappers`: Option and Result. A Python exception is modelled as `Err`.
- `Strings`: Python's `str` operations.
- `Paths`: POSIX `pathlib` paths as segment sequences.
- `FileSystem`: a map from paths to files and directories, with the `pathlib`/`shutil` operations. A composed step that can raise part way returns an `Attempt`: its value, or the exception together with the file system as the step left it.
- `Globs`: `fnmatch`, with `*`, `?` and `[...]` classes.
- `Keyed`: de-duplication and sorting by a string key.
- `Directives`: the `{key: value}` line shared by three regular expressions.

The modules for the source files:

- Library pipeline:
  - `Publisher` (app/libraries/publisher.py): file selection, the all-or-nothing full publish through a temporary directory, the in-place incremental publish, pruning of empty directories, and the manifest.
  - `SyncService` (stagepro/libraries/sync_service.py): the sync state machine. Git is an oracle whose answers are part of the input.
  - `LibraryModel` (stagepro/libraries/model.py) and `LibrarySources` (stagepro/library_sources.py): the source and sync-state records and their JSON round trips.
  - `Paths` (stagepro/paths.py): the directory layout.
- Songs:
  - `Importers` (stagepro/importers.py): ChordPro detection, validation, the strict fallback import, file-name sanitising and destination choice.
  - `ChordPro` (stagepro/chordpro.py): the line parser.
  - `ChordProEdit` (stagepro/chordpro_edit.py): the directive upsert editor.
- Playlists:
  - `Playlist` (stagepro/playlist.py): song listing and setlist order.
  - `PlaylistsStore` (stagepro/playlists_store.py): a class whose methods update the store. Each method is proved against a transition function on store values that keeps the store's invariants.
  - `PlaylistOps` (app/ui_playlist_ops.py): the playlist editor's list operations, as a class over the list's rows.
- Configuration: `Config` (stagepro/config.py), the recursive config merge.
- Rendering:
  - `RenderHtml`, `StageRender` (stagepro/render.py) and `AppRender` (app/render.py): escaping, chord/lyric segments, chunks and pages.
  - `Paginate` (stagepro/paginate.py): greedy pagination. The measured height is a fit predicate.
  - `Themes` (app/theme.py): theme colour fallback and styles.
- Performance window:
  - `Playback` (app/ui_playback.py): page and song navigation, and the pinned footer. Qt callbacks become returned effects. The main window's paging (app/ui_main.py) runs those effects on a window record and stores the returned index.
  - `PedalInput` (app/ui_input.py): the footswitch exit timer (a class) and the on-stage toggle combo, with the clock as a parameter.
- Editor: `SongUtils` (app/ui_song_utils.py): containment checks and unique local names.

Operations that loop are methods with loop invariants. Each is proved equal to a specification function, and the properties are lemmas about that function. The file system, the git oracle, clocks and identifiers are values passed in, so every result is determined by its inputs.

## Model

| member | source | states |
|---|---|---|
| Globs.LiteralMatchesItself | app/libraries/publisher.py:36 | a pattern without `*`, `?` or `[` matches its own text under `fnmatch` |
| Globs.ClassMemberExamples | app/libraries/publisher.py:36 | a class matches one character it lists, and a leading `!` matches exactly the others |
| Globs.ClassRangeExamples | app/libraries/publisher.py:36 | `a-z` matches the characters between, a trailing `-` is a member itself, and a reversed range matches nothing |
| Globs.ClassBracketExamples | app/libraries/publisher.py:36 | a `]` right after the opening bracket is a member, and a `[` with no closing bracket matches only itself |
| Globs.CloseFrom | app/libraries/publisher.py:36 | the first `]` at or after a position, and no `]` before it (or none at all) |
| Globs.StarMatchesAnything | app/libraries/publisher.py:36 | `*` matches every string, `/` included, as in Python's `fnmatch` |
| Globs.ConcatMatches | app/libraries/publisher.py:36 | `fnmatch` matching composes over concatenation of names and patterns, when every class the first pattern opens also closes in it |
| Globs.ClassEndAppend | app/libraries/publisher.py:36 | text appended after a closed class does not change where it closes |
| Globs.EmptyGlobsMatchEverything | app/libraries/publisher.py:30-32 | `_matches_globs` with an empty pattern list accepts every path |
| Globs.DoubleStarExtensionMatchesAnyDepth | app/libraries/publisher.py:39-42 | `**/*ext` matches every relative path ending in `ext`, a root-level `song.pro` included, through the retry without `**/` |
| Globs.DoubleStarMatchesAnything | app/libraries/publisher.py:36 | `**` matches every string |
| Globs.GitPrefixMatches | app/libraries/publisher.py:36 | `.git/**` matches every path under a top-level `.git` |
| Globs.GitBelowRootMatches | app/libraries/publisher.py:36 | `**/.git/**` matches every path under a nested `.git` |
| Globs.GitDirectoryExcluded | app/libraries/publisher.py:39-42 | the default exclude `**/.git/**` matches paths under `.git` at the top level and at any depth |
| Publisher.ScanFiles | app/libraries/publisher.py:46-59 | the result holds exactly the regular files below the mirror with a song extension, not excluded and included by their relative posix path, each once |
| Publisher.DefaultGlobsSelectSongs | app/libraries/publisher.py:12-42 | a song file at any depth below the mirror, the top level included, matches the default include pattern of its extension |
| Publisher.NormalizedTextIsImport | app/libraries/publisher.py:62-65 | the text `_write_normalized` writes is the `chordpro_text` of `normalize_song_file`, and it fails exactly when the import does |
| Publisher.WriteNormalized | app/libraries/publisher.py:62-65 | on success `dest` holds the normalised text; every other existing entry is kept; the only entries added are `dest` and directories on the way to it |
| Publisher.WriteAllOk | app/libraries/publisher.py:75-104 | the write loop raises exactly when some file is not below the mirror (`relative_to` raises) |
| Publisher.WriteAllCounts | app/libraries/publisher.py:75-84 | every file is counted once, as written or as an error line, and nothing is counted as deleted |
| Publisher.WriteAllKeepsOutside | app/libraries/publisher.py:75-84 | the write loop keeps every entry that is not at or below the target directory |
| Publisher.WriteAllAddsBelow | app/libraries/publisher.py:75-84 | the write loop adds only directories on the way to the target directory and entries below it |
| Publisher.DestInjective | app/libraries/publisher.py:76-77 | different mirror files are written to different destinations |
| Publisher.WriteAllKeepsMirrorFile | app/libraries/publisher.py:75-84 | a mirror apart from the target directory is not touched by the write loop |
| Publisher.WriteAllWritesEach | app/libraries/publisher.py:75-84 | when no file failed, each file is at its mirror-relative destination with its normalised text, read from the mirror as it was |
| Publisher.WriteAllOnlyDests | app/libraries/publisher.py:75-84 | every file the loop creates or changes is the destination of one of the given files |
| Publisher.PrepareFacts | app/libraries/publisher.py:70-73 | removing and re-creating the `<id>.tmp` directory changes nothing apart from it and leaves it empty |
| Publisher.SiblingsApart | app/libraries/publisher.py:70 | the `<id>.tmp` directory, a sibling of the published directory with another name, lies apart from it |
| Publisher.FullPublicationCounts | app/libraries/publisher.py:68-92 | every file counts once, as written or as an error, whether or not the trees are then swapped |
| Publisher.FailedFullPublishKeepsTree | app/libraries/publisher.py:86-87 | a full publish in which some file failed leaves everything at and below the published directory exactly as it was |
| Publisher.SwapMoves | app/libraries/publisher.py:89-91 | the swap moves everything below the temporary directory to the same place below the published directory, and nothing else ends up there |
| Publisher.SwapKeeps | app/libraries/publisher.py:89-91 | after the swap nothing remains at or below the temporary directory, and what is apart from both directories is kept |
| Publisher.SuccessfulFullPublishWritesEach | app/libraries/publisher.py:68-92 | a successful full publish puts every file at its mirror-relative path below the published directory with the normalised text of the mirror file as it was |
| Publisher.SuccessfulFullPublishOnlySongs | app/libraries/publisher.py:68-92 | after a successful full publish every file below the published directory is the publication of one of the given files |
| Publisher.FullPublishKeepsOthers | app/libraries/publisher.py:68-92 | a full publish changes nothing apart from the published and the temporary directories |
| Publisher.SuccessfulFullPublishRemovesTmp | app/libraries/publisher.py:89-91 | a successful full publish leaves no temporary directory behind |
| Publisher.Pruned | app/libraries/publisher.py:123-129 | pruning only removes entries, and each removed entry is a directory strictly below `stop` on the way up from the start |
| Publisher.PrunedWellFormed | app/libraries/publisher.py:123-129 | pruning keeps a tree a tree (every entry's parent stays a directory) |
| Publisher.PrunedRaisedShrinks | app/libraries/publisher.py:123-129 | when pruning raises part way, the entries it already removed are directories strictly below `stop` on the way up from the start, and nothing else changed |
| Publisher.PruneEmptyDirs | app/libraries/publisher.py:123-129 | the loop computes `Pruned`: walk up while strictly below `stop`, remove empty directories, stop at the first non-empty one, raise on listing a non-directory |
| Publisher.DeleteAllShrinks | app/libraries/publisher.py:113-119 | the deletion loop, whether it returns or raises part way, only removes entries: published copies of deleted files and directories strictly below the published directory |
| Publisher.DeleteAllRemoves | app/libraries/publisher.py:113-119 | after the deletion loop no deleted file has a published copy |
| Publisher.DeleteAllCounts | app/libraries/publisher.py:113-119 | the deletion loop counts at most one deletion per file and changes no other counter |
| Publisher.DeleteAllAbsent | app/libraries/publisher.py:116 | when no deleted file has a published copy the deletion loop changes nothing |
| Publisher.IncrementalCounts | app/libraries/publisher.py:95-120 | every changed file counts once, as written or as an error, and each deleted file at most once |
| Publisher.IncrementalRemovesDeleted | app/libraries/publisher.py:113-119 | deleted files lose their published copy, even when some write failed |
| Publisher.IncrementalWritesChanged | app/libraries/publisher.py:102-119 | when the write loop finished with nothing failed, every changed file not also deleted is published with its normalised text, also when the deletion loop then raises |
| Publisher.WriteAllErrPersists | app/libraries/publisher.py:75-77 | once `relative_to` has raised on a prefix of the files the loop raises with that error |
| Publisher.WriteFiles | app/libraries/publisher.py:75-111 | the write loop computes `WriteAll` |
| Publisher.WriteFile | app/libraries/publisher.py:76-84 | one turn of the write loop computes `WriteOne` |
| Publisher.PublishFull | app/libraries/publisher.py:68-92 | the method computes `FullPublication`: prepare `<id>.tmp`, write every file there, return on errors, otherwise replace the published directory by it; an exception carries the file system as the steps before it left it |
| Publisher.DeleteAllErrPersists | app/libraries/publisher.py:114 | once `relative_to` has raised on a prefix of the deleted files the loop raises with that error |
| Publisher.DeleteFiles | app/libraries/publisher.py:113-119 | the deletion loop computes `DeleteAll` |
| Publisher.DeleteFile | app/libraries/publisher.py:114-119 | one turn of the deletion loop computes `DeleteOne` |
| Publisher.Unpublish | app/libraries/publisher.py:116-119 | removing one published copy computes `Unpublished` |
| Publisher.UnlinkAndPrune | app/libraries/publisher.py:117-119 | unlinking an existing copy and pruning computes `Unpublished` |
| Publisher.PublishIncremental | app/libraries/publisher.py:95-120 | the method computes `IncrementalPublication`: the write loop into the published directory, then the deletion loop |
| Publisher.WritePublishManifest | app/libraries/publisher.py:132-139 | the encoded record is written at `publish_manifest.json` in the published directory, which succeeds exactly when the directory exists and the name is not a directory |
| Publisher.ManifestIsNotASong | app/libraries/publisher.py:12-138 | the manifest's `.json` suffix is not a song extension |
| Publisher.ManifestNeverScanned | app/libraries/publisher.py:46-138 | scanning a published tree as a mirror never picks the manifest up |
| SyncService.Syncing | stagepro/libraries/sync_service.py:37-40 | the state saved first is `syncing` with the start time, other fields kept |
| SyncService.Failed | stagepro/libraries/sync_service.py:47-119 | a failure saves `error` with the message and keeps the commit, count and sync time |
| SyncService.Succeeded | stagepro/libraries/sync_service.py:72-109 | a success saves `idle` with the success time and the new commit; an earlier error text stays |
| SyncService.GitUpdate | stagepro/libraries/sync_service.py:55-69 | git succeeds exactly when clone (skipped when `.git` exists), fetch, checkout, remote head, reset and new head all succeed, and then yields the two heads |
| SyncService.ExistingCloneNotRecloned | stagepro/libraries/sync_service.py:56-58 | a mirror with `.git` is never cloned again, so how a clone would fail does not matter |
| SyncService.DeletedPaths | stagepro/libraries/sync_service.py:86-89 | a path is a deletion exactly when some row whose status starts with `D` names it below the mirror |
| SyncService.ChangedPaths | stagepro/libraries/sync_service.py:86-92 | the changes are at most as many as the rows |
| SyncService.ChangedPathsMembers | stagepro/libraries/sync_service.py:86-92 | a path is a change exactly when a non-`D` row names an existing song file of the reset mirror; include and exclude lists are not consulted |
| SyncService.ChangedAndDeletedDisjoint | stagepro/libraries/sync_service.py:88-92 | with distinct row paths, no path is both a change and a deletion |
| SyncService.SplitDiff | stagepro/libraries/sync_service.py:84-92 | the loop yields exactly `ChangedPaths` and `DeletedPaths`, in row order |
| SyncService.CountPublishedFiles | stagepro/libraries/sync_service.py:123-130 | the count is the number of song files below the published directory, 0 when it is absent |
| SyncService.ManifestKeepsCount | stagepro/libraries/sync_service.py:110-113 | writing the manifest after counting does not change the count |
| SyncService.PublishStage | stagepro/libraries/sync_service.py:78-99 | on a moved head, the rows of `diff(before, remote)` are split into changed and deleted paths and published incrementally, and a diff error is raised; otherwise the scanned files, with the default globs for empty lists, are published in full; either publish may raise part way, leaving the file system as it got |
| SyncService.Finish | stagepro/libraries/sync_service.py:101-115 | publish errors fail the sync with the newline-joined text ("Publish failed" for an empty text) and keep the commit; otherwise `idle`, the new commit, the count, the manifest and "Sync complete" |
| SyncService.Conclude | stagepro/libraries/sync_service.py:64-120 | the rest of the sync satisfies `Concluded`: "No updates" on an unchanged head with a published tree, the incremental or the full publish otherwise, and every outcome recorded in the last saved state; a publish that raises fails the sync with its message, and the run's file system is the one the publish left |
| SyncService.PublishAndRecord | stagepro/libraries/sync_service.py:77-120 | on a new head or a missing published tree, the publish is chosen and run and its outcome recorded as `Concluded` says; a diff error fails the sync before anything is published |
| SyncService.Record | stagepro/libraries/sync_service.py:93-120 | after the chosen publish ran, a raise fails the sync with its message and the file system it left, and a returned publish is finished as `Concluded` says |
| SyncService.SyncSource | stagepro/libraries/sync_service.py:31-120 | an unknown id fails with nothing saved; otherwise `syncing` is saved first; a git check that raises escapes with only that save; then a missing git, a git error or the concluded sync, with a second save |
| SyncService.CommitMovesOnlyWithCleanPublish | stagepro/libraries/sync_service.py:71-111 | the recorded commit moves only with a publish that reported no errors, and then to the head after the reset |
| SyncService.FirstSyncIsFull | stagepro/libraries/sync_service.py:71-99 | a source whose state records no commit is never published incrementally; if it is published at all, it is published in full |
| SyncService.SuccessRecorded | stagepro/libraries/sync_service.py:72-115 | a successful sync last saves `idle` with the result's commit and count |
| SyncService.FailureRecorded | stagepro/libraries/sync_service.py:47-120 | a failed sync last saves `error` with the result's message, or "" when the message is "Publish failed" |
| SyncService.DefaultDirsApart | stagepro/libraries/model.py:62-75 | with the default layout, the mirror and the published directory lie apart |
| SyncService.FailedPublishKeepsWorktree | stagepro/libraries/sync_service.py:95-105 | a failed full publish leaves the published tree as the reset left it, and the sync fails |
| SyncService.FailedSyncKeepsPublishedTree | stagepro/libraries/sync_service.py:95-105 | when git changes nothing outside the mirror and the directories lie apart, a failed full publish leaves the published tree as it was before the sync |
| SyncService.NoUpdatesKeepsTree | stagepro/libraries/sync_service.py:71-76 | finding the recorded commit again with a published tree succeeds with "No updates", publishes nothing and changes nothing outside the mirror |
| SyncService.IncrementalUsesRemoteHead | stagepro/libraries/sync_service.py:64-94 | an incremental sync publishes the rows git reports from the recorded commit to the remote head read before the reset, not to the head after it |
| SyncService.RaisedIncrementalSyncKeepsWrites | stagepro/libraries/sync_service.py:93-120 | when the incremental publish raises in its deletion loop after a clean write loop, the sync fails with that message, records `error`, and the changed files stay published with their normalised text |
| SyncService.MissingGitLeavesSyncing | stagepro/libraries/sync_service.py:37-46 | as written, a git check that raises escapes the sync: the only saved state is `syncing` and no file changes |
| SyncService.CaughtGitCheck | stagepro/libraries/git_client.py:25-27 | the corrected check never raises, reports git exactly when the written one reports it, and leaves every other git answer as it was |
| SyncService.CaughtMissingGitReported | stagepro/libraries/sync_service.py:46-50 | with the corrected check, a git that cannot be started fails the sync with "Git not found", recorded as the last saved state, and changes no file |
| SyncService.DefaultIncludeFor | stagepro/libraries/sync_service.py:78 | the default include list holds `**/*ext` for every song extension |
| SyncService.DefaultIncludesSelectSongs | stagepro/libraries/sync_service.py:78-97 | with the default include list, every file below the mirror whose name ends in a song extension is included |
| LibraryModel.WithDefaults | stagepro/libraries/model.py:123-134 | the filled table keeps every entry of `local` and adds exactly the missing default keys with their default values |
| LibraryModel.DefaultLocalAt | stagepro/libraries/model.py:124-130 | the four defaults are `source_root`, `mirror_dir`, `published_dir` and `overrides_dir`, each stored with its own path under the source id |
| LibraryModel.SetDefault | stagepro/libraries/model.py:133 | `setdefault` leaves an existing key's value and adds a missing one; every other key is untouched |
| LibraryModel.EnsureLocalDefaults | stagepro/libraries/model.py:131-134 | the `setdefault` loop over the defaults yields exactly the table `WithDefaults` describes |
| LibraryModel.WithDefaultsKeepsComplete | stagepro/libraries/model.py:131-134 | a table that already has every default key is returned unchanged |
| LibraryModel.WithDefaultsIdempotent | stagepro/libraries/model.py:131-134 | filling the defaults twice equals filling them once |
| LibraryModel.SourceFromDict | stagepro/libraries/model.py:29-46 | the source id is the stripped text of `id`, empty when missing or null |
| LibraryModel.SourceDefaults | stagepro/libraries/model.py:29-46 | with a usable id: name falls back to the id, type to `github`, branch to `main`, enabled to true, and every given local entry is kept; the result is in normal form |
| LibraryModel.SourceWithoutIdKeepsLocal | stagepro/libraries/model.py:30-33 | without an id the local table is taken as given, no defaults are added |
| LibraryModel.SourceRoundTrip | stagepro/libraries/model.py:29-61 | `from_dict(to_dict(s)) == s` for every source in normal form |
| LibraryModel.SourceNormalFormStable | stagepro/libraries/model.py:29-61 | any source read from JSON survives a write and a re-read unchanged |
| LibraryModel.DefaultMirrorDir | stagepro/libraries/model.py:63-64 | the default mirror directory resolves to `<app data>/libraries/sources/<id>/mirror` |
| LibraryModel.DefaultPublishedDir | stagepro/libraries/model.py:66-67 | the default published directory resolves to `<app data>/libraries/published/<id>` |
| LibraryModel.DefaultOverridesDir | stagepro/libraries/model.py:69-70 | the default overrides directory resolves to `<app data>/songs/overrides/<id>` |
| LibraryModel.DefaultDirsNamespaced | stagepro/libraries/model.py:124-130 | sources with different ids never share a mirror, published or overrides directory, and one source's mirror is never another's published directory |
| LibraryModel.SourcesFromDicts | stagepro/libraries/model.py:80 | every entry is read with `LibrarySource.from_dict`, in order |
| LibraryModel.KeepWithId | stagepro/libraries/model.py:81 | the kept sources are exactly those with a non-empty id |
| LibraryModel.KeepWithIdAppend | stagepro/libraries/model.py:81 | the filter distributes over concatenation, so input order is kept |
| LibraryModel.ConfigFromDict | stagepro/libraries/model.py:79-83 | the version is never 0 (0 and missing read as 1) and every kept source has an id |
| LibraryModel.SourcesRoundTrip | stagepro/libraries/model.py:80-88 | writing and re-reading a list of normal-form sources gives the same list |
| LibraryModel.ConfigRoundTrip | stagepro/libraries/model.py:79-89 | `from_dict(to_dict(c)) == c` when the version is not 0 and every source is in normal form |
| LibraryModel.FindSource | stagepro/libraries/sync_service.py:32-35 | a found source is in the config with the requested id; none is found exactly when no source has that id |
| LibraryModel.LoadLibrariesConfig | stagepro/libraries/model.py:137-148 | an existing file is not rewritten; one that reads and decodes gives the config read from it; an unreadable or undecodable one, or a missing one, gives the default config; a missing one is written, when that succeeds, so that reading it back gives the encoded default config |
| LibraryModel.StateFromDict | stagepro/libraries/model.py:102-110 | the status read is never empty (missing or empty reads as `idle`) |
| LibraryModel.NullOr | stagepro/libraries/model.py:112-120 | a `None` field is written as JSON null and reads back as `None` |
| LibraryModel.StateRoundTrip | stagepro/libraries/model.py:101-120 | `from_dict(to_dict(st)) == st` whenever the status is not empty |
| LibraryModel.EmptyStateDictIsDefault | stagepro/libraries/model.py:93-110 | an object with no known key reads as the default `idle` state |
| LibraryModel.LoadState | stagepro/libraries/model.py:157-165 | no file gives the default state; a file that reads and decodes gives the state read from it; one that cannot be read or decoded gives the `error` state with "Failed to read state.json"; the status is never empty |
| LibraryModel.SaveState | stagepro/libraries/model.py:168-171 | a successful save leaves a file at `<sources dir>/<id>/state.json` |
| LibraryModel.SaveThenLoad | stagepro/libraries/model.py:157-171 | what `save_state` writes, `load_state` reads back, given a JSON codec that decodes what it encodes |
| Config.Lookup | stagepro/config.py:61 | `obj.get(k)` finds a value exactly when `k` is one of the object's keys |
| Config.PutLookup | stagepro/config.py:62-64 | after `out[k] = v`, looking up `k` gives `v` and every other key gives what it gave before |
| Config.PutKeepsDistinct | stagepro/config.py:62-64 | assigning a key never makes a key occur twice |
| Config.MergeKeys | stagepro/config.py:58-65 | the merged keys are exactly the union of the default and user keys, the default keys first in their order, and none repeated |
| Config.MergeLookup | stagepro/config.py:60-64 | where the user has a key, the merge holds the recursive merge when both values are objects and the user's value otherwise; every other key keeps its default |
| Config.MergeEmpty | stagepro/config.py:59-60 | a missing (`None`) or empty user config leaves the defaults unchanged |
| Config.MergedHasDefaultKeys | stagepro/config.py:22-65 | whatever the user config holds, every key of `default_config()` is in the merge |
| Config.SetlistFilenameDefault | stagepro/config.py:49-52 | a user `setlist` section without `filename` keeps the default `setlist.txt` |
| Paths.ResolveLibraryPath | stagepro/paths.py:49-55 | an empty string gives the app-data dir; `~` or `~/…` expands to the home dir; an absolute path is kept; any other path, including `~user`, is joined under the app-data dir |
| Paths.ResolveAbsoluteRoundTrip | stagepro/paths.py:52-54 | rendering a well-formed absolute path and resolving it again gives the same path |
| Paths.ResolveRelativeUnderAppData | stagepro/paths.py:52-55 | a well-formed relative path not starting with `~` resolves to the app-data dir followed by its segments |
| Paths.LayoutRootsDisjoint | stagepro/paths.py:29-42 | the sources, published and overrides roots never lie inside one another |
| Paths.Stem | app/ui_song_utils.py:32 | the stem followed by the suffix is the whole name |
| Paths.Suffix | app/libraries/publisher.py:26-27 | the suffix is empty or a dot plus at least one character, with no further dot, ending a longer name |
| LibrarySources.DefaultLibrariesConfig | stagepro/library_sources.py:19-23 | the default configuration has an empty source list |
| LibrarySources.LegacyFromDict | stagepro/library_sources.py:38-52 | the older source keeps the whole object it was read from as `raw` |
| LibrarySources.LegacyAgreesWithModel | stagepro/library_sources.py:38-52 | the older and newer `from_dict` read id, type, name, enabled flag, globs and local table (with the same filled-in defaults) identically |
| LibrarySources.LegacyPublishedDir | stagepro/library_sources.py:54-58 | without a non-empty local entry the published dir is the source id under the published root |
| LibrarySources.LegacyOverridesDir | stagepro/library_sources.py:60-64 | without a non-empty local entry the overrides dir is the source id under the overrides root |
| LibrarySources.LegacyDefaultDirsAgree | stagepro/library_sources.py:54-78 | for a source with only default local entries, the older and newer models find the same published and overrides directories |
| LibrarySources.EmptyPublishedEntryDiffers | stagepro/library_sources.py:55-58 | an empty `published_dir` entry is where the models part: the newer resolves it to the app-data dir, the older falls back to the published root |
| LibrarySources.LegacySources | stagepro/library_sources.py:101-107 | the parsed sources are exactly the entries with a non-empty id, each read with `from_dict` |
| LibrarySources.LegacySourcesAppend | stagepro/library_sources.py:103-106 | parsing distributes over concatenation, so entries keep their order |
| LibrarySources.ParseLibrarySources | stagepro/library_sources.py:101-107 | the loop returns exactly `LegacySources` of the listed entries, none for a missing list |
| LibrarySources.DefaultConfigHasNoSources | stagepro/library_sources.py:19-23 | parsing the default configuration yields no sources |
| Importers.LooksLikeChordpro | stagepro/importers.py:50-61 | true exactly when the first non-blank stripped line is brace-enclosed or holds both `[` and `]` |
| Importers.ValidateChordproBasic | stagepro/importers.py:64-84 | `ok` exactly when every stripped line passes; otherwise the reason names the first failing line, numbered from 1, and no reason is given on success |
| Importers.NonEmptyIndicesSound | stagepro/importers.py:95 | only lines whose `strip()` is non-empty are listed |
| Importers.NonEmptyIndicesComplete | stagepro/importers.py:95 | every non-blank line is listed |
| Importers.FallbackImport | stagepro/importers.py:87-146 | a successful fallback import always yields text ending in a newline |
| Importers.CheckHeader | stagepro/importers.py:113-146 | the header passes exactly when neither title nor artist is directive-like, a section header or a chorded lyric, and then the song is built from the title, artist and lyric lines |
| Importers.FallbackHeaderLines | stagepro/importers.py:92-146 | when the first two non-blank lines pass the checks, title and artist are those lines stripped and the lyrics are every line after the artist line |
| Importers.FallbackNeedsTwoLines | stagepro/importers.py:95-100 | the fallback fails with the fixed two-line message exactly when the text has fewer than two non-blank lines |
| Importers.CheckHeaderNeverTwoLinesError | stagepro/importers.py:96-133 | no header failure is reported with the two-line message, so each error names its own cause |
| Importers.SubRuns | stagepro/importers.py:151-152 | every maximal run of the class becomes one replacement character; nothing else changes and the text is empty only if the input is |
| Importers.SanitizedIsClean | stagepro/importers.py:149-153 | the sanitised component is never empty, at most 120 characters, free of the forbidden characters, with no whitespace run |
| Importers.FirstFreeNumber | stagepro/importers.py:161-164 | the number chosen is the first whose numbered name is free, every earlier one being taken, or the limit when none is free |
| Importers.DestinationName | stagepro/importers.py:156-165 | `base + ext` when free; otherwise the first free `base (i) + ext` for `i` in 2..998, every earlier one taken; else `base (imported) + ext` |
| Importers.ChooseDestinationPath | stagepro/importers.py:156-165 | the loop returns the destination `DestinationName` describes, inside the songs directory |
| Importers.ScanFindsFirstValues | stagepro/importers.py:187-198 | the scan keeps the first non-empty `title`/`t` value and the first non-empty `artist`/`a` value |
| Importers.WithFinalNewline | stagepro/importers.py:199 | the text gains a newline only when it lacks one, and then ends with one |
| Importers.ImportedTextEndsWithNewline | stagepro/importers.py:168-202 | every imported song's text ends with a newline, whichever path imported it |
| Importers.ImportUserFileToChordpro | stagepro/importers.py:168-202 | the method returns a read error as an error, else the validated ChordPro text with its first title and artist, else the fallback result |
| ChordPro.NextChord | stagepro/chordpro.py:76 | the match found starts with `[`, has a non-empty body without `]` and ends at the first `]` after it |
| ChordPro.NextChordIsFirst | stagepro/chordpro.py:76 | `finditer` finds the leftmost match: no match starts between the search position and the one found, and none at all when nothing is found |
| ChordPro.TokenizeRoundTrip | stagepro/chordpro.py:74-82 | rendering the tokens of a line (chords back in brackets) gives the line back |
| ChordPro.TokensNonEmpty | stagepro/chordpro.py:77-82 | every token holds text, and a chord holds no `]` |
| ChordPro.NoAdjacentLyrics | stagepro/chordpro.py:77-82 | two lyric tokens never follow each other |
| ChordPro.TokenizeLine | stagepro/chordpro.py:74-82 | the `finditer` loop builds exactly the token list `Tokenize` describes |
| ChordPro.ParseChordpro | stagepro/chordpro.py:31-87 | the loop over the lines, with the final flush, yields exactly the song `Parse` describes |
| ChordPro.ParseLine | stagepro/chordpro.py:42-84 | one pass of the loop tests the blank, `{soc}`, `{eoc}`, comment and directive patterns in that order and updates the parser's state as `Step` says |
| ChordPro.ParseBodyLine | stagepro/chordpro.py:61-84 | a comment line closes the block and adds a comment block, a directive sets metadata, anything else joins the open block as tokens |
| ChordPro.RunKeepsInvariant | stagepro/chordpro.py:36-40 | the open block is a chorus exactly when the chorus flag is set, never a comment, and every closed block is well formed |
| ChordPro.ParsedBlocksWellFormed | stagepro/chordpro.py:36-64 | every block of a parsed song is a comment with a text, or a verse or chorus with at least one line: empty blocks are never kept |
| ChordPro.ChorusFlag | stagepro/chordpro.py:49-59 | the chorus flag is set exactly when the last chorus marker read was `{soc}` |
| ChordPro.LyricLineJoinsOpenBlock | stagepro/chordpro.py:40-84 | a lyric line joins the open block, which is a chorus block exactly when `{soc}` is the last marker before it |
| ChordPro.CommentsKeptInOrder | stagepro/chordpro.py:61-65 | each comment line gives exactly one comment block, in the order of the lines |
| ChordPro.ParseKeepsEveryLyricLine | stagepro/chordpro.py:36-86 | the song's blocks hold every lyric line's tokens, in order: none is lost, duplicated or reordered |
| ChordPro.BlankLineClosesBlock | stagepro/chordpro.py:45-47 | a blank line closes the open block, whose lines move to the closed blocks |
| ChordPro.MetaIsLastDirective | stagepro/chordpro.py:67-72 | the metadata holds a key exactly when some directive line sets it, with the value of the last such line |
| Directives.KvMatchSpec | stagepro/chordpro_edit.py:14 | the key:value pattern matches exactly the braced strings whose inside has no `}` and a `:` that is not its first character; the groups are the stripped text on either side of the first `:` |
| Directives.KvMatchAt | stagepro/importers.py:27 | a braced text without `}` whose first `:` is at position 1 or later is matched, with the stripped text on either side as key and value |
| Directives.DirectiveLineRoundTrip | stagepro/chordpro_edit.py:51 | a directive line written as `{key: value}` for a stripped key without `:` or `}` and a stripped value without `}` matches back to that key and value |
| ChordProEdit.FirstIndexSound | stagepro/chordpro_edit.py:34-42 | the scan records exactly the keys of the directive lines, each at its first line |
| ChordProEdit.ExistingIsLast | stagepro/chordpro_edit.py:40 | `existing[key]` is the value of the last directive line for the key |
| ChordProEdit.FirstIndexInjective | stagepro/chordpro_edit.py:41-42 | distinct keys are recorded at distinct lines |
| ChordProEdit.AppliedDropsBlank | stagepro/chordpro_edit.py:47-49 | an update whose value is blank is ignored: dropping it changes nothing |
| ChordProEdit.SomesNormalized | stagepro/chordpro_edit.py:46-49 | every update that takes effect has a lower-cased key and a non-empty value |
| ChordProEdit.OverlayAt | stagepro/chordpro_edit.py:52-78 | after the updates a key is present iff it was or some update sets it, and the last update for it wins |
| ChordProEdit.ApplyAllLines | stagepro/chordpro_edit.py:45-52 | the line of each recorded key holds its last update, if any; every other line is unchanged |
| ChordProEdit.ApplyAllExisting | stagepro/chordpro_edit.py:50-52 | `existing` keeps its keys; a recorded key takes its last update's value |
| ChordProEdit.MissingSameKeys | stagepro/chordpro_edit.py:61 | the missing list depends only on which keys `existing` holds |
| ChordProEdit.SkipBlank | stagepro/chordpro_edit.py:67-68 | the first loop stops at the first non-blank line, every line skipped being blank |
| ChordProEdit.SkipDirectives | stagepro/chordpro_edit.py:69-73 | the second loop stops at the first line that is not a directive, every line skipped being one |
| ChordProEdit.Finish | stagepro/chordpro_edit.py:80 | the output ends with exactly one newline and no other trailing whitespace |
| ChordProEdit.RewrittenLines | stagepro/chordpro_edit.py:45-52 | the rewrite puts each key's last non-blank update on the key's first directive line and leaves every other line as it was |
| ChordProEdit.RewriteKeepsKeys | stagepro/chordpro_edit.py:50-52 | the rewrite adds no key to `existing` |
| ChordProEdit.MissingAreUnknownKeys | stagepro/chordpro_edit.py:55-62 | the missing updates are, in order, those whose key no directive line of the text has |
| ChordProEdit.UpsertMeta | stagepro/chordpro_edit.py:26-81 | no updates give the text back with empty metadata; otherwise the metadata is the text's directives with every applied update on top, the last update for a key winning |
| ChordProEdit.ScanDirectives | stagepro/chordpro_edit.py:34-42 | the first loop computes `existing` and `key_to_index` as the scan functions describe |
| ChordProEdit.RewriteExisting | stagepro/chordpro_edit.py:45-52 | the second loop applies the non-blank updates to the recorded lines as `ApplyAll` describes |
| ChordProEdit.CollectMissing | stagepro/chordpro_edit.py:55-62 | the third loop collects exactly the non-blank updates whose key `existing` lacks, in order |
| ChordProEdit.FindInsertionPoint | stagepro/chordpro_edit.py:66-73 | the two loops find the insertion point after the leading blanks and the directive lines that follow |
| ChordProEdit.UpsertDirectives | stagepro/chordpro_edit.py:17-81 | the text and metadata returned are those `Upsert` describes |
| Playlist.CollectRoot | stagepro/playlist.py:12-21 | the inner loop adds each song of one root whose lower-cased name is new, in `iterdir()` order, and keeps the name set in step |
| Playlist.ListSongFilesAlphaFromRoots | stagepro/playlist.py:6-23 | the loop over the roots returns exactly the listing `SongFilesAlpha` describes |
| Playlist.SongsInSpec | stagepro/playlist.py:13-18 | a visited path is kept exactly when it is a file with a supported suffix, case aside, that is not the setlist file |
| Playlist.CollectSound | stagepro/playlist.py:19-21 | what the dictionary holds was visited and is a song |
| Playlist.CollectHasKey | stagepro/playlist.py:19-21 | every visited song's lower-cased name is a key of the dictionary |
| Playlist.SongFilesAlphaSpec | stagepro/playlist.py:6-23 | the listing holds only songs of the roots, sorted strictly by lower-cased name (so no two share a name, case aside), and every song of every root is represented by its name |
| Playlist.EarliestRootWins | stagepro/playlist.py:9-21 | the earliest root wins: when the first roots hold a song with a name, the listed song of that name comes from those roots |
| Playlist.RootSongListed | stagepro/playlist.py:9-21 | every song directly inside an existing root is represented in the listing by its name |
| Playlist.ReadSetlistEntries | stagepro/playlist.py:34-40 | the loop keeps the stripped lines as `ReadSetlist` describes |
| Playlist.SetlistEntriesSpec | stagepro/playlist.py:35-39 | the entries are exactly the stripped lines that are neither blank nor start with `#` |
| Playlist.ReadSetlistFile | stagepro/playlist.py:29-40 | no setlist file gives None; otherwise its entries |
| Playlist.ByName | stagepro/playlist.py:53 | the lookup finds an alphabetical song with that lower-cased name, or none exists |
| Playlist.ListSetlistSongs | stagepro/playlist.py:57-67 | the loop over the setlist items builds exactly `Listed`, and `seen` is the set of the lower-cased names it placed |
| Playlist.AppendUnlisted | stagepro/playlist.py:69-72 | the loop appends exactly the alphabetical songs whose name was not seen, in order |
| Playlist.OrderSongs | stagepro/playlist.py:42-74 | the method returns the order `OrderSongsOf` describes for the setlist read from the folder |
| Playlist.NoSetlistIsAlphabetical | stagepro/playlist.py:49-51 | without a setlist file the order is the alphabetical one |
| Playlist.ListedSong | stagepro/playlist.py:58-67 | an item whose lower-cased name is an alphabetical song's name gives that song; any other item gives the file it names exactly when that file is a song other than the setlist |
| Playlist.ListedSongs | stagepro/playlist.py:57-67 | the listed songs are the items' songs in item order: one per item that names a song, the `k`-th for the item with `k` such items before it, so at most one per item; each is an alphabetical song or a song file the item names |
| Playlist.ListedByName | stagepro/playlist.py:57-61 | every item whose lower-cased name is an alphabetical song's name lists an alphabetical song of that name |
| Playlist.UnlistedSpec | stagepro/playlist.py:69-72 | the unlisted part holds exactly the alphabetical songs whose name was not seen, no more of them than the alphabetical list, and stays sorted by name when the alphabetical list is |
| Playlist.OrderCoversAlpha | stagepro/playlist.py:69-74 | with `append_unlisted`, every song of the folder appears in the order under its name |
| Playlist.OrderSongsAreSongs | stagepro/playlist.py:57-74 | every path in the order is a song file other than the setlist, and the order is empty only when the folder has no songs |
| Keyed.DedupKeys | stagepro/playlist.py:19-21 | the keys of the dictionary are those it started with and those offered to it |
| Keyed.DedupExtends | stagepro/playlist.py:20-21 | the dictionary only grows, and what it gains was offered under a key it lacked |
| Keyed.DedupDistinct | stagepro/playlist.py:20-21 | no two values of the dictionary share a key |
| Keyed.DedupOld | stagepro/playlist.py:20-21 | a key already in the dictionary keeps its first value |
| Keyed.SortByKey | stagepro/playlist.py:22 | `sorted` returns a permutation of its input |
| Keyed.SortByKeySorted | stagepro/playlist.py:22 | sorting values with distinct keys orders them strictly by key |
| PlaylistsStore.KeepKnownSpec | stagepro/playlists_store.py:201 | the filtered order holds exactly the ordered ids that name a playlist, and repeats none the order did not repeat |
| PlaylistsStore.KeepKnownAllKnown | stagepro/playlists_store.py:201 | filtering an order whose ids are all known changes nothing |
| PlaylistsStore.WithoutSpec | stagepro/playlists_store.py:130 | removing an id keeps exactly the other ids, with no new repeats |
| PlaylistsStore.ListedSpec | stagepro/playlists_store.py:79-85 | the listing is exactly the playlists of the known ordered ids, in order |
| PlaylistsStore.ListedAll | stagepro/playlists_store.py:79-85 | in a well-formed store every playlist is listed, once per ordered id |
| PlaylistsStore.GetActiveReady | stagepro/playlists_store.py:87-93 | in a ready store `get_active` returns the playlist the new state marks active, changing nothing else |
| PlaylistsStore.GetActiveFailsOnlyWhenEmpty | stagepro/playlists_store.py:87-93 | in a well-formed store `get_active` fails (the index error) exactly when there is no playlist |
| PlaylistsStore.CreateKeepsReady | stagepro/playlists_store.py:100-106 | a created playlist is active, last in the order, with a trimmed name and the given items; the old playlists are untouched |
| PlaylistsStore.CreateKeepsValid | stagepro/playlists_store.py:100-106 | creating keeps a well-formed store well formed |
| PlaylistsStore.DuplicateCopies | stagepro/playlists_store.py:115-120 | a duplicate copies the items under a new id, grows the order by one and leaves the original as it was |
| PlaylistsStore.DeleteKeepsValid | stagepro/playlists_store.py:122-135 | deleting keeps a store well formed, and removes the playlist whenever the order has more than one id |
| PlaylistsStore.DeleteKeepsReady | stagepro/playlists_store.py:125-133 | with no repeated id, deleting never removes the last playlist and always leaves a known active one |
| PlaylistsStore.DeleteWithRepeatedIdEmpties | stagepro/playlists_store.py:126-133 | an order that repeats the only id passes the "keep one playlist" guard, so deleting it empties the store and clears the active id |
| PlaylistsStore.KeepSpec | stagepro/playlists_store.py:148-153 | the kept items are those at exactly the positions not listed, in ascending order |
| PlaylistsStore.EditsKeepReady | stagepro/playlists_store.py:95-154 | renaming, setting items and removing items keep a ready store ready and touch only one playlist's name or items; switching the active playlist touches only the active id |
| PlaylistsStore.NamesSpec | stagepro/playlists_store.py:174-178 | the names listed are exactly the names of the songs found |
| PlaylistsStore.LegacyItemsSpec | stagepro/playlists_store.py:170-178 | every migrated item names a found song; with a non-empty legacy setlist the items are its entries that do, otherwise all songs are in |
| PlaylistsStore.LoadedPlaylistsSpec | stagepro/playlists_store.py:189-195 | the loaded playlists are exactly those of the file, each under its own id |
| PlaylistsStore.AppendMissingSpec | stagepro/playlists_store.py:198-200 | the repair appends exactly the ids missing from the order, keeping the order as a prefix and adding no repeats |
| PlaylistsStore.LoadSpec | stagepro/playlists_store.py:182-201 | a loaded store is well formed, keeps the saved order of the known ids as its prefix, and repeats no id the saved order did not repeat |
| PlaylistsStore.EnsureReadyOfReady | stagepro/playlists_store.py:52-58 | the repairs after loading make any well-formed store ready, saving at most twice |
| PlaylistsStore.LoadOrInitReady | stagepro/playlists_store.py:49-63 | whatever well-formed store the file held, `load_or_init` leaves a ready store, saving once on first run and at most twice otherwise, always under the current schema version |
| PlaylistsStore.PlaylistStore.constructor | stagepro/playlists_store.py:37-45 | a new store is empty, at the current schema version, with no active playlist |
| PlaylistsStore.PlaylistStore.Save | stagepro/playlists_store.py:65-77 | saving records the whole current state and changes nothing in memory |
| PlaylistsStore.PlaylistStore.ListPlaylists | stagepro/playlists_store.py:79-85 | the loop returns exactly `ListedOf` the order and the playlists |
| PlaylistsStore.PlaylistStore.GetActive | stagepro/playlists_store.py:87-93 | the result and new state are those of `GetActiveOf`, without saving |
| PlaylistsStore.PlaylistStore.SetActive | stagepro/playlists_store.py:95-98 | a known id becomes active and is saved; an unknown id changes nothing |
| PlaylistsStore.PlaylistStore.CreatePlaylist | stagepro/playlists_store.py:100-106 | the new state is `CreateOf` with the fresh id, saved once, and the id is returned |
| PlaylistsStore.PlaylistStore.RenamePlaylist | stagepro/playlists_store.py:108-113 | the new state is `RenameOf`, saved only when the id is known |
| PlaylistsStore.PlaylistStore.DuplicatePlaylist | stagepro/playlists_store.py:115-120 | result and new state are `DuplicateOf`, saved only when the id is known |
| PlaylistsStore.PlaylistStore.DeletePlaylist | stagepro/playlists_store.py:122-135 | the new state is `DeleteOf`, saved only when the id is known and the order has more than one id |
| PlaylistsStore.PlaylistStore.SetItems | stagepro/playlists_store.py:137-142 | the new state is `SetItemsOf`, saved only when the id is known |
| PlaylistsStore.PlaylistStore.RemoveItemsByIndex | stagepro/playlists_store.py:144-154 | the loop leaves the state `RemoveItemsOf` describes, saved only when the id is known |
| PlaylistsStore.PlaylistStore.InitDefault | stagepro/playlists_store.py:158-162 | the store becomes a single empty "Default Set" playlist, active and alone in the order |
| PlaylistsStore.PlaylistStore.LegacySetlistItems | stagepro/playlists_store.py:170-178 | the items kept by the migration are `LegacyItems` of the setlist and the songs folder |
| PlaylistsStore.PlaylistStore.InitFromLegacySetlist | stagepro/playlists_store.py:164-180 | the store becomes the default playlist holding the migrated items |
| PlaylistsStore.PlaylistStore.Load | stagepro/playlists_store.py:182-201 | the loop leaves exactly the store `LoadOf` describes for the file's content |
| PlaylistsStore.PlaylistStore.EnsureReady | stagepro/playlists_store.py:52-58 | the state and the saves are those `EnsureReadyOf` describes |
| PlaylistsStore.PlaylistStore.LoadOrInit | stagepro/playlists_store.py:49-63 | the state and saves are those of `LoadOrInitOf`, and the store ends ready |
| PlaylistsStore.PlaylistStore.SetDefaultItems | stagepro/playlists_store.py:180 | the migrated items become the default playlist's items and nothing else changes |
| RenderHtml.EscapePass | stagepro/render.py:3-9 | one `replace` pass escapes its character and touches nothing else, provided `&` goes first |
| RenderHtml.EscapeIsPieces | stagepro/render.py:3-9 | the chain of replaces escapes each character on its own, as if mapped one by one |
| RenderHtml.UnescapeEscape | stagepro/render.py:3-9 | undoing the four replaces in reverse order gives the original text back, so escaping loses nothing |
| RenderHtml.EscapeNoMarkup | stagepro/render.py:3-9 | escaped text holds no `<`, `>` or `"` |
| RenderHtml.EscapeFixedIff | stagepro/render.py:3-9 | escaping leaves a text unchanged exactly when it holds none of `& < > "` |
| RenderHtml.TokensToSegments | stagepro/render.py:151-170 | the loop builds exactly the segments `LineSegments` describes |
| RenderHtml.SegmentsCount | stagepro/render.py:159-170 | one segment per lyric token, plus one over " " when a non-empty stripped chord is left pending at the end |
| RenderHtml.SegmentOfLyric | stagepro/render.py:159-166 | each lyric token gets the chord of the token just before it, if that is a chord: a chord goes only to the next lyric, and of several chords in a row only the last stays |
| RenderHtml.RenderLineWithClass | stagepro/render.py:175-187 | the loop over the segments builds exactly the line `LineHtml` describes |
| RenderHtml.LineLayout | stagepro/render.py:172-187 | a line is its opening div, one span per segment (chord attribute only for a non-empty chord), then `</div>` |
| RenderHtml.PopSpacers | stagepro/render.py:208-210 | the loop pops exactly the trailing spacer chunks |
| RenderHtml.TrimSpacersSpec | stagepro/render.py:208-210 | the trim keeps a prefix, drops only spacers, and leaves no spacer last |
| RenderHtml.LineIsNotSpacer | stagepro/render.py:209 | a rendered line is never taken for a spacer by the trailing-spacer test |
| RenderHtml.LabelOf | stagepro/render.py:11-19 | the title is the song's `title`, else the fallback, else "Untitled"; the subtitle is the song's `subtitle` or "" |
| RenderHtml.MetaLineSpec | stagepro/render.py:14-19 | the meta line is empty exactly when the song sets neither a non-empty key nor tempo; with both the key comes first, joined by the separator |
| StageRender.LineClass | stagepro/render.py:176 | the class is `line chorusline` exactly for a chorus line, and always starts with `line` |
| StageRender.RenderLine | stagepro/render.py:172-187 | the rendered line is `LineHtml` with the class for its block |
| StageRender.RenderBlockLines | stagepro/render.py:203-205 | the inner loop renders one chunk per line of the block, in order |
| StageRender.SongToChunks | stagepro/render.py:189-212 | the loop and the trim return exactly the chunks `Chunks` describes |
| StageRender.BlockChunksShape | stagepro/render.py:198-206 | a comment block adds one comment chunk; any other block adds one chunk per line followed by a spacer, and no line chunk is a spacer |
| StageRender.ChunksSpec | stagepro/render.py:196-212 | the chunks never end with a spacer, only trailing spacers are dropped, and every line and comment chunk is kept |
| StageRender.PageLayout | stagepro/render.py:214-245 | a page is the head, the body chunks verbatim and in order, then the footer with page number and total, the hint and the closing tags |
| AppRender.NormalizeKind | app/render.py:10-17 | the normalised kind is always one of verse, chorus, bridge |
| AppRender.NormalizeKnown | app/render.py:16-17 | each content section is its own normal form |
| AppRender.NormalizePlain | app/render.py:16-17 | a stripped kind without capitals is kept when it names a content section, and is "verse" otherwise |
| AppRender.NormalizeMissingAndIdempotent | app/render.py:16-17 | a missing or empty kind is a verse, and normalising twice changes nothing |
| AppRender.NormalizeIgnoresSpace | app/render.py:16 | surrounding whitespace does not matter |
| AppRender.NormalizeIgnoresCase | app/render.py:16 | letter case does not matter |
| AppRender.ClassList | app/render.py:217-221 | the classes are `line`, `section-<kind>`, and `chorusline` exactly for a chorus |
| AppRender.RenderLine | app/render.py:213-232 | the rendered line is `LineHtml` with the class list for its block kind |
| AppRender.RenderBlockLines | app/render.py:248-249 | the inner loop renders one chunk per line of the block, in order |
| AppRender.SongToChunks | app/render.py:234-256 | the loop and the trim return exactly the chunks `Chunks` describes |
| AppRender.BlockChunksShape | app/render.py:243-250 | a comment block adds one comment chunk; any other block adds one chunk per line followed by a spacer, and no line chunk is a spacer |
| AppRender.ChunksSpec | app/render.py:241-256 | the chunks never end with a spacer, only trailing spacers are dropped, and every line and comment chunk is kept |
| AppRender.PageLayout | app/render.py:258-287 | a page is the head, the body chunks verbatim and in order, and the closing tags: no footer and no hint |
| Paginate.UsableHeight | stagepro/paginate.py:26 | the usable height is the larger of 200 and the height less the bottom reserve |
| Paginate.StepGreedy | stagepro/paginate.py:37-47 | one turn of the loop keeps every closed page greedy: it fits, or is a single chunk, and the next chunk would not have fitted on it |
| Paginate.StepFlatten | stagepro/paginate.py:37-47 | one turn puts its chunk after all the others and leaves a non-empty open page |
| Paginate.CloseSpec | stagepro/paginate.py:49-53 | closing keeps the pages, or gives one empty page exactly when there are none |
| Paginate.GroupFromFlatten | stagepro/paginate.py:37-50 | the grouping loses, adds and reorders no chunk |
| Paginate.GroupSpec | stagepro/paginate.py:28-53 | never no page; the pages in order hold exactly the chunks; no chunks give one empty page; otherwise every page is greedy |
| Paginate.NumberedAt | stagepro/paginate.py:56-59 | page `i` is rendered with number `i + 1` of the total count |
| Paginate.GroupChunks | stagepro/paginate.py:28-53 | the grouping loop returns exactly `Group` of the chunks |
| Paginate.RenderPages | stagepro/paginate.py:55-60 | the rendering loop returns exactly the numbered pages |
| Paginate.PaginateToFit | stagepro/paginate.py:12-60 | the method returns the pages `PaginateSpec` describes for the usable height |
| Paginate.PaginateResult | stagepro/paginate.py:12-60 | there is at least one page; the pages are numbered 1 to their count, and their bodies in order are the chunks |
| Playback.AvailableDocSize | app/ui_playback.py:5-9 | each side is the viewer's side, raised to 200 when smaller |
| Playback.FooterTop | app/ui_playback.py:16-19 | the pin sits 58 + 8 pixels above the bottom of a page of at least 200 pixels, so never above 134 |
| Playback.Inject | app/ui_playback.py:12-14 | a page without `</body>` is returned unchanged |
| Playback.ReplaceFirstAt | app/ui_playback.py:22-26 | `replace(pat, rep, 1)` rewrites the first occurrence and nothing else |
| Playback.ReplaceAllAt | app/ui_playback.py:36 | `replace(pat, rep)` leaves everything before the first occurrence alone and rewrites that occurrence and the later ones |
| Playback.InjectAt | app/ui_playback.py:12-36 | with `<body>` before the first `</body>`: that tag is replaced by the sized one, the pin goes in front of every `</body>`, and nothing else changes |
| Playback.InjectWithoutBodyTag | app/ui_playback.py:21-36 | a page without `<body>` gets only the pin, in front of each `</body>` |
| Playback.InjectIntoPage | app/ui_playback.py:12-36 | the sized body tag and the pin carrying "Page n / total" are placed as `InjectAt` says |
| Playback.ClampPageIndex | app/ui_playback.py:54 | the index is clamped into the pages, 0 when there are none; an index already in range is kept |
| Playback.RepaginateAndRender | app/ui_playback.py:39-55 | without a song, no pages and the index unchanged; with one, the pages for its file name and the index clamped into them |
| Playback.BlackoutColor | app/ui_playback.py:70 | the blackout colour is never empty, and is the theme background when that is set |
| Playback.PyIndex | app/ui_playback.py:78 | Python indexing succeeds exactly for indices from `-len` to `len - 1`, and a non-negative one picks that page |
| Playback.RenderPage | app/ui_playback.py:58-82 | nothing is shown exactly when not blacked out, a song is loaded and there are no pages; the `IndexError` happens exactly when the index is outside Python's range; otherwise the page is shown with its pinned footer |
| Playback.PagingStaysInRange | app/ui_playback.py:85-104 | from a page the next and previous pages are pages too; moving on from the last page (back from the first) hands over to the next (previous) song |
| Playback.NextPrevInverse | app/ui_playback.py:85-104 | turning a page forward then back, or back then forward, returns to it; without pages nothing changes |
| Playback.NextSongEffects | app/ui_playback.py:107-113 | no songs do nothing; before the last song the next one is loaded |
| Playback.PrevSongSpec | app/ui_playback.py:116-127 | the previous song is loaded exactly when there is one; a page index is returned only when asked for the last page and pages are passed, and it is the last of those pages |
| Playback.SongEnds | app/ui_playback.py:107-127 | going forward from the last song or back from the first re-renders the current song instead of loading one |
| Playback.WindowRender | app/ui_main.py:1494-1511 | the window's render shows the page at its index; it raises `IndexError` exactly when there are pages and the index is outside Python's range; without pages nothing new is shown |
| Playback.WindowLoad | app/ui_main.py:1452-1478 | loading a song clamps the index into the song list, takes that song's pages, resets the page index to 0 and shows the first page |
| Playback.PageTurnRendersOldPage | app/ui_main.py:1513-1517 | as written, a page turn inside a song renders the page at the old index and then stores the new one, so the viewer stays one page behind |
| Playback.BackFromFirstPageLandsOnFirstPage | app/ui_main.py:1516-1532 | as written, going back from the first page of a song loads the previous song and ends on its first page, with index 0 stored over the last-page index `prev_song` set |
| Playback.ForwardFromLastPageKeepsIndex | app/ui_main.py:1513-1521 | as written, going forward from the last page of a song loads the next song and shows its first page, but stores the old song's last index |
| Playback.StaleIndexRaises | app/ui_main.py:1513-1517 | with a three-page song followed by a one-page song, forward from page 3 leaves index 2 on the one-page song, and going back then raises `IndexError` |
| Playback.FixedPagingSteady | app/ui_main.py:1513-1532 | with the index stored before rendering, every page turn from a window showing its own page succeeds and keeps it so; forward from a last page reaches the next song's first page, back from a first page the previous song's last page |
| Playback.FixedNextPrevInverse | app/ui_main.py:1513-1517 | with the intended paging, a page forward and a page back within a song give back the same window |
| Playback.WrittenPagingNotSteady | app/ui_main.py:1513-1517 | as written, a page turn from a window showing its own page leaves it showing a different page from its index |
| PlaylistOps.Removed | app/ui_playlist_ops.py:13 | `takeItem(row)` leaves the rows before `row` in place and shifts the later ones up by one |
| PlaylistOps.Moved | app/ui_playlist_ops.py:13-14 | after `takeItem` then `insertItem`, the moved row sits at its new place and the other rows keep their order |
| PlaylistOps.MovedPermutes | app/ui_playlist_ops.py:13-14 | a move is a permutation of the rows |
| PlaylistOps.MovedBack | app/ui_playlist_ops.py:13-14 | moving a row back where it came from restores the list, and a move onto its own place changes nothing |
| PlaylistOps.BaseNames | app/ui_playlist_ops.py:23-26 | one base name per row, in row order |
| PlaylistOps.BaseNamesMoved | app/ui_playlist_ops.py:13-27 | the persisted order after a move is the old order with the same move |
| PlaylistOps.AddFilenameSpec | app/ui_playlist_ops.py:30-36 | the name is appended to the active playlist unless it has the name already in some letter case, when nothing changes; either way it has it afterwards, and no other playlist changes |
| PlaylistOps.AddFilenameIdempotent | app/ui_playlist_ops.py:30-36 | adding the same name twice is adding it once |
| PlaylistOps.KeepOne | app/ui_playlist_ops.py:56 | removing one row index removes exactly that row, or nothing when it is past the end |
| PlaylistOps.RemoveRowSpec | app/ui_playlist_ops.py:48-58 | removing the current row drops exactly that row of the playlist and leaves its name, every other playlist, the order and the active id alone |
| PlaylistOps.PlaylistList.constructor | app/ui_playlist_ops.py:6-7 | the list holds the given rows and current row (-1 for none) |
| PlaylistOps.PlaylistList.PersistOrder | app/ui_playlist_ops.py:19-27 | with an active playlist its items become the rows' base names in row order, saved once; without one nothing happens |
| PlaylistOps.PlaylistList.MoveSelectedItem | app/ui_playlist_ops.py:6-16 | no current row or a target off the list changes nothing; otherwise the row moves by `delta`, becomes current there, and the new order is persisted |
| PlaylistOps.PlaylistList.RemoveSelected | app/ui_playlist_ops.py:48-58 | with an active playlist and a current row, that row is removed from the playlist and a song is reloaded; otherwise nothing happens |
| PlaylistOps.AddFilenameToActivePlaylist | app/ui_playlist_ops.py:30-36 | result and new state are those of `AddFilenameOf`; the store is saved only when the name was appended |
| SongUtils.IsUnderDir | app/ui_song_utils.py:13-18 | `relative_to` succeeds exactly when the root's segments are a prefix of the path's |
| SongUtils.IsUnderDirSpec | app/ui_song_utils.py:13-18 | a directory holds itself, holding is transitive, and the relative path leads back to the path |
| SongUtils.FirstHolding | app/ui_song_utils.py:23-26 | the position found is the first directory that holds the path, and none is found exactly when no directory does |
| SongUtils.LibraryPublishedRootFor | app/ui_song_utils.py:21-26 | the loop returns the first published root that holds the path, or None when none does |
| SongUtils.UniqueLocalName | app/ui_song_utils.py:29-42 | `stem + ext` when free; otherwise the first free `stem (i)ext` for `i` in 1..9999, every earlier one taken; the error exactly when all of those are taken |
| SongUtils.MakeUniqueLocalName | app/ui_song_utils.py:29-42 | the loop returns exactly the name or error `UniqueLocalName` describes |
| SongUtils.UniqueNameIsFree | app/ui_song_utils.py:34-41 | when the preferred name makes a plain file name, the name returned is a plain file name nothing in the songs folder uses |
| SongUtils.PlainPreferred | app/ui_song_utils.py:31 | a plain file name is its own `Path(...).name` |
| SongUtils.MultiDotParts | app/ui_song_utils.py:32-33 | a name `a.b.c` has stem `a.b` and suffixes `.b.c` |
| SongUtils.MultiDotName | app/ui_song_utils.py:31-36 | a free name `a.b.c` comes back as `a.b.b.c`, the middle suffix repeated, since the stem keeps it and the joined suffixes add it again |
| PedalInput.ExitComboSpec | app/ui_input.py:6-9 | the exit combo holds exactly when both page keys or both arrow keys are down; pressing more keys keeps it, and no single key or mixed pair makes it |
| PedalInput.ExitTimer.constructor | app/ui_input.py:12-18 | a new timer is stopped and was never started |
| PedalInput.ExitTimer.Start | app/ui_input.py:16 | starting runs the timer with the given interval and counts one more start |
| PedalInput.ExitTimer.Stop | app/ui_input.py:18 | stopping leaves the timer stopped and changes nothing else |
| PedalInput.StartOrStopExitTimer | app/ui_input.py:12-18 | afterwards the timer runs exactly when the combo is held; it is started, with the hold time, only when the combo is held and it was not running, so holding on does not restart it |
| PedalInput.Paired | app/ui_input.py:43-46 | the partner of a pedal key is the other key of its pair: a different pedal key, and the two together make the combo |
| PedalInput.PairedInvolution | app/ui_input.py:43-46 | each key of a pair is the other's partner |
| PedalInput.ToggleIgnored | app/ui_input.py:34-39 | a non-pedal key, or any key while the combo is latched, changes nothing and does not fire |
| PedalInput.ToggleRecords | app/ui_input.py:41-57 | otherwise the key's press time is recorded, nothing else changes, and the toggle fires exactly when the partner went down at most `window` milliseconds from now |
| PedalInput.TwoPresses | app/ui_input.py:41-57 | two presses of a pair with nothing latched: the second toggles exactly when they are at most `window` apart, whatever was recorded before |
| PedalInput.PedalState.constructor | app/ui_input.py:41 | no pedal has gone down yet |
| PedalInput.PedalState.MaybeHandleOnstageToggleCombo | app/ui_input.py:26-57 | whether the toggle fired and the new timestamps are those `ToggleOf` describes |
| Themes.MakeTheme | app/theme.py:32-36 | the name defaults to "Default" and the colour and style maps to empty ones; given fields are taken as they are |
| Themes.Prefix | app/theme.py:83 | the prefix of a key holds no dot |
| Themes.PrefixSpec | app/theme.py:83 | a key without a dot is its own prefix, and `a.b` has prefix `a` |
| Themes.FirstTruthy | app/theme.py:84-89 | `or` picks one of its candidates, and the empty text only when all are empty |
| Themes.FirstTruthyPick | app/theme.py:84-89 | `or` picks the first non-empty candidate |
| Themes.Resolve | app/theme.py:79-89 | never empty when the lyrics default is not; a colour the theme gives for the key itself wins |
| Themes.ResolveFallback | app/theme.py:84-89 | each later step of the fallback (prefix colour, key default, prefix default, lyrics default) is taken exactly when the earlier ones give nothing |
| Themes.ColorFor | app/theme.py:79-89 | over the built-in defaults the colour is never empty, and the theme's colour for the key wins |
| Themes.DottedKeyTakesPrefix | app/theme.py:84-89 | a dotted key the theme does not colour takes its prefix's colour when the theme has one |
| Themes.DefaultThemeColors | app/theme.py:16-28 | the default theme gives every default colour, and an unknown dotted key under a defaulted prefix takes that prefix's default |
| Themes.BackgroundColor | app/theme.py:122-126 | the background is never empty, and is the theme's when it sets one |
| Themes.BackgroundDefault | app/theme.py:122-126 | the background follows the colour lookup and is black by default |
| Themes.StyleForCases | app/theme.py:91-103 | empty unless the styles name bold or italic; bold gives `font-weight:600`, italic `font-style:italic`, both joined by "; " with bold first; other names are ignored |
| Themes.NoStylesNoCss | app/theme.py:91-103 | a key with no styles has no CSS |
| Themes.DefaultsNonEmpty | app/theme.py:16-28 | every built-in default colour is non-empty |

## Left out

- Strings.Lower: folds ASCII letters only, while the program uses Unicode `str.lower()` and `re.IGNORECASE`. Keys and names with non-ASCII capitals, or with characters such as `ſ` that Unicode folds onto ASCII letters, compare differently. This affects every member below that lower-cases or matches case-insensitively.
- Strings.PyRepr: escapes the backslash, the quote, `\n`, `\r`, `\t`, the other ASCII control characters and DEL, which covers the paths in error messages. Python's `repr` also escapes non-printable non-ASCII characters, such as U+0085 or U+00A0, as `\x`, `\u` or `\U` sequences, and the model does not.
- ChordPro.ParseChordpro: `{soc}`, `{eoc}` and comment keys, and the lower-cased meta keys, are matched with ASCII folding only (stagepro/chordpro.py:25-28 and 69). For example, Python's `re.IGNORECASE` accepts `{ſoc}` as a chorus start, and the model does not.
- ChordProEdit.UpsertDirectives: update keys and existing keys are lower-cased ASCII-only (stagepro/chordpro_edit.py:38, 46, 57).
- ChordProEdit.UpsertDirectives: update values are strings. A `None` value, which `(v or "")` turns into an ignored empty update (stagepro/chordpro_edit.py:47, 58), is not modelled.
- Playlist.ListSongFilesAlphaFromRoots: the de-duplication and sort keys and the setlist-name comparison fold ASCII only (stagepro/playlist.py:16-22).
- Playlist.OrderSongs: setlist items are matched to songs with ASCII folding only (stagepro/playlist.py:53-67).
- Playlist.ListSongFilesAlphaFromRoots: requires that a root which exists is a directory. `iterdir()` on a regular file raises `NotADirectoryError` (stagepro/playlist.py:12), and that exception is not modelled.
- Playlist.OrderSongs: requires that an existing songs folder is a directory and an existing setlist path is a file. The exceptions Python raises otherwise are not modelled.
- PlaylistsStore.PlaylistStore.LegacySetlistItems: requires an existing songs folder to be a directory and an existing setlist path to be a file, as Playlist.OrderSongs does. The exceptions Python raises otherwise are not modelled.
- PlaylistsStore.PlaylistStore.InitFromLegacySetlist: carries the same requires on the songs folder and the setlist path, for the same reason.
- PlaylistsStore.PlaylistStore.LoadOrInit: carries the same requires on the songs folder and the setlist path, for the same reason.
- Playlist.ReadSetlistFile: the file system holds decoded text, so `errors="replace"` (stagepro/playlist.py:35) has nothing to act on. Undecodable bytes are not modelled.
- Publisher.ScanFiles: the song-extension test lower-cases the suffix ASCII-only (app/libraries/publisher.py:27).
- FileSystem.ReadText: a missing path below a regular file gives `[Errno 2]`, where Linux reports `[Errno 20] Not a directory`. FileSystem.Unlink does the same. The message then depends on the path's own entry only. Mkdirs, WriteText, RmDir, RmTree, Rename and the pruning report `[Errno 20]` in that case.
- FileSystem.Rename: refuses every existing destination. `os.rename` replaces an existing file with a file, and an empty directory with a directory. The only caller removes the destination first (app/libraries/publisher.py:88-90).
- Importers.ImportUserFileToChordpro: the file system holds decoded text. The UTF-8 read, and the Latin-1 re-read after a `UnicodeDecodeError` (stagepro/importers.py:176-178), are not modelled. Directive keys are lower-cased ASCII-only (stagepro/importers.py:193).
- Importers.FallbackImport: the section-header test lower-cases ASCII-only (stagepro/importers.py:107).
- PlaylistOps.AddFilenameToActivePlaylist: the duplicate test compares names lower-cased ASCII-only (app/ui_playlist_ops.py:33).
- Paths.ResolveLibraryPath: `~user/...` is not expanded to that user's home, as `expanduser` would (stagepro/paths.py:52). It is treated as a relative path under the app-data directory. The home directory and the app-data directory are parameters.
- PlaylistsStore.PlaylistStore.Load: takes the store file as an already-decoded record. `_load` raises on malformed JSON, on a playlist entry that is not an object, and on a non-numeric `version` (stagepro/playlists_store.py:183-194). Those exceptions are not modelled, so LoadOrInit's readiness guarantee covers well-formed files only.
- PlaylistsStore.PlaylistStore.CreatePlaylist: the fresh `uuid4` id is a parameter, required to be unused. DuplicatePlaylist and InitDefault take their ids the same way, and `_now_iso()` timestamps in the saved file are not modelled.
- SyncService.SyncSource: `progress_cb` (stagepro/libraries/sync_service.py:42-44) only reports progress and is not modelled. The two timestamps, the importer and the manifest's JSON encoder are parameters. Git is an oracle, and the sync relies only on what it reports.
- SyncService.SyncSource: `save_state` is taken never to fail. Its `mkdir` and `write_text` (stagepro/libraries/model.py:168-171) can raise. A failure at stagepro/libraries/sync_service.py:40 or :49 escapes `sync_source`, and a failure at :119 escapes from inside the `except`. The model's saved states and results do not cover these runs.
- SyncService.SyncSource: git is an oracle that answers clone and fetch without touching the file system. The real `clone` creates the mirror's parent directory before running git (stagepro/libraries/git_client.py:31). A clone or fetch that fails can leave a partial mirror behind. The model's file system after a git error is the one before the call.
- SyncService.SyncSource: the directories `ensure_dir` creates as a side effect are not modelled. `mirror_dir()` and `published_dir()` (stagepro/libraries/sync_service.py:52-53) go through `libraries_sources_dir()` and `libraries_published_dir()` (stagepro/paths.py:24-38), which create the libraries, sources and published folders. The run's file system leaves those out.
- LibraryModel.LoadState: the state file is a record of typed fields. A field holding a JSON value of an unexpected type is not modelled, and neither is any other configuration record.
- LibraryModel.LoadState: reads the state file without changing the file system. The real `load_state` (stagepro/libraries/model.py:158) calls `libraries_sources_dir()`, which creates the libraries and sources folders.
- Paths.LibrariesSourcesDir: computes the path only. `ensure_dir` (stagepro/paths.py:24-26) also creates it. The same holds for Paths.LibrariesBaseDir and Paths.LibrariesPublishedDir.
- LibraryModel.LoadLibrariesConfig: `json.loads` and `json.dumps` are parameters, and the file's path is given rather than derived from the user's config directory. `save_libraries_config` is not modelled.
- Playback.RepaginateAndRender: requires the song index to be in range when a song and a song list exist. Python would also accept a negative index and wrap around.
- Playback.RenderPage: Qt's `setHtml`, scrolling and the measuring of rendered pages are effects or parameters.
- Paginate.PaginateToFit: the Qt height measurement (`measure_height`) is abstracted to a fit predicate on the rendered page.
- StageRender.PageLayout: the style sheet (`stagepro_css`) is a parameter and is not modelled.
- AppRender.PageLayout: the style sheet is a parameter and is not modelled.
- PedalInput.ExitTimer.Start: the `QTimer` is modelled by its running flag, interval and start count. The timeout that calls `exit_if_still_held` (app/ui_input.py:21-23) and closes the window is not modelled.
- PedalInput.PedalState.MaybeHandleOnstageToggleCombo: `time.monotonic()` is the parameter `now`, in milliseconds. The toggle callback is the returned flag.
- Themes.MakeTheme: `Theme.load` (reading a JSON file, with a fallback to the default theme on any error) and `span` are not modelled. Colour values are strings, and non-string JSON values in a theme are not modelled.
- Themes.StyleForCases: a style entry is a list of names. A plain string, where Python's `in` would test substrings, is not modelled.
- SongUtils.IsUnderDir: paths are taken as already resolved, so `Path.resolve()` (symbolic links, `..`) is not modelled.
- SongUtils.UniqueLocalName: `read_song_text_for_edit` (app/ui_song_utils.py:5-10), which reads a file for the editor, is not modelled.
- Playback.WindowNextPage: the main window (app/ui_main.py:1452-1532) is modelled by value, as a `Window` record that each paging step returns, and not as a class whose fields change. Its song list is a count and a function giving each song's pages. Reading and parsing the song file, the error dialog for a song that fails to parse, and repagination inside `render` are not modelled. WindowPrevPage, WindowNextSong, WindowPrevSong, WindowLoad and WindowRender are modelled the same way.
- The Qt widgets and the rest of the main window (app/ui_main.py), such as menus, dialogs, the library browser and the editor, are not part of this model. Neither are the other UI files. The song files, the git client, the clock and the user's directories become parameters of the members that use them.

## Findings

| source | as written | input that shows it | evidently intended | confidence | as-written member | corrected member |
|---|---|---|---|---|---|---|
| app/ui_main.py:1516-1517 | `prev_page` stores the index `playback_prev_page` returns, 0, after `prev_song` has set the loaded song's last-page index | going back from page 1 of the second song | the previous song's last page | not executed | Playback.BackFromFirstPageLandsOnFirstPage | Playback.FixedPagingSteady |
| app/ui_main.py:1513-1514 | `next_page` stores the old song's last index after `next_song` has loaded the next song at index 0 | a three-page song then a one-page song: forward from page 3, then back, raises `IndexError` | index 0 on the next song | not executed | Playback.StaleIndexRaises | Playback.FixedPagingSteady |
| app/ui_main.py:1513-1517 | `render` runs inside `playback_next_page`/`playback_prev_page`, before the window stores the new index, so it shows the old page | any page turn inside a song of two or more pages | the new page is shown | not executed | Playback.PageTurnRendersOldPage | Playback.FixedNextPrevInverse |
| stagepro/libraries/sync_service.py:46 | `is_git_available()` runs `git --version` outside the `try`. When git is not installed, starting the process raises (stagepro/libraries/git_client.py:25-27), and the exception escapes `sync_source` | a machine without git: the saved state stays `syncing` and no result is returned | the "Git not found" error is saved and returned | not executed | SyncService.MissingGitLeavesSyncing | SyncService.CaughtMissingGitReported |
