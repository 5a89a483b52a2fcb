/** Syncing one library source (stagepro/libraries/sync_service.py): the mirror is
    brought up to date with git, then published in full or incrementally, and the
    source's sync state moves through `syncing` to `idle` or `error`, being saved
    after each transition. Git is an oracle that reports, for each command, the
    value it gives or the error it raises, and the file system once the mirror
    has been reset. */
module SyncService {
  import opened Wrappers
  import opened Strings
  import opened Paths
  import opened FileSystem
  import opened LibraryModel
  import opened Globs
  import opened Publisher

  /** `SyncResult`; a failure leaves the count and the commit at their defaults. */
  datatype SyncResult = SyncResult(success: bool, message: string, filesIndexed: int, lastCommit: Option<string>)

  /** One row of `git diff --name-status`: the status letters and the path. */
  datatype DiffRow = DiffRow(status: string, relPath: Path)

  /** What each git command of a sync does; `available` is what
      `is_git_available` returns, or what `git --version` raises when no git
      can be started; `diff(a, b)` is what `git diff --name-status a b`
      reports, and `worktree` is the file system once the mirror has been
      reset. */
  datatype GitOracle = GitOracle(
    available: Result<bool>,
    cloneError: Option<string>,
    fetchError: Option<string>,
    checkoutError: Option<string>,
    headRemote: Result<string>,
    resetError: Option<string>,
    headAfter: Result<string>,
    diff: (string, string) -> Result<seq<DiffRow>>,
    worktree: Fs)

  /** `is_git_available()` returned true. */
  predicate GitFound(git: GitOracle) {
    git.available.Ok? && git.available.value
  }

  /** Git changes nothing outside the mirror: every path not at or below it is
      as it was before the sync. */
  ghost predicate ResetTouchesOnlyMirror(fs: Fs, git: GitOracle, mirror: Path) {
    forall q | !(mirror <= q) :: SameAt(fs, git.worktree, q)
  }

  /** What a sync depends on besides the source and the git oracle: the sources
      configuration, the directory layout, the two timestamps it records, the
      song importer and the manifest's JSON encoder. */
  datatype Env = Env(
    cfg: LibrariesConfig,
    appData: Path,
    home: Path,
    startedAt: string,
    finishedAt: string,
    importer: Importer,
    encodeManifest: Manifest -> string)

  /** The publish a sync ran, with what it was given and how it ended. */
  datatype Publication =
    | NotPublished
    | Full(files: seq<Path>, attempt: Attempt<Outcome>)
    | Incremental(changed: seq<Path>, deleted: seq<Path>, attempt: Attempt<Outcome>)
  {
    /** A publish ran and returned. */
    predicate Published() {
      !NotPublished? && attempt.Done?
    }

    /** What a publish that returned reported and left. */
    function Returned(): Outcome
      requires Published()
    {
      attempt.value
    }
  }

  /** A sync: its result, every state it saved in order, the file system it left
      and the publish it ran; or the exception that escaped it, with the states
      saved before it and the file system it left. */
  datatype Run =
    | Run(result: SyncResult, saved: seq<LibrarySyncState>, fs: Fs, publication: Publication)
    | Uncaught(error: string, saved: seq<LibrarySyncState>, fs: Fs)

  const GitMissing := "Git not found. Install Git to sync GitHub libraries."
  const DefaultIncludeGlobs: seq<string> := ["**/*.cho", "**/*.chopro", "**/*.pro", "**/*.txt"]
  const DefaultExcludeGlobs: seq<string> := ["**/.git/**"]

  /** Python truthiness of an optional text. */
  predicate Truthy(o: Option<string>) {
    o.Some? && o.value != ""
  }

  // ---------- the state transitions ----------

  /** The state saved before any git work. */
  function Syncing(st: LibrarySyncState, at: string): (r: LibrarySyncState)
    ensures r.status == "syncing" && r.lastSyncAt == Some(at)
    ensures r.lastCommit == st.lastCommit && r.filesIndexed == st.filesIndexed && r.lastError == st.lastError
  {
    st.(status := "syncing", lastSyncAt := Some(at))
  }

  /** The state saved when a sync fails with `message`. */
  function Failed(st: LibrarySyncState, message: string): (r: LibrarySyncState)
    ensures r.status == "error" && r.lastError == Some(message)
    ensures r.lastCommit == st.lastCommit && r.filesIndexed == st.filesIndexed && r.lastSyncAt == st.lastSyncAt
  {
    st.(status := "error", lastError := Some(message))
  }

  /** The state saved when a sync reaches `commit`; an earlier error text stays. */
  function Succeeded(st: LibrarySyncState, at: string, commit: string): (r: LibrarySyncState)
    ensures r.status == "idle" && r.lastSuccessAt == Some(at) && r.lastCommit == Some(commit)
    ensures r.lastError == st.lastError && r.filesIndexed == st.filesIndexed && r.lastSyncAt == st.lastSyncAt
  {
    st.(status := "idle", lastSuccessAt := Some(at), lastCommit := Some(commit))
  }

  // ---------- the git steps ----------

  /** The commits a sync works with: the remote branch head before the reset, and
      the checked-out head after it. */
  datatype Heads = Heads(remote: string, after: string)

  /** Clone (only when the mirror has no `.git`), fetch, checkout, read the remote
      head, reset and read the new head: the first command that raises ends the
      sync with its error. */
  function GitUpdate(fs: Fs, git: GitOracle, mirror: Path): (r: Result<Heads>)
    ensures r.Ok? ==> git.headRemote == Ok(r.value.remote) && git.headAfter == Ok(r.value.after)
    ensures r.Ok? <==> ((Exists(fs, mirror + [".git"]) || git.cloneError.None?) && git.fetchError.None?
      && git.checkoutError.None? && git.headRemote.Ok? && git.resetError.None? && git.headAfter.Ok?)
  {
    if !Exists(fs, mirror + [".git"]) && git.cloneError.Some? then Err(git.cloneError.value)
    else if git.fetchError.Some? then Err(git.fetchError.value)
    else if git.checkoutError.Some? then Err(git.checkoutError.value)
    else if git.headRemote.Err? then Err(git.headRemote.error)
    else if git.resetError.Some? then Err(git.resetError.value)
    else if git.headAfter.Err? then Err(git.headAfter.error)
    else Ok(Heads(git.headRemote.value, git.headAfter.value))
  }

  /** An existing clone is never cloned again: how a clone would fail does not matter. */
  lemma ExistingCloneNotRecloned(fs: Fs, git: GitOracle, mirror: Path, e: string)
    requires Exists(fs, mirror + [".git"])
    ensures GitUpdate(fs, git.(cloneError := Some(e)), mirror) == GitUpdate(fs, git.(cloneError := None), mirror)
  {
  }

  // ---------- the changes of an incremental sync ----------

  /** A row whose status starts with `D` is a deletion. */
  predicate IsDeletion(row: DiffRow) {
    StartsWith(row.status, "D")
  }

  /** The mirror paths of the deletion rows, in order. */
  function DeletedPaths(mirror: Path, rows: seq<DiffRow>): (r: seq<Path>)
    ensures |r| <= |rows|
    ensures forall p :: p in r <==> exists i | 0 <= i < |rows| :: IsDeletion(rows[i]) && p == mirror + rows[i].relPath
  {
    if rows == [] then []
    else
      var n := |rows| - 1;
      var pre := DeletedPaths(mirror, rows[..n]);
      assert forall i | 0 <= i < n :: rows[..n][i] == rows[i];
      if IsDeletion(rows[n]) then pre + [mirror + rows[n].relPath] else pre
  }

  /** A row that is not a deletion and names a song file of the reset mirror. */
  predicate IsChange(fs: Fs, mirror: Path, row: DiffRow) {
    !IsDeletion(row) && IsFile(fs, mirror + row.relPath) && IsSupportedSongPath(mirror + row.relPath)
  }

  /** The mirror paths of the change rows, in order: the incremental path checks
      the extension but not the include and exclude lists. */
  function ChangedPaths(fs: Fs, mirror: Path, rows: seq<DiffRow>): (r: seq<Path>)
    ensures |r| <= |rows|
  {
    if rows == [] then []
    else
      var n := |rows| - 1;
      var pre := ChangedPaths(fs, mirror, rows[..n]);
      if IsChange(fs, mirror, rows[n]) then pre + [mirror + rows[n].relPath] else pre
  }

  /** A path is a change exactly when some change row names it. */
  lemma {:induction false} ChangedPathsMembers(fs: Fs, mirror: Path, rows: seq<DiffRow>, p: Path)
    ensures p in ChangedPaths(fs, mirror, rows) <==>
      exists i | 0 <= i < |rows| :: IsChange(fs, mirror, rows[i]) && p == mirror + rows[i].relPath
  {
    if rows != [] {
      var n := |rows| - 1;
      var pre := rows[..n];
      assert rows == pre + [rows[n]];
      ChangedPathsMembers(fs, mirror, pre, p);
      if p in ChangedPaths(fs, mirror, pre) {
        var i :| 0 <= i < n && IsChange(fs, mirror, pre[i]) && p == mirror + pre[i].relPath;
        assert rows[i] == pre[i];
      }
    }
  }

  /** A row is taken as a change or as a deletion, never both. */
  lemma ChangedAndDeletedDisjoint(fs: Fs, mirror: Path, rows: seq<DiffRow>)
    requires forall i, j | 0 <= i < j < |rows| :: rows[i].relPath != rows[j].relPath
    ensures forall p | p in ChangedPaths(fs, mirror, rows) :: p !in DeletedPaths(mirror, rows)
  {
    forall p | p in ChangedPaths(fs, mirror, rows)
      ensures p !in DeletedPaths(mirror, rows)
    {
      ChangedPathsMembers(fs, mirror, rows, p);
      var i :| 0 <= i < |rows| && IsChange(fs, mirror, rows[i]) && p == mirror + rows[i].relPath;
      forall j | 0 <= j < |rows| && p == mirror + rows[j].relPath
        ensures j == i
      {
        assert rows[j].relPath == p[|mirror|..] == rows[i].relPath;
      }
    }
  }

  /** The loop of `sync_source` that splits the diff rows into changed and
      deleted paths, each in row order. */
  method SplitDiff(fs: Fs, mirror: Path, rows: seq<DiffRow>) returns (changed: seq<Path>, deleted: seq<Path>)
    ensures changed == ChangedPaths(fs, mirror, rows) && deleted == DeletedPaths(mirror, rows)
  {
    changed, deleted := [], [];
    var i := 0;
    while i < |rows|
      invariant 0 <= i <= |rows|
      invariant changed == ChangedPaths(fs, mirror, rows[..i]) && deleted == DeletedPaths(mirror, rows[..i])
    {
      assert rows[..i + 1][..i] == rows[..i];
      var path := mirror + rows[i].relPath;
      if StartsWith(rows[i].status, "D") {
        deleted := deleted + [path];
      } else if Exists(fs, path) && IsFile(fs, path) && IsSupportedSongPath(path) {
        changed := changed + [path];
      }
      i := i + 1;
    }
    assert rows[..i] == rows;
  }

  // ---------- counting the published songs ----------

  /** The song files below the published directory. */
  function PublishedSongs(fs: Fs, published: Path): set<Path> {
    set q | q in Below(fs, published) && IsFile(fs, q) && IsSupportedSongPath(q)
  }

  /** `_count_published_files(published_dir)`. */
  method CountPublishedFiles(fs: Fs, published: Path) returns (count: nat)
    ensures count == if Exists(fs, published) then |PublishedSongs(fs, published)| else 0
  {
    if !Exists(fs, published) {
      return 0;
    }
    count := 0;
    var todo := Below(fs, published);
    ghost var songs := PublishedSongs(fs, published);
    ghost var seen: set<Path> := {};
    while todo != {}
      invariant todo <= Below(fs, published)
      invariant seen <= songs && seen !! todo
      invariant forall q | q in songs :: q in seen || q in todo
      invariant count == |seen|
      decreases |todo|
    {
      var p :| p in todo;
      if IsFile(fs, p) && IsSupportedSongPath(p) {
        seen := seen + {p};
        count := count + 1;
      }
      todo := todo - {p};
    }
    assert seen == songs;
  }

  /** Writing the manifest does not change the count. */
  lemma ManifestKeepsCount(fs: Fs, published: Path, text: string)
    ensures PublishedSongs(fs[published + [ManifestName] := File(text)], published) == PublishedSongs(fs, published)
  {
    ManifestIsNotASong(published);
  }

  // ---------- the sync ----------

  /** The last state a sync saved. */
  function Last(saved: seq<LibrarySyncState>): LibrarySyncState
    requires saved != []
  {
    saved[|saved| - 1]
  }

  /** `source.include_globs or [...]`. */
  function IncludesOf(s: LibrarySource): seq<string> {
    if s.includeGlobs != [] then s.includeGlobs else DefaultIncludeGlobs
  }

  /** `source.exclude_globs or [...]`. */
  function ExcludesOf(s: LibrarySource): seq<string> {
    if s.excludeGlobs != [] then s.excludeGlobs else DefaultExcludeGlobs
  }

  /** The publish step of `sync_source`: on a moved head the diff rows are
      split into changed and deleted paths and published in place; otherwise
      the mirror is scanned and published in full. A diff that git cannot give
      raises before anything is published; a publish that raises is kept with
      the file system it left. */
  method PublishStage(source: LibrarySource, mirror: Path, published: Path, cur: Fs, git: GitOracle, moved: bool,
                      before: string, remote: string, importer: Importer) returns (r: Result<Publication>)
    ensures r.Ok? ==> !r.value.NotPublished?
    ensures r.Err? <==> moved && git.diff(before, remote).Err?
    ensures r.Err? ==> r.error == git.diff(before, remote).error
    ensures r.Ok? && moved ==>
      var diff := git.diff(before, remote);
      && diff.Ok? && r.value.Incremental?
      && r.value.changed == ChangedPaths(cur, mirror, diff.value)
      && r.value.deleted == DeletedPaths(mirror, diff.value)
      && IncrementalPublication(cur, mirror, published, r.value.changed, r.value.deleted, importer) == r.value.attempt
    ensures r.Ok? && !moved ==>
      && r.value.Full?
      && (forall p :: p in r.value.files <==> p in ScanSet(cur, mirror, IncludesOf(source), ExcludesOf(source)))
      && FullPublication(cur, source.sourceId, mirror, published, r.value.files, importer) == r.value.attempt
  {
    if moved {
      var diff := git.diff(before, remote);
      if diff.Err? {
        return Err(diff.error);
      }
      var changed, deleted := SplitDiff(cur, mirror, diff.value);
      var attempt := PublishIncremental(cur, mirror, published, changed, deleted, importer);
      return Ok(Incremental(changed, deleted, attempt));
    } else {
      var files := ScanFiles(cur, mirror, IncludesOf(source), ExcludesOf(source));
      var attempt := PublishFull(cur, source.sourceId, mirror, published, files, importer);
      return Ok(Full(files, attempt));
    }
  }

  /** The end of `sync_source` once a publish has returned: publish errors fail
      the sync and keep the commit; otherwise the state records the new commit and
      the song count, and the manifest is written. */
  method Finish(env: Env, sourceId: string, published: Path, after: string, state: LibrarySyncState,
                publication: Publication) returns (result: SyncResult, saved: seq<LibrarySyncState>, fs: Fs)
    requires publication.Published()
    ensures saved != []
    ensures publication.Returned().result.errors != [] ==>
      var joined := Join("\n", publication.Returned().result.errors);
      && result == SyncResult(false, if joined != "" then joined else "Publish failed", 0, None)
      && saved == [Failed(state, joined)] && fs == publication.Returned().fs
    ensures publication.Returned().result.errors == [] ==>
      && Last(saved).lastCommit == Some(after)
      && saved[0] == Succeeded(state, env.finishedAt, after).(filesIndexed := saved[0].filesIndexed)
    ensures result.success ==>
      && result.message == "Sync complete" && publication.Returned().result.errors == []
      && Last(saved).status == "idle" && result.lastCommit == Some(after)
      && result.lastCommit == Last(saved).lastCommit && result.filesIndexed == Last(saved).filesIndexed
      && result.filesIndexed == |PublishedSongs(fs, published)|
      && WritePublishManifest(publication.Returned().fs, published,
           Manifest(sourceId, after, publication.Returned().result.filesWritten), env.encodeManifest) == Ok(fs)
    ensures !result.success ==>
      && Last(saved).status == "error"
      && (Last(saved).lastError == Some(result.message)
          || (Last(saved).lastError == Some("") && result.message == "Publish failed"))
  {
    var res := publication.Returned().result;
    fs := publication.Returned().fs;
    if res.errors != [] {
      var joined := Join("\n", res.errors);
      saved := [Failed(state, joined)];
      return SyncResult(false, if joined != "" then joined else "Publish failed", 0, None), saved, fs;
    }
    var count := CountPublishedFiles(fs, published);
    var st := Succeeded(state, env.finishedAt, after).(filesIndexed := count);
    saved := [st];
    var manifest := Manifest(sourceId, after, res.filesWritten);
    var written := WritePublishManifest(fs, published, manifest, env.encodeManifest);
    if written.Err? {
      saved := saved + [Failed(st, written.error)];
      return SyncResult(false, written.error, 0, None), saved, fs;
    }
    ManifestKeepsCount(fs, published, env.encodeManifest(manifest));
    fs := written.value;
    return SyncResult(true, "Sync complete", count, Some(after)), saved, fs;
  }

  /** Which publish ran, and on what: the incremental publish exactly on a
      moved head, on the diff from the recorded commit to the remote head, and
      otherwise the full publish on the scanned files. */
  ghost predicate Staged(env: Env, source: LibrarySource, start: LibrarySyncState, heads: Heads, git: GitOracle, p: Publication) {
    var after := heads.after;
    var mirror := MirrorDir(env.appData, env.home, source);
    var published := PublishedDir(env.appData, env.home, source);
    var cur := git.worktree;
    var noop := Truthy(start.lastCommit) && start.lastCommit.value == after && Exists(cur, published);
    var moved := Truthy(start.lastCommit) && start.lastCommit.value != after && Exists(cur, published);
    && (p.Incremental? ==>
          && moved && git.diff(start.lastCommit.value, heads.remote).Ok?
          && p.changed == ChangedPaths(cur, mirror, git.diff(start.lastCommit.value, heads.remote).value)
          && p.deleted == DeletedPaths(mirror, git.diff(start.lastCommit.value, heads.remote).value)
          && IncrementalPublication(cur, mirror, published, p.changed, p.deleted, env.importer) == p.attempt)
    && (p.Full? ==>
          && !noop && !moved
          && (forall q :: q in p.files <==> q in ScanSet(cur, mirror, IncludesOf(source), ExcludesOf(source)))
          && FullPublication(cur, source.sourceId, mirror, published, p.files, env.importer) == p.attempt)
  }

  /** What the rest of `sync_source` promises once git has brought the mirror to
      `heads.after`, starting from the `syncing` state `start`; `run.saved`
      holds the states saved from then on. */
  ghost predicate Concluded(env: Env, source: LibrarySource, start: LibrarySyncState, heads: Heads, git: GitOracle, run: Run) {
    run.Run? &&
    var after := heads.after;
    var mirror := MirrorDir(env.appData, env.home, source);
    var published := PublishedDir(env.appData, env.home, source);
    var cur := git.worktree;
    var noop := Truthy(start.lastCommit) && start.lastCommit.value == after && Exists(cur, published);
    var moved := Truthy(start.lastCommit) && start.lastCommit.value != after && Exists(cur, published);
    && run.saved != []
    // nothing new: the state records the success and the published tree stays
    && (noop ==>
          run == Run(SyncResult(true, "No updates", start.filesIndexed, Some(after)),
                     [Succeeded(start, env.finishedAt, after)], cur, NotPublished))
    && Staged(env, source, start, heads, git, run.publication)
    // when git could not give the diff, the sync failed before publishing
    && (!noop && run.publication.NotPublished? ==>
          && moved && git.diff(start.lastCommit.value, heads.remote).Err?
          && var e := git.diff(start.lastCommit.value, heads.remote).error;
          run == Run(SyncResult(false, e, 0, None), [Failed(start, e)], cur, NotPublished))
    // when the publish raised, the sync failed with the error, and the file
    // system stays as the publish left it at the raise
    && (!run.publication.NotPublished? && run.publication.attempt.Raised? ==>
          var e := run.publication.attempt.error;
          && run.result == SyncResult(false, e, 0, None) && run.saved == [Failed(start, e)]
          && run.fs == run.publication.attempt.fs)
    // publish errors fail the sync and are recorded joined by newlines
    && (run.publication.Published() && run.publication.Returned().result.errors != [] ==>
          var joined := Join("\n", run.publication.Returned().result.errors);
          && run.result == SyncResult(false, if joined != "" then joined else "Publish failed", 0, None)
          && run.saved == [Failed(start, joined)] && run.fs == run.publication.Returned().fs)
    // the commit only moves with a publish that reported no errors
    && (|| Last(run.saved).lastCommit == start.lastCommit
        || (&& run.publication.Published() && run.publication.Returned().result.errors == []
            && Last(run.saved).lastCommit == Some(after)))
    // success and failure as the last saved state records them
    && (run.result.success ==>
          && Last(run.saved).status == "idle"
          && run.result.lastCommit == Last(run.saved).lastCommit
          && run.result.filesIndexed == Last(run.saved).filesIndexed)
    && (!run.result.success ==>
          && Last(run.saved).status == "error"
          && (Last(run.saved).lastError == Some(run.result.message)
              || (Last(run.saved).lastError == Some("") && run.result.message == "Publish failed")))
    // a completed sync wrote the manifest and counted the published songs
    && (run.result.success && !noop ==>
          && run.result.message == "Sync complete"
          && run.publication.Published() && run.publication.Returned().result.errors == []
          && run.result.lastCommit == Some(after)
          && run.result.filesIndexed == |PublishedSongs(run.fs, published)|
          && WritePublishManifest(run.publication.Returned().fs, published,
               Manifest(source.sourceId, after, run.publication.Returned().result.filesWritten),
               env.encodeManifest) == Ok(run.fs))
  }

  /** `sync_source` after the git steps. */
  method Conclude(env: Env, source: LibrarySource, start: LibrarySyncState, heads: Heads, git: GitOracle) returns (run: Run)
    ensures Concluded(env, source, start, heads, git, run)
  {
    var after := heads.after;
    var published := PublishedDir(env.appData, env.home, source);
    var headBefore := start.lastCommit;
    var cur := git.worktree;
    if Truthy(headBefore) && headBefore.value == after && Exists(cur, published) {
      var state := Succeeded(start, env.finishedAt, after);
      return Run(SyncResult(true, "No updates", state.filesIndexed, Some(after)), [state], cur, NotPublished);
    }
    run := PublishAndRecord(env, source, start, heads, git);
  }

  /** The publish and the saves that follow it, when the head is new or
      nothing is published yet. */
  method PublishAndRecord(env: Env, source: LibrarySource, start: LibrarySyncState, heads: Heads, git: GitOracle)
    returns (run: Run)
    requires !(Truthy(start.lastCommit) && start.lastCommit.value == heads.after
               && Exists(git.worktree, PublishedDir(env.appData, env.home, source)))
    ensures Concluded(env, source, start, heads, git, run)
  {
    var after := heads.after;
    var mirror := MirrorDir(env.appData, env.home, source);
    var published := PublishedDir(env.appData, env.home, source);
    var headBefore := start.lastCommit;
    var cur := git.worktree;
    var moved := Truthy(headBefore) && headBefore.value != after && Exists(cur, published);
    var before := if Truthy(headBefore) then headBefore.value else "";
    var publication := PublishStage(source, mirror, published, cur, git, moved, before, heads.remote, env.importer);
    if publication.Err? {
      return Run(SyncResult(false, publication.error, 0, None), [Failed(start, publication.error)], cur, NotPublished);
    }
    run := Record(env, source, start, heads, git, publication.value);
  }

  /** The saves after a publish ran: a raised publish fails the sync with its
      message, one that returned goes on to `Finish`. */
  method Record(env: Env, source: LibrarySource, start: LibrarySyncState, heads: Heads, git: GitOracle, ran: Publication)
    returns (run: Run)
    requires !(Truthy(start.lastCommit) && start.lastCommit.value == heads.after
               && Exists(git.worktree, PublishedDir(env.appData, env.home, source)))
    requires !ran.NotPublished? && Staged(env, source, start, heads, git, ran)
    ensures Concluded(env, source, start, heads, git, run)
  {
    if ran.attempt.Raised? {
      var e := ran.attempt.error;
      return Run(SyncResult(false, e, 0, None), [Failed(start, e)], ran.attempt.fs, ran);
    }
    var published := PublishedDir(env.appData, env.home, source);
    var result, saved, finalFs := Finish(env, source.sourceId, published, heads.after, start, ran);
    return Run(result, saved, finalFs, ran);
  }

  /** What `sync_source` promises for a source the configuration lists. */
  ghost predicate Synced(env: Env, source: LibrarySource, loaded: LibrarySyncState, fs: Fs, git: GitOracle, run: Run) {
    var mirror := MirrorDir(env.appData, env.home, source);
    var start := Syncing(loaded, env.startedAt);
    // `syncing` is saved before any git work
    && run.saved != [] && run.saved[0] == start
    // a git that cannot be started raises out of the sync, leaving `syncing` saved
    && (git.available.Err? ==> run == Uncaught(git.available.error, [start], fs))
    // otherwise the sync returns and ends with another save
    && (git.available.Ok? ==> run.Run? && |run.saved| >= 2)
    && ((git.available.Ok? && !git.available.value) ==>
          run == Run(SyncResult(false, GitMissing, 0, None), [start, Failed(start, GitMissing)], fs, NotPublished))
    && (GitFound(git) && GitUpdate(fs, git, mirror).Err? ==>
          var e := GitUpdate(fs, git, mirror).error;
          run == Run(SyncResult(false, e, 0, None), [start, Failed(start, e)], fs, NotPublished))
    && (GitFound(git) && GitUpdate(fs, git, mirror).Ok? ==>
          && run.Run?
          && Concluded(env, source, start, GitUpdate(fs, git, mirror).value, git,
               Run(run.result, run.saved[1..], run.fs, run.publication)))
  }

  /** `sync_source(source_id)`, given the state `load_state` read and what git does. */
  method SyncSource(env: Env, id: string, loaded: LibrarySyncState, fs: Fs, git: GitOracle) returns (run: Run)
    ensures FindSource(env.cfg, id).None? ==>
      run == Run(SyncResult(false, "Source " + id + " not found", 0, None), [], fs, NotPublished)
    ensures FindSource(env.cfg, id).Some? ==> Synced(env, FindSource(env.cfg, id).value, loaded, fs, git, run)
  {
    var found := FindSource(env.cfg, id);
    if found.None? {
      return Run(SyncResult(false, "Source " + id + " not found", 0, None), [], fs, NotPublished);
    }
    var source := found.value;
    var state := Syncing(loaded, env.startedAt);
    if git.available.Err? {
      return Uncaught(git.available.error, [state], fs);
    }
    if !git.available.value {
      return Run(SyncResult(false, GitMissing, 0, None), [state, Failed(state, GitMissing)], fs, NotPublished);
    }
    var mirror := MirrorDir(env.appData, env.home, source);
    var heads := GitUpdate(fs, git, mirror);
    if heads.Err? {
      return Run(SyncResult(false, heads.error, 0, None), [state, Failed(state, heads.error)], fs, NotPublished);
    }
    var rest := Conclude(env, source, state, heads.value, git);
    run := Run(rest.result, [state] + rest.saved, rest.fs, rest.publication);
    assert Run(run.result, run.saved[1..], run.fs, run.publication) == rest;
  }

  // ---------- what a sync guarantees ----------

  /** As written, `is_git_available` runs `git --version` outside the `try` of
      `sync_source`: when no git can be started, the exception escapes the sync
      and the last state saved stays `syncing`. */
  lemma MissingGitLeavesSyncing(env: Env, source: LibrarySource, loaded: LibrarySyncState, fs: Fs, git: GitOracle, run: Run)
    requires Synced(env, source, loaded, fs, git, run) && git.available.Err?
    ensures run.Uncaught? && run.error == git.available.error && run.fs == fs
    ensures run.saved == [Syncing(loaded, env.startedAt)] && Last(run.saved).status == "syncing"
  {
  }

  /** The check as evidently intended: a git that cannot be started counts as
      not available, and every other command keeps its behaviour. */
  function CaughtGitCheck(git: GitOracle): (g: GitOracle)
    ensures g.available.Ok? && (GitFound(g) <==> GitFound(git))
    ensures g.(available := git.available) == git
  {
    git.(available := Ok(GitFound(git)))
  }

  /** With that check, a missing git fails the sync with the "Git not found"
      message recorded as the last saved state, and changes no file. */
  lemma CaughtMissingGitReported(env: Env, source: LibrarySource, loaded: LibrarySyncState, fs: Fs, git: GitOracle, run: Run)
    requires git.available.Err? && Synced(env, source, loaded, fs, CaughtGitCheck(git), run)
    ensures run.Run? && run.result == SyncResult(false, GitMissing, 0, None) && run.fs == fs
    ensures Last(run.saved) == Failed(Syncing(loaded, env.startedAt), GitMissing)
    ensures Last(run.saved).status == "error" && Last(run.saved).lastError == Some(GitMissing)
  {
  }

  lemma LastOfTail(saved: seq<LibrarySyncState>)
    requires |saved| >= 2
    ensures Last(saved[1..]) == Last(saved)
  {
  }

  /** The commit a sync records moves only with a publish that reported no
      errors, and then to the head git reset the mirror to. */
  lemma CommitMovesOnlyWithCleanPublish(env: Env, source: LibrarySource, loaded: LibrarySyncState, fs: Fs, git: GitOracle, run: Run)
    requires Synced(env, source, loaded, fs, git, run)
    ensures || Last(run.saved).lastCommit == loaded.lastCommit
            || (&& run.Run? && run.publication.Published() && run.publication.Returned().result.errors == []
                && git.headAfter.Ok? && Last(run.saved).lastCommit == Some(git.headAfter.value))
  {
    var mirror := MirrorDir(env.appData, env.home, source);
    if GitFound(git) && GitUpdate(fs, git, mirror).Ok? {
      LastOfTail(run.saved);
    }
  }

  /** A source whose state records no commit is never published incrementally;
      once git has succeeded and the publish did not raise, it is published in full. */
  lemma FirstSyncIsFull(env: Env, source: LibrarySource, loaded: LibrarySyncState, fs: Fs, git: GitOracle, run: Run)
    requires Synced(env, source, loaded, fs, git, run) && !Truthy(loaded.lastCommit)
    ensures run.Run? ==> !run.publication.Incremental?
    ensures run.Run? && run.publication.Published() ==> run.publication.Full?
  {
    var mirror := MirrorDir(env.appData, env.home, source);
    if GitFound(git) && GitUpdate(fs, git, mirror).Ok? {
      assert Syncing(loaded, env.startedAt).lastCommit == loaded.lastCommit;
    }
  }

  /** A sync that succeeds last saves `idle`, with the result's commit and count. */
  lemma SuccessRecorded(env: Env, source: LibrarySource, loaded: LibrarySyncState, fs: Fs, git: GitOracle, run: Run)
    requires Synced(env, source, loaded, fs, git, run) && run.Run? && run.result.success
    ensures Last(run.saved).status == "idle"
    ensures run.result.lastCommit == Last(run.saved).lastCommit
    ensures run.result.filesIndexed == Last(run.saved).filesIndexed
  {
    LastOfTail(run.saved);
  }

  /** A sync that fails last saves `error`, with the result's message (an empty
      joined error text is reported as "Publish failed"). */
  lemma FailureRecorded(env: Env, source: LibrarySource, loaded: LibrarySyncState, fs: Fs, git: GitOracle, run: Run)
    requires Synced(env, source, loaded, fs, git, run) && run.Run? && !run.result.success
    ensures Last(run.saved).status == "error"
    ensures || Last(run.saved).lastError == Some(run.result.message)
            || (Last(run.saved).lastError == Some("") && run.result.message == "Publish failed")
  {
    var mirror := MirrorDir(env.appData, env.home, source);
    if GitFound(git) && GitUpdate(fs, git, mirror).Ok? {
      LastOfTail(run.saved);
    }
  }

  /** Two prefixes of one path are prefixes of each other. */
  lemma PrefixesComparable(p: Path, q: Path, x: Path)
    requires p <= x && q <= x
    ensures p <= q || q <= p
  {
    if |p| <= |q| {
      assert p == x[..|p|] == q[..|p|];
    } else {
      assert q == x[..|q|] == p[..|q|];
    }
  }

  /** Paths at or below a directory apart from the mirror are outside it. */
  lemma OutsideMirror(mirror: Path, published: Path, q: Path)
    requires Apart(mirror, published) && published <= q
    ensures !(mirror <= q)
  {
    if mirror <= q {
      PrefixesComparable(mirror, published, q);
    }
  }

  /** A source with the default layout keeps its mirror and its published
      directory apart. */
  lemma DefaultDirsApart(appData: Path, home: Path, s: LibrarySource)
    requires ValidSegment(s.sourceId) && s.local == DefaultLocal(s.sourceId)
    ensures Apart(MirrorDir(appData, home, s), PublishedDir(appData, home, s))
  {
    var n := |appData|;
    DefaultMirrorDir(appData, home, s);
    DefaultPublishedDir(appData, home, s);
    var m := MirrorDir(appData, home, s);
    var p := PublishedDir(appData, home, s);
    assert m[n + 1] != p[n + 1];
  }

  /** A full publish that reported errors leaves the published tree of the
      reset mirror exactly as git left it. */
  lemma FailedPublishKeepsWorktree(env: Env, source: LibrarySource, loaded: LibrarySyncState, fs: Fs, git: GitOracle, run: Run)
    requires Synced(env, source, loaded, fs, git, run)
    requires run.Run? && run.publication.Full? && run.publication.Published()
    requires run.publication.Returned().result.errors != []
    requires var published := PublishedDir(env.appData, env.home, source);
      published != [] && Name(published) != source.sourceId + ".tmp"
    ensures !run.result.success
    ensures forall q | PublishedDir(env.appData, env.home, source) <= q :: SameAt(git.worktree, run.fs, q)
  {
    var mirror := MirrorDir(env.appData, env.home, source);
    var published := PublishedDir(env.appData, env.home, source);
    assert GitFound(git) && GitUpdate(fs, git, mirror).Ok?;
    FailedFullPublishKeepsTree(git.worktree, source.sourceId, mirror, published, run.publication.files, env.importer);
  }

  /** The same against the file system before the sync, when git changed
      nothing outside the mirror and the published directory lies apart from
      it: a failed full publish leaves the published tree as it was. */
  lemma FailedSyncKeepsPublishedTree(env: Env, source: LibrarySource, loaded: LibrarySyncState, fs: Fs, git: GitOracle, run: Run)
    requires Synced(env, source, loaded, fs, git, run)
    requires run.Run? && run.publication.Full? && run.publication.Published()
    requires run.publication.Returned().result.errors != []
    requires var mirror := MirrorDir(env.appData, env.home, source);
      var published := PublishedDir(env.appData, env.home, source);
      ResetTouchesOnlyMirror(fs, git, mirror) && Apart(mirror, published) && Name(published) != source.sourceId + ".tmp"
    ensures !run.result.success
    ensures forall q | PublishedDir(env.appData, env.home, source) <= q :: SameAt(fs, run.fs, q)
  {
    var mirror := MirrorDir(env.appData, env.home, source);
    var published := PublishedDir(env.appData, env.home, source);
    assert published != [];
    FailedPublishKeepsWorktree(env, source, loaded, fs, git, run);
    KeptThroughReset(fs, git.worktree, run.fs, mirror, published);
  }

  /** What git keeps outside the mirror and the publish keeps below the
      published directory is kept from before the sync to after it. */
  lemma KeptThroughReset(fs: Fs, worktree: Fs, fs': Fs, mirror: Path, published: Path)
    requires forall q | !(mirror <= q) :: SameAt(fs, worktree, q)
    requires forall q | published <= q :: SameAt(worktree, fs', q)
    requires Apart(mirror, published)
    ensures forall q | published <= q :: SameAt(fs, fs', q)
  {
    forall q | published <= q
      ensures SameAt(fs, fs', q)
    {
      OutsideMirror(mirror, published, q);
      assert SameAt(fs, worktree, q) && SameAt(worktree, fs', q);
    }
  }

  /** A sync that finds the recorded commit again changes nothing but the
      mirror: the state records the success, nothing is published, and every
      path outside the mirror is as it was before the sync. */
  lemma NoUpdatesKeepsTree(env: Env, source: LibrarySource, loaded: LibrarySyncState, fs: Fs, git: GitOracle, run: Run)
    requires Synced(env, source, loaded, fs, git, run)
    requires var mirror := MirrorDir(env.appData, env.home, source);
      var published := PublishedDir(env.appData, env.home, source);
      && ResetTouchesOnlyMirror(fs, git, mirror) && Apart(mirror, published)
      && GitFound(git) && GitUpdate(fs, git, mirror).Ok?
      && Truthy(loaded.lastCommit) && loaded.lastCommit == Some(git.headAfter.value) && Exists(fs, published)
    ensures run.Run? && run.result == SyncResult(true, "No updates", loaded.filesIndexed, loaded.lastCommit)
    ensures !run.publication.Published()
    ensures forall q | !(MirrorDir(env.appData, env.home, source) <= q) :: SameAt(fs, run.fs, q)
  {
    var mirror := MirrorDir(env.appData, env.home, source);
    var published := PublishedDir(env.appData, env.home, source);
    OutsideMirror(mirror, published, published);
    assert Exists(git.worktree, published) by {
      assert SameAt(fs, git.worktree, published);
    }
  }

  /** An incremental publish that raises in its deletions still leaves the
      changed files it wrote: the sync fails with the error and its file system
      holds each changed song's normalised text in the published tree. */
  lemma RaisedIncrementalSyncKeepsWrites(env: Env, source: LibrarySource, loaded: LibrarySyncState, fs: Fs, git: GitOracle, run: Run)
    requires Synced(env, source, loaded, fs, git, run) && run.Run? && run.publication.Incremental?
    requires run.publication.attempt.Raised?
    requires var mirror := MirrorDir(env.appData, env.home, source);
      var published := PublishedDir(env.appData, env.home, source);
      var changed := run.publication.changed;
      && Apart(mirror, published)
      && (forall i, j | 0 <= i < j < |changed| :: changed[i] != changed[j])
      && WriteAll(git.worktree, mirror, published, changed, env.importer).Done?
      && WriteAll(git.worktree, mirror, published, changed, env.importer).value.result.errors == []
    ensures !run.result.success && run.result.message == run.publication.attempt.error
    ensures Last(run.saved).status == "error"
    ensures var mirror := MirrorDir(env.appData, env.home, source);
      var published := PublishedDir(env.appData, env.home, source);
      forall i | 0 <= i < |run.publication.changed| && run.publication.changed[i] !in run.publication.deleted ::
        var f := run.publication.changed[i];
        && mirror <= f && NormalizedText(git.worktree, f, env.importer).Ok?
        && Dest(mirror, published, f) in run.fs
        && run.fs[Dest(mirror, published, f)] == File(NormalizedText(git.worktree, f, env.importer).value)
  {
    var mirror := MirrorDir(env.appData, env.home, source);
    var published := PublishedDir(env.appData, env.home, source);
    assert GitFound(git) && GitUpdate(fs, git, mirror).Ok?;
    LastOfTail(run.saved);
    IncrementalWritesChanged(git.worktree, mirror, published, run.publication.changed, run.publication.deleted, env.importer);
  }

  /** An incremental sync publishes the changes git reports from the recorded
      commit to the remote head read before the reset, not to the head after it. */
  lemma IncrementalUsesRemoteHead(env: Env, source: LibrarySource, loaded: LibrarySyncState, fs: Fs, git: GitOracle, run: Run)
    requires Synced(env, source, loaded, fs, git, run) && run.Run? && run.publication.Incremental?
    ensures git.headRemote.Ok? && Truthy(loaded.lastCommit)
    ensures var diff := git.diff(loaded.lastCommit.value, git.headRemote.value);
      && diff.Ok?
      && run.publication.changed == ChangedPaths(git.worktree, MirrorDir(env.appData, env.home, source), diff.value)
      && run.publication.deleted == DeletedPaths(MirrorDir(env.appData, env.home, source), diff.value)
  {
    var mirror := MirrorDir(env.appData, env.home, source);
    assert GitFound(git) && GitUpdate(fs, git, mirror).Ok?;
    assert Syncing(loaded, env.startedAt).lastCommit == loaded.lastCommit;
  }

  /** The last segment of a path ends its text. */
  lemma RelTextEndsWithName(rel: Path)
    requires rel != []
    ensures EndsWith(RelText(rel), rel[|rel| - 1])
  {
    var n := |rel| - 1;
    if n > 0 {
      assert rel == rel[..n] + [rel[n]];
      JoinAppend("/", rel[..n], rel[n]);
    }
  }

  /** Each song extension is a plain text, and the default include list holds
      its double-star pattern. */
  lemma DefaultIncludeFor(ext: string)
    requires ext in SupportedExts
    ensures Literal(ext)
    ensures exists i | 0 <= i < |DefaultIncludeGlobs| :: DefaultIncludeGlobs[i] == "**/*" + ext
  {
    if ext == ".cho" {
      assert DefaultIncludeGlobs[0] == "**/*" + ext;
    } else if ext == ".chopro" {
      assert DefaultIncludeGlobs[1] == "**/*" + ext;
    } else if ext == ".pro" {
      assert DefaultIncludeGlobs[2] == "**/*" + ext;
    } else {
      assert ext == ".txt";
      assert DefaultIncludeGlobs[3] == "**/*" + ext;
    }
  }

  /** With the default include list, every file below the mirror whose name ends
      in a song extension, written in lower case, is included. */
  lemma DefaultIncludesSelectSongs(mirror: Path, p: Path)
    requires mirror < p && Suffix(Name(p)) in SupportedExts
    ensures MatchesGlobs(RelText(p[|mirror|..]), DefaultIncludeGlobs)
  {
    var rel := p[|mirror|..];
    var ext := Suffix(Name(p));
    assert rel[|rel| - 1] == Name(p);
    RelTextEndsWithName(rel);
    assert EndsWith(Name(p), ext);
    assert EndsWith(RelText(rel), ext);
    DefaultIncludeFor(ext);
    DoubleStarExtensionMatchesAnyDepth(RelText(rel), ext);
  }
}
