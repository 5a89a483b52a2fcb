/** Publishing a library mirror (app/libraries/publisher.py): choosing the song
    files of the mirror, writing their normalised ChordPro text into the published
    tree, either all at once through a temporary directory or file by file, and
    removing directories that deletions leave empty. */
module Publisher {
  import opened Wrappers
  import opened Strings
  import opened Paths
  import opened FileSystem
  import opened Globs
  import opened Importers

  const SupportedExts: set<string> := {".cho", ".chopro", ".pro", ".txt"}

  /** `is_supported_song_path(path)`: the lower-cased last suffix is a song extension. */
  predicate IsSupportedSongPath(p: Path) {
    Lower(Suffix(Name(p))) in SupportedExts
  }

  datatype PublishResult = PublishResult(filesWritten: nat, filesDeleted: nat, errors: seq<string>) {
    /** `PublishResult.success`. */
    predicate Success() {
      errors == []
    }
  }

  const EmptyResult := PublishResult(0, 0, [])

  /** A publish step that did not raise: the counters and the file system after it. */
  datatype Outcome = Outcome(result: PublishResult, fs: Fs)

  // ---------- choosing the files ----------

  /** The test `scan_files` applies to a path strictly below the mirror. */
  predicate Selected(fs: Fs, mirror: Path, includes: seq<string>, excludes: seq<string>, p: Path)
    requires mirror < p
  {
    var rel := RelText(p[|mirror|..]);
    IsFile(fs, p) && IsSupportedSongPath(p)
    && !(excludes != [] && MatchesGlobs(rel, excludes))
    && !(includes != [] && !MatchesGlobs(rel, includes))
  }

  /** The files `scan_files` returns, as a set: `rglob` order is not specified. */
  function ScanSet(fs: Fs, mirror: Path, includes: seq<string>, excludes: seq<string>): set<Path> {
    set p | p in Below(fs, mirror) && Selected(fs, mirror, includes, excludes, p)
  }

  /** `scan_files(mirror_dir, include_globs, exclude_globs)`: every entry below the
      mirror is visited once, in an order the model leaves open. */
  method ScanFiles(fs: Fs, mirror: Path, includes: seq<string>, excludes: seq<string>) returns (files: seq<Path>)
    ensures forall p :: p in files <==> p in ScanSet(fs, mirror, includes, excludes)
    ensures forall i, j | 0 <= i < j < |files| :: files[i] != files[j]
  {
    files := [];
    var todo := Below(fs, mirror);
    while todo != {}
      invariant todo <= Below(fs, mirror)
      invariant forall p :: p in files <==> p in Below(fs, mirror) - todo && Selected(fs, mirror, includes, excludes, p)
      invariant forall i, j | 0 <= i < j < |files| :: files[i] != files[j]
      decreases |todo|
    {
      var p :| p in todo;
      assert p !in files;
      if IsFile(fs, p) && IsSupportedSongPath(p) {
        var rel := RelText(p[|mirror|..]);
        if excludes != [] && MatchesGlobs(rel, excludes) {
        } else if includes != [] && !MatchesGlobs(rel, includes) {
        } else {
          files := files + [p];
        }
      }
      todo := todo - {p};
    }
  }

  /** A song file at any depth below the mirror, the top level included, matches
      the default include pattern of its extension. */
  lemma DefaultGlobsSelectSongs(fs: Fs, mirror: Path, p: Path, ext: string)
    requires mirror < p && IsFile(fs, p) && IsSupportedSongPath(p)
    requires ext in SupportedExts && EndsWith(RelText(p[|mirror|..]), ext)
    requires Literal(ext)
    ensures PatternMatches(RelText(p[|mirror|..]), "**/*" + ext)
  {
    DoubleStarExtensionMatchesAnyDepth(RelText(p[|mirror|..]), ext);
  }

  // ---------- writing normalised files ----------

  /** The song importer the publisher runs on each file's text: the pipeline
      passes `Importers.ImportText`, which is what `normalize_song_file` does after
      reading the file. */
  type Importer = string -> Result<ImportedSong>

  /** `normalize_song_file(src).chordpro_text`: the file is read, then imported. */
  function NormalizedText(fs: Fs, src: Path, importer: Importer): Result<string> {
    var text :- ReadText(fs, src);
    var song :- importer(text);
    Ok(song.chordproText)
  }

  /** With the pipeline's importer, this is the importer module's `ImportFile`. */
  lemma NormalizedTextIsImport(fs: Fs, src: Path)
    ensures NormalizedText(fs, src, ImportText).Ok? <==> ImportFile(fs, src).Ok?
    ensures NormalizedText(fs, src, ImportText).Ok? ==>
      NormalizedText(fs, src, ImportText).value == ImportFile(fs, src).value.chordproText
  {
  }

  /** What `_write_normalized(src, dest)` leaves behind: the file system (the
      directories it created stay even when the write then fails) and the message
      of the exception it raised, if any. */
  datatype Written = Written(fs: Fs, error: Option<string>)

  /** `_write_normalized(src, dest)`. */
  function WriteNormalized(fs: Fs, src: Path, dest: Path, importer: Importer): (r: Written)
    ensures forall q | q in fs && q != dest :: q in r.fs && r.fs[q] == fs[q]
    ensures forall q | q in r.fs && q !in fs :: q <= dest
    ensures forall q | q in r.fs && q !in fs && q != dest :: r.fs[q] == Dir
    ensures r.error.None? ==> (NormalizedText(fs, src, importer).Ok? && dest in r.fs
      && r.fs[dest] == File(NormalizedText(fs, src, importer).value))
  {
    match NormalizedText(fs, src, importer)
    case Err(e) => Written(fs, Some(e))
    case Ok(text) =>
      match Mkdirs(fs, Parent(dest))
      case Err(e) => Written(fs, Some(e))
      case Ok(fs1) =>
        assert forall q | q in fs1 && q !in fs :: q <= dest by {
          assert Parent(dest) <= dest;
        }
        match WriteText(fs1, dest, text)
        case Err(e) => Written(fs1, Some(e))
        case Ok(fs2) => Written(fs2, None)
  }

  /** The error line for a file that could not be written: its mirror-relative
      path, then the exception's message. */
  function ErrorLine(rel: Path, e: string): string {
    RelText(rel) + ": " + e
  }

  /** Where a mirror file is published below `root`. */
  function Dest(mirror: Path, root: Path, f: Path): Path
    requires mirror <= f
  {
    root + f[|mirror|..]
  }

  /** The write loop of both publishers: each file, in order, normalised into
      `root` at its mirror-relative path; a failure is recorded and the loop goes
      on. A file outside the mirror raises. */
  function WriteAll(fs: Fs, mirror: Path, root: Path, files: seq<Path>, importer: Importer): (r: Attempt<Outcome>)
  {
    if files == [] then Done(Outcome(EmptyResult, fs))
    else
      var n := |files| - 1;
      var prev :- WriteAll(fs, mirror, root, files[..n], importer);
      WriteOne(prev, mirror, root, files[n], importer)
  }

  /** One turn of the write loop: the file is normalised into `root`, and the
      count or the error list grows. */
  function WriteOne(prev: Outcome, mirror: Path, root: Path, f: Path, importer: Importer): Attempt<Outcome> {
    var rel :- Lift(RelativeTo(f, mirror), prev.fs);
    Done(Recorded(prev.result, rel, WriteNormalized(prev.fs, f, root + rel, importer)))
  }

  /** The count or the error list after one write, and the tree it left. */
  function Recorded(res: PublishResult, rel: Path, w: Written): Outcome {
    if w.error.None? then
      Outcome(res.(filesWritten := res.filesWritten + 1), w.fs)
    else
      Outcome(res.(errors := res.errors + [ErrorLine(rel, w.error.value)]), w.fs)
  }

  /** One more file: the loop so far did not raise, the file is in the mirror, and
      the new file system is what `_write_normalized` left, with the file counted
      as written or as an error. */
  lemma WriteAllStep(fs: Fs, mirror: Path, root: Path, files: seq<Path>, importer: Importer)
    requires files != [] && WriteAll(fs, mirror, root, files, importer).Done?
    ensures var n := |files| - 1;
      var prev := WriteAll(fs, mirror, root, files[..n], importer);
      && prev.Done? && mirror <= files[n]
      && var w := WriteNormalized(prev.value.fs, files[n], Dest(mirror, root, files[n]), importer);
      var r := WriteAll(fs, mirror, root, files, importer).value;
      && r.fs == w.fs
      && r.result.filesDeleted == prev.value.result.filesDeleted
      && (w.error.None? ==> r.result.errors == prev.value.result.errors
                            && r.result.filesWritten == prev.value.result.filesWritten + 1)
      && (w.error.Some? ==> r.result.errors == prev.value.result.errors + [ErrorLine(files[n][|mirror|..], w.error.value)]
                            && r.result.filesWritten == prev.value.result.filesWritten)
  {
  }

  /** Every file lies inside the mirror, checked from the last one back. */
  predicate AllInside(mirror: Path, files: seq<Path>)
    decreases |files|
  {
    files == [] || (AllInside(mirror, files[..|files| - 1]) && mirror <= files[|files| - 1])
  }

  lemma {:induction false} AllInsideEach(mirror: Path, files: seq<Path>)
    ensures AllInside(mirror, files) <==> forall i | 0 <= i < |files| :: mirror <= files[i]
  {
    if files != [] {
      var n := |files| - 1;
      var pre := files[..n];
      AllInsideEach(mirror, pre);
      assert forall i | 0 <= i < n :: pre[i] == files[i];
    }
  }

  lemma {:induction false} WriteAllOkInside(fs: Fs, mirror: Path, root: Path, files: seq<Path>, importer: Importer)
    ensures WriteAll(fs, mirror, root, files, importer).Done? <==> AllInside(mirror, files)
  {
    if files != [] {
      WriteAllOkInside(fs, mirror, root, files[..|files| - 1], importer);
    }
  }

  /** The write loop raises exactly when some file is outside the mirror. */
  lemma WriteAllOk(fs: Fs, mirror: Path, root: Path, files: seq<Path>, importer: Importer)
    ensures WriteAll(fs, mirror, root, files, importer).Done? <==> forall i | 0 <= i < |files| :: mirror <= files[i]
  {
    WriteAllOkInside(fs, mirror, root, files, importer);
    AllInsideEach(mirror, files);
  }

  /** Every file is counted once, as written or as an error, and nothing is deleted. */
  lemma {:induction false} WriteAllCounts(fs: Fs, mirror: Path, root: Path, files: seq<Path>, importer: Importer)
    requires WriteAll(fs, mirror, root, files, importer).Done?
    ensures var r := WriteAll(fs, mirror, root, files, importer).value.result;
      r.filesWritten + |r.errors| == |files| && r.filesDeleted == 0
  {
    if files != [] {
      WriteAllStep(fs, mirror, root, files, importer);
      WriteAllCounts(fs, mirror, root, files[..|files| - 1], importer);
    }
  }

  /** A path that is a prefix of a path below `root` lies on the way to `root` or below it. */
  lemma PrefixOfExtension(q: Path, root: Path, rel: Path)
    requires q <= root + rel
    ensures q <= root || root <= q
  {
    if |q| <= |root| {
      assert q == (root + rel)[..|q|];
    } else {
      assert root == (root + rel)[..|root|] == q[..|root|];
    }
  }

  /** The write loop keeps every entry that is not below `root`. */
  lemma {:induction false} WriteAllKeepsOutside(fs: Fs, mirror: Path, root: Path, files: seq<Path>, importer: Importer)
    requires WriteAll(fs, mirror, root, files, importer).Done?
    ensures var fs' := WriteAll(fs, mirror, root, files, importer).value.fs;
      forall q | q in fs && !(root <= q) :: q in fs' && fs'[q] == fs[q]
  {
    if files != [] {
      var n := |files| - 1;
      WriteAllStep(fs, mirror, root, files, importer);
      WriteAllKeepsOutside(fs, mirror, root, files[..n], importer);
    }
  }

  /** The only entries the write loop adds are directories on the way to `root`
      and entries below it. */
  lemma {:induction false} WriteAllAddsBelow(fs: Fs, mirror: Path, root: Path, files: seq<Path>, importer: Importer)
    requires WriteAll(fs, mirror, root, files, importer).Done?
    ensures var fs' := WriteAll(fs, mirror, root, files, importer).value.fs;
      forall q | q in fs' && q !in fs :: q <= root || root <= q
  {
    if files != [] {
      var n := |files| - 1;
      WriteAllStep(fs, mirror, root, files, importer);
      WriteAllAddsBelow(fs, mirror, root, files[..n], importer);
      var prev := WriteAll(fs, mirror, root, files[..n], importer).value;
      var dest := Dest(mirror, root, files[n]);
      var w := WriteNormalized(prev.fs, files[n], dest, importer);
      forall q | q in w.fs && q !in fs
        ensures q <= root || root <= q
      {
        if q !in prev.fs {
          PrefixOfExtension(q, root, files[n][|mirror|..]);
        }
      }
    }
  }

  /** The entry at `q` is the same in both file systems. */
  predicate SameAt(fs: Fs, fs': Fs, q: Path) {
    (q in fs <==> q in fs') && (q in fs ==> fs[q] == fs'[q])
  }

  /** Two paths neither of which lies inside the other. */
  predicate Apart(p: Path, q: Path) {
    !(p <= q) && !(q <= p)
  }

  /** A path inside `mirror` is apart from whatever is apart from `mirror`. */
  lemma ApartInside(mirror: Path, root: Path, f: Path)
    requires Apart(mirror, root) && mirror <= f
    ensures Apart(f, root)
  {
    assert mirror == f[..|mirror|];
    if |root| <= |mirror| {
      assert f[..|root|] == mirror[..|root|];
    } else {
      assert root[..|mirror|] != mirror;
    }
  }

  /** Different mirror files are published at different places. */
  lemma DestInjective(mirror: Path, root: Path, f: Path, g: Path)
    requires mirror <= f && mirror <= g && f != g
    ensures Dest(mirror, root, f) != Dest(mirror, root, g)
  {
    assert f == mirror + f[|mirror|..] && g == mirror + g[|mirror|..];
    assert Dest(mirror, root, f)[|root|..] == f[|mirror|..];
    assert Dest(mirror, root, g)[|root|..] == g[|mirror|..];
  }

  /** The normalised text of a file depends only on the file's own entry. */
  lemma NormalizedTextSameAt(fs: Fs, fs': Fs, src: Path, importer: Importer)
    requires SameAt(fs, fs', src)
    ensures NormalizedText(fs, src, importer) == NormalizedText(fs', src, importer)
  {
    assert ReadText(fs, src) == ReadText(fs', src);
  }

  /** A mirror apart from `root` is not touched by the write loop. */
  lemma WriteAllKeepsMirrorFile(fs: Fs, mirror: Path, root: Path, files: seq<Path>, importer: Importer, f: Path)
    requires WriteAll(fs, mirror, root, files, importer).Done?
    requires Apart(mirror, root) && mirror <= f
    ensures SameAt(fs, WriteAll(fs, mirror, root, files, importer).value.fs, f)
  {
    ApartInside(mirror, root, f);
    WriteAllKeepsOutside(fs, mirror, root, files, importer);
    WriteAllAddsBelow(fs, mirror, root, files, importer);
  }

  /** `f` is published at its mirror-relative path below `root` in `fs'`, with the
      normalised text read from `fs`. */
  predicate WrittenAt(fs: Fs, fs': Fs, mirror: Path, root: Path, f: Path, importer: Importer) {
    && mirror <= f && NormalizedText(fs, f, importer).Ok?
    && Dest(mirror, root, f) in fs'
    && fs'[Dest(mirror, root, f)] == File(NormalizedText(fs, f, importer).value)
  }

  /** A later write elsewhere keeps an earlier published file. */
  lemma WrittenAtKept(fs: Fs, fs': Fs, fs'': Fs, mirror: Path, root: Path, g: Path, importer: Importer, dest: Path)
    requires WrittenAt(fs, fs', mirror, root, g, importer) && Dest(mirror, root, g) != dest
    requires forall q | q in fs' && q != dest :: q in fs'' && fs''[q] == fs'[q]
    ensures WrittenAt(fs, fs'', mirror, root, g, importer)
  {
  }

  /** When no file failed, each one is published at its mirror-relative path below
      `root` with its normalised text, read from the mirror as it was. */
  lemma {:induction false} WriteAllWritesEach(fs: Fs, mirror: Path, root: Path, files: seq<Path>, importer: Importer)
    requires WriteAll(fs, mirror, root, files, importer).Done?
    requires WriteAll(fs, mirror, root, files, importer).value.result.errors == []
    requires forall i, j | 0 <= i < j < |files| :: files[i] != files[j]
    requires Apart(mirror, root)
    ensures forall i | 0 <= i < |files| ::
      WrittenAt(fs, WriteAll(fs, mirror, root, files, importer).value.fs, mirror, root, files[i], importer)
  {
    if files != [] {
      var n := |files| - 1;
      var pre := files[..n];
      WriteAllStep(fs, mirror, root, files, importer);
      var prev := WriteAll(fs, mirror, root, pre, importer).value;
      var w := WriteNormalized(prev.fs, files[n], Dest(mirror, root, files[n]), importer);
      var r := WriteAll(fs, mirror, root, files, importer).value;
      assert r.result.errors == [];
      assert w.error.None?;
      assert prev.result.errors == [];
      assert forall i, j | 0 <= i < j < |pre| :: pre[i] != pre[j] by {
        forall i, j | 0 <= i < j < |pre| ensures pre[i] != pre[j] {
          assert pre[i] == files[i] && pre[j] == files[j];
        }
      }
      WriteAllWritesEach(fs, mirror, root, pre, importer);
      forall i | 0 <= i < n
        ensures WrittenAt(fs, prev.fs, mirror, root, files[i], importer)
      {
        assert files[i] == pre[i];
      }
      WriteAllKeepsMirrorFile(fs, mirror, root, pre, importer, files[n]);
      WritesEachStep(fs, prev.fs, w.fs, mirror, root, files, importer);
      assert r.fs == w.fs;
    }
  }

  /** The step of `WriteAllWritesEach`: writing the last file, read from an entry
      that matches the original, publishes it and keeps the earlier ones. */
  lemma WritesEachStep(fs: Fs, prevFs: Fs, newFs: Fs, mirror: Path, root: Path, files: seq<Path>, importer: Importer)
    requires files != [] && mirror <= files[|files| - 1]
    requires forall i, j | 0 <= i < j < |files| :: files[i] != files[j]
    requires forall i | 0 <= i < |files| - 1 :: WrittenAt(fs, prevFs, mirror, root, files[i], importer)
    requires SameAt(fs, prevFs, files[|files| - 1])
    requires var dest := Dest(mirror, root, files[|files| - 1]);
      && (forall q | q in prevFs && q != dest :: q in newFs && newFs[q] == prevFs[q])
      && NormalizedText(prevFs, files[|files| - 1], importer).Ok?
      && dest in newFs && newFs[dest] == File(NormalizedText(prevFs, files[|files| - 1], importer).value)
    ensures forall i | 0 <= i < |files| :: WrittenAt(fs, newFs, mirror, root, files[i], importer)
  {
    var n := |files| - 1;
    var f := files[n];
    var dest := Dest(mirror, root, f);
    forall i | 0 <= i < |files|
      ensures WrittenAt(fs, newFs, mirror, root, files[i], importer)
    {
      if i == n {
        NormalizedTextSameAt(fs, prevFs, f, importer);
      } else {
        DestInjective(mirror, root, files[i], f);
        WrittenAtKept(fs, prevFs, newFs, mirror, root, files[i], importer, dest);
      }
    }
  }

  /** Every file the write loop creates or changes is one of the published files. */
  lemma {:induction false} WriteAllOnlyDests(fs: Fs, mirror: Path, root: Path, files: seq<Path>, importer: Importer)
    requires WriteAll(fs, mirror, root, files, importer).Done?
    ensures var fs' := WriteAll(fs, mirror, root, files, importer).value.fs;
      forall q | q in fs' && fs'[q].File? && !(q in fs && fs[q] == fs'[q]) ::
        exists i | 0 <= i < |files| :: mirror <= files[i] && q == Dest(mirror, root, files[i])
  {
    if files != [] {
      var n := |files| - 1;
      WriteAllStep(fs, mirror, root, files, importer);
      WriteAllOnlyDests(fs, mirror, root, files[..n], importer);
      var prev := WriteAll(fs, mirror, root, files[..n], importer).value;
      var dest := Dest(mirror, root, files[n]);
      var w := WriteNormalized(prev.fs, files[n], dest, importer);
      forall q | q in w.fs && w.fs[q].File? && !(q in fs && fs[q] == w.fs[q])
        ensures exists i | 0 <= i < |files| :: mirror <= files[i] && q == Dest(mirror, root, files[i])
      {
        if q == dest {
          assert mirror <= files[n];
        } else {
          assert q in prev.fs && prev.fs[q] == w.fs[q];
          var i :| 0 <= i < n && mirror <= files[..n][i] && q == Dest(mirror, root, files[..n][i]);
          assert files[..n][i] == files[i];
        }
      }
    }
  }

  // ---------- the full publish ----------

  /** The temporary directory of a full publish, beside the published one. */
  function TmpDir(id: string, published: Path): Path {
    Parent(published) + [id + ".tmp"]
  }

  /** The start of `publish_full`: any old temporary directory is removed, then it
      is created afresh. */
  function Prepare(fs: Fs, tmp: Path): Attempt<Fs> {
    var fs1 :- if Exists(fs, tmp) then Lift(RmTree(fs, tmp), fs) else Done(fs);
    Lift(Mkdirs(fs1, tmp), fs1)
  }

  /** `publish_full(source_id, mirror_dir, published_dir, files)`: every file is
      written into the temporary directory; if any failed, the published tree is
      left alone; otherwise it is replaced by the temporary one. */
  function FullPublication(fs: Fs, id: string, mirror: Path, published: Path, files: seq<Path>, importer: Importer): Attempt<Outcome> {
    var tmp := TmpDir(id, published);
    var fs2 :- Prepare(fs, tmp);
    var w :- WriteAll(fs2, mirror, tmp, files, importer);
    if w.result.errors != [] then Done(w)
    else
      var fs4 :- Swap(w.fs, tmp, published);
      Done(Outcome(w.result, fs4))
  }

  /** The end of a successful `publish_full`: the old published tree is removed and
      the temporary one is renamed into its place. */
  function Swap(fs: Fs, tmp: Path, published: Path): Attempt<Fs> {
    var fs3 :- if Exists(fs, published) then Lift(RmTree(fs, published), fs) else Done(fs);
    Lift(Rename(fs3, tmp, published), fs3)
  }

  /** After `Prepare`, nothing apart from the temporary directory has changed. */
  lemma PrepareKeepsApart(fs: Fs, tmp: Path)
    requires Prepare(fs, tmp).Done?
    ensures forall q | Apart(q, tmp) :: SameAt(fs, Prepare(fs, tmp).value, q)
  {
  }

  /** After `Prepare` in a tree, nothing lies below the temporary directory. */
  lemma PrepareLeavesEmpty(fs: Fs, tmp: Path)
    requires Prepare(fs, tmp).Done? && WellFormed(fs) && tmp != []
    ensures forall q | q in Prepare(fs, tmp).value :: !(tmp < q)
  {
    if !Exists(fs, tmp) {
      forall q | q in fs
        ensures !(tmp < q)
      {
        if tmp < q {
          AncestorStored(fs, q, tmp);
        }
      }
    }
  }

  /** Both facts about `Prepare` together. */
  lemma PrepareFacts(fs: Fs, tmp: Path)
    requires Prepare(fs, tmp).Done?
    ensures forall q | Apart(q, tmp) :: SameAt(fs, Prepare(fs, tmp).value, q)
    ensures WellFormed(fs) && tmp != [] ==> forall q | q in Prepare(fs, tmp).value :: !(tmp < q)
  {
    PrepareKeepsApart(fs, tmp);
    if WellFormed(fs) && tmp != [] {
      PrepareLeavesEmpty(fs, tmp);
    }
  }

  /** Two sibling paths with different names are apart. */
  lemma SiblingsApart(published: Path, id: string)
    requires published != [] && Name(published) != id + ".tmp"
    ensures Apart(published, TmpDir(id, published))
  {
    var tmp := TmpDir(id, published);
    assert |tmp| == |published|;
    assert tmp[|tmp| - 1] != published[|published| - 1];
  }

  /** A path below one of two apart paths is apart from the other. */
  lemma BelowApart(a: Path, b: Path, q: Path)
    requires Apart(a, b) && a <= q
    ensures Apart(q, b)
  {
    ApartInside(a, b, q);
  }

  /** Every file counts once, as written or as an error, whether or not the
      publish then swaps the trees. */
  lemma FullPublicationCounts(fs: Fs, id: string, mirror: Path, published: Path, files: seq<Path>, importer: Importer)
    requires FullPublication(fs, id, mirror, published, files, importer).Done?
    ensures var r := FullPublication(fs, id, mirror, published, files, importer).value.result;
      r.filesWritten + |r.errors| == |files| && r.filesDeleted == 0
  {
    var fs2 := Prepare(fs, TmpDir(id, published)).value;
    WriteAllCounts(fs2, mirror, TmpDir(id, published), files, importer);
  }

  /** A full publish in which some file failed leaves everything at and below the
      published directory exactly as it was. */
  lemma FailedFullPublishKeepsTree(fs: Fs, id: string, mirror: Path, published: Path, files: seq<Path>, importer: Importer)
    requires published != [] && Name(published) != id + ".tmp"
    requires FullPublication(fs, id, mirror, published, files, importer).Done?
    requires FullPublication(fs, id, mirror, published, files, importer).value.result.errors != []
    ensures forall q | published <= q :: SameAt(fs, FullPublication(fs, id, mirror, published, files, importer).value.fs, q)
  {
    var tmp := TmpDir(id, published);
    var fs2 := Prepare(fs, tmp).value;
    SiblingsApart(published, id);
    PrepareFacts(fs, tmp);
    WriteAllKeepsOutside(fs2, mirror, tmp, files, importer);
    WriteAllAddsBelow(fs2, mirror, tmp, files, importer);
    forall q | published <= q
      ensures SameAt(fs, FullPublication(fs, id, mirror, published, files, importer).value.fs, q)
    {
      BelowApart(published, tmp, q);
    }
  }

  /** Swapping the trees moves everything below `tmp` to the same place below
      `published`. */
  lemma SwapMoves(fs: Fs, tmp: Path, published: Path)
    requires Apart(tmp, published) && Swap(fs, tmp, published).Done?
    ensures var fs' := Swap(fs, tmp, published).value;
      && (forall rel | tmp + rel in fs :: published + rel in fs' && fs'[published + rel] == fs[tmp + rel])
      && (forall q | q in fs' && published <= q :: tmp + q[|published|..] in fs && fs'[q] == fs[tmp + q[|published|..]])
  {
    var fs3 := if Exists(fs, published) then RmTree(fs, published).value else fs;
    var fs' := Swap(fs, tmp, published).value;
    forall rel | tmp + rel in fs
      ensures tmp + rel in fs3 && fs3[tmp + rel] == fs[tmp + rel]
    {
      BelowApart(tmp, published, tmp + rel);
    }
    forall q | q in fs' && published <= q
      ensures tmp + q[|published|..] in fs && fs'[q] == fs[tmp + q[|published|..]]
    {
      assert q == published + q[|published|..];
    }
  }

  /** Swapping the trees leaves nothing below `tmp` and keeps what is apart from
      both directories. */
  lemma SwapKeeps(fs: Fs, tmp: Path, published: Path)
    requires Apart(tmp, published) && Swap(fs, tmp, published).Done?
    ensures var fs' := Swap(fs, tmp, published).value;
      && (forall q | tmp <= q :: q !in fs')
      && (forall q | Apart(q, tmp) && Apart(q, published) :: SameAt(fs, fs', q))
  {
    var fs' := Swap(fs, tmp, published).value;
    forall q | tmp <= q
      ensures q !in fs'
    {
      BelowApart(tmp, published, q);
    }
  }

  /** A successful full publish puts every file at its mirror-relative path below
      the published directory, with the normalised text of the mirror file as it
      was before the publish. */
  lemma SuccessfulFullPublishWritesEach(fs: Fs, id: string, mirror: Path, published: Path, files: seq<Path>, importer: Importer)
    requires published != [] && Name(published) != id + ".tmp"
    requires Apart(mirror, TmpDir(id, published))
    requires forall i, j | 0 <= i < j < |files| :: files[i] != files[j]
    requires FullPublication(fs, id, mirror, published, files, importer).Done?
    requires FullPublication(fs, id, mirror, published, files, importer).value.result.errors == []
    ensures var fs' := FullPublication(fs, id, mirror, published, files, importer).value.fs;
      forall i | 0 <= i < |files| ::
        && mirror <= files[i] && NormalizedText(fs, files[i], importer).Ok?
        && Dest(mirror, published, files[i]) in fs'
        && fs'[Dest(mirror, published, files[i])] == File(NormalizedText(fs, files[i], importer).value)
  {
    var tmp := TmpDir(id, published);
    var fs2 := Prepare(fs, tmp).value;
    var w := WriteAll(fs2, mirror, tmp, files, importer).value;
    SiblingsApart(published, id);
    PrepareFacts(fs, tmp);
    WriteAllWritesEach(fs2, mirror, tmp, files, importer);
    SwapMoves(w.fs, tmp, published);
    forall i | 0 <= i < |files|
      ensures NormalizedText(fs, files[i], importer) == NormalizedText(fs2, files[i], importer)
      ensures Dest(mirror, tmp, files[i]) == tmp + files[i][|mirror|..]
    {
      ApartInside(mirror, tmp, files[i]);
      NormalizedTextSameAt(fs, fs2, files[i], importer);
    }
  }

  /** After a successful full publish of a tree, every file below the published
      directory is the publication of one of the mirror files. */
  lemma SuccessfulFullPublishOnlySongs(fs: Fs, id: string, mirror: Path, published: Path, files: seq<Path>, importer: Importer)
    requires WellFormed(fs) && published != [] && Name(published) != id + ".tmp"
    requires FullPublication(fs, id, mirror, published, files, importer).Done?
    requires FullPublication(fs, id, mirror, published, files, importer).value.result.errors == []
    ensures var fs' := FullPublication(fs, id, mirror, published, files, importer).value.fs;
      forall q | q in fs' && published < q && fs'[q].File? ::
        exists i | 0 <= i < |files| :: mirror <= files[i] && q == Dest(mirror, published, files[i])
  {
    var tmp := TmpDir(id, published);
    var fs2 := Prepare(fs, tmp).value;
    var w := WriteAll(fs2, mirror, tmp, files, importer).value;
    var fs' := FullPublication(fs, id, mirror, published, files, importer).value.fs;
    SiblingsApart(published, id);
    PrepareFacts(fs, tmp);
    WriteAllOnlyDests(fs2, mirror, tmp, files, importer);
    SwapMoves(w.fs, tmp, published);
    assert fs' == Swap(w.fs, tmp, published).value;
    MovedFilesAreDests(fs2, w.fs, fs', tmp, published, mirror, files);
  }

  /** The files of the published tree after the swap came from the temporary
      tree, where every file not already there was written from a mirror file. */
  lemma MovedFilesAreDests(before: Fs, written: Fs, after: Fs, tmp: Path, published: Path, mirror: Path, files: seq<Path>)
    requires forall q | q in before :: !(tmp < q)
    requires forall q | q in written && written[q].File? && !(q in before && before[q] == written[q]) ::
      exists i | 0 <= i < |files| :: mirror <= files[i] && q == Dest(mirror, tmp, files[i])
    requires forall q | q in after && published <= q :: tmp + q[|published|..] in written && after[q] == written[tmp + q[|published|..]]
    ensures forall q | q in after && published < q && after[q].File? ::
      exists i | 0 <= i < |files| :: mirror <= files[i] && q == Dest(mirror, published, files[i])
  {
    forall q | q in after && published < q && after[q].File?
      ensures exists i | 0 <= i < |files| :: mirror <= files[i] && q == Dest(mirror, published, files[i])
    {
      var rel := q[|published|..];
      assert tmp < tmp + rel;
      var i :| 0 <= i < |files| && mirror <= files[i] && tmp + rel == Dest(mirror, tmp, files[i]);
      assert rel == files[i][|mirror|..] by {
        assert rel == (tmp + rel)[|tmp|..];
      }
      assert q == published + rel;
    }
  }

  /** A full publish, whether or not it swaps the trees, changes nothing apart
      from the published and the temporary directories. */
  lemma FullPublishKeepsOthers(fs: Fs, id: string, mirror: Path, published: Path, files: seq<Path>, importer: Importer)
    requires published != [] && Name(published) != id + ".tmp"
    requires FullPublication(fs, id, mirror, published, files, importer).Done?
    ensures var fs' := FullPublication(fs, id, mirror, published, files, importer).value.fs;
      forall q | Apart(q, published) && Apart(q, TmpDir(id, published)) :: SameAt(fs, fs', q)
  {
    var tmp := TmpDir(id, published);
    var fs2 := Prepare(fs, tmp).value;
    var w := WriteAll(fs2, mirror, tmp, files, importer).value;
    SiblingsApart(published, id);
    PrepareFacts(fs, tmp);
    WriteAllKeepsOutside(fs2, mirror, tmp, files, importer);
    WriteAllAddsBelow(fs2, mirror, tmp, files, importer);
    if w.result.errors == [] {
      SwapKeeps(w.fs, tmp, published);
    }
  }

  /** A successful full publish leaves no temporary directory behind. */
  lemma SuccessfulFullPublishRemovesTmp(fs: Fs, id: string, mirror: Path, published: Path, files: seq<Path>, importer: Importer)
    requires published != [] && Name(published) != id + ".tmp"
    requires FullPublication(fs, id, mirror, published, files, importer).Done?
    requires FullPublication(fs, id, mirror, published, files, importer).value.result.errors == []
    ensures TmpDir(id, published) !in FullPublication(fs, id, mirror, published, files, importer).value.fs
  {
    var tmp := TmpDir(id, published);
    var fs2 := Prepare(fs, tmp).value;
    var w := WriteAll(fs2, mirror, tmp, files, importer).value;
    SiblingsApart(published, id);
    SwapKeeps(w.fs, tmp, published);
  }

  // ---------- the incremental publish ----------

  /** `_prune_empty_dirs(start, stop)`: walking up from `cur` while it is strictly
      below `stop`, each empty directory is removed; the walk stops at the first
      directory that still has entries. Listing a path that is not a directory
      raises. */
  function Pruned(fs: Fs, cur: Path, stop: Path): (r: Attempt<Fs>)
    ensures r.Done? ==> forall q | q in r.value :: q in fs && r.value[q] == fs[q]
    ensures r.Done? ==> forall q | q in fs && q !in r.value :: stop < q && q <= cur && fs[q] == Dir
    decreases |cur|
  {
    if !(stop < cur) then Done(fs)
    else if !IsDir(fs, cur) then Raised(fs, NotADirectory(fs, cur))
    else if HasChildren(fs, cur) then Done(fs)
    else
      // an empty directory other than the root: `rmdir` succeeds
      assert RmDir(fs, cur) == Ok(fs - {cur});
      assert Parent(cur) <= cur;
      Pruned(fs - {cur}, Parent(cur), stop)
  }

  /** Pruning that raises part way has still only removed empty directories
      strictly below `stop`, on the way up from `cur`. */
  lemma {:induction false} PrunedRaisedShrinks(fs: Fs, cur: Path, stop: Path)
    requires Pruned(fs, cur, stop).Raised?
    ensures var fs' := Pruned(fs, cur, stop).fs;
      && (forall q | q in fs' :: q in fs && fs'[q] == fs[q])
      && (forall q | q in fs && q !in fs' :: stop < q && q <= cur && fs[q] == Dir)
    decreases |cur|
  {
    if stop < cur && IsDir(fs, cur) && !HasChildren(fs, cur) {
      PrunedRaisedShrinks(fs - {cur}, Parent(cur), stop);
      assert Parent(cur) <= cur;
    }
  }

  /** Pruning keeps a tree a tree. */
  lemma {:induction false} PrunedWellFormed(fs: Fs, cur: Path, stop: Path)
    requires WellFormed(fs) && Pruned(fs, cur, stop).Done?
    ensures WellFormed(Pruned(fs, cur, stop).value)
    decreases |cur|
  {
    if stop < cur && IsDir(fs, cur) && !HasChildren(fs, cur) {
      RmDirWellFormed(fs, cur);
      PrunedWellFormed(RmDir(fs, cur).value, Parent(cur), stop);
    }
  }

  /** `_prune_empty_dirs(start, stop)`, the loop itself. */
  method PruneEmptyDirs(fs: Fs, start: Path, stop: Path) returns (r: Attempt<Fs>)
    ensures r == Pruned(fs, start, stop)
  {
    var cur := start;
    var cfs := fs;
    while cur != stop && stop < cur
      invariant Pruned(cfs, cur, stop) == Pruned(fs, start, stop)
      decreases |cur|
    {
      if !IsDir(cfs, cur) {
        return Raised(cfs, NotADirectory(cfs, cur));
      }
      if HasChildren(cfs, cur) {
        break;
      }
      cfs := cfs - {cur};
      cur := Parent(cur);
    }
    return Done(cfs);
  }

  /** The deletion loop of `publish_incremental`: each deleted mirror file's
      published copy, if it exists, is unlinked, counted and its emptied
      directories pruned up to the published directory. A file outside the
      mirror, or a published entry that cannot be unlinked, raises. */
  function DeleteAll(start: Outcome, mirror: Path, published: Path, deleted: seq<Path>): Attempt<Outcome>
  {
    if deleted == [] then Done(start)
    else
      var n := |deleted| - 1;
      var prev :- DeleteAll(start, mirror, published, deleted[..n]);
      DeleteOne(prev, mirror, published, deleted[n])
  }

  /** One turn of the delete loop: a published copy that exists is unlinked and
      the directories it leaves empty are pruned. */
  function DeleteOne(prev: Outcome, mirror: Path, published: Path, f: Path): Attempt<Outcome> {
    var rel :- Lift(RelativeTo(f, mirror), prev.fs);
    Unpublished(prev, published + rel, published)
  }

  /** The published copy at `dest`, when there is one, is unlinked and the
      directories it leaves empty up to `published` are pruned. */
  function Unpublished(prev: Outcome, dest: Path, published: Path): Attempt<Outcome> {
    if !Exists(prev.fs, dest) then Done(prev)
    else
      var fs1 :- Lift(Unlink(prev.fs, dest), prev.fs);
      var fs2 :- Pruned(fs1, Parent(dest), published);
      Done(Outcome(prev.result.(filesDeleted := prev.result.filesDeleted + 1), fs2))
  }

  /** One more deleted file: the loop so far did not raise, and either the
      published copy was absent and nothing changed, or it was a file that is now
      unlinked and counted. */
  lemma DeleteAllStep(start: Outcome, mirror: Path, published: Path, deleted: seq<Path>)
    requires deleted != [] && DeleteAll(start, mirror, published, deleted).Done?
    ensures var n := |deleted| - 1;
      var prev := DeleteAll(start, mirror, published, deleted[..n]);
      var r := DeleteAll(start, mirror, published, deleted).value;
      var dest := Dest(mirror, published, deleted[n]);
      && prev.Done? && mirror <= deleted[n]
      && r.result.filesWritten == prev.value.result.filesWritten
      && r.result.errors == prev.value.result.errors
      && (dest !in prev.value.fs ==> r == prev.value)
      && (dest in prev.value.fs ==>
            && IsFile(prev.value.fs, dest)
            && r.result.filesDeleted == prev.value.result.filesDeleted + 1
            && r.fs == Pruned(prev.value.fs - {dest}, Parent(dest), published).value)
  {
  }

  /** The file system a publish leaves, whether it returned or raised. */
  function Left(a: Attempt<Outcome>): Fs {
    if a.Done? then a.value.fs else a.fs
  }

  /** The deletion loop only removes entries, whether it returns or raises part
      way: the published copies of deleted files, and directories strictly below
      the published directory. */
  lemma {:induction false} DeleteAllShrinks(start: Outcome, mirror: Path, published: Path, deleted: seq<Path>)
    ensures var fs' := Left(DeleteAll(start, mirror, published, deleted));
      && (forall q | q in fs' :: q in start.fs && fs'[q] == start.fs[q])
      && (forall q | q in start.fs && q !in fs' ::
            (published < q && start.fs[q] == Dir)
            || exists i | 0 <= i < |deleted| :: mirror <= deleted[i] && q == Dest(mirror, published, deleted[i]))
  {
    if deleted != [] {
      var n := |deleted| - 1;
      var pre := deleted[..n];
      assert deleted == pre + [deleted[n]];
      DeleteAllShrinks(start, mirror, published, pre);
      var prev := DeleteAll(start, mirror, published, pre);
      if prev.Done? && mirror <= deleted[n] {
        var dest := Dest(mirror, published, deleted[n]);
        assert deleted[n][|mirror|..] == RelativeTo(deleted[n], mirror).value;
        if Exists(prev.value.fs, dest) && IsFile(prev.value.fs, dest) {
          var pruned := Pruned(prev.value.fs - {dest}, Parent(dest), published);
          if pruned.Raised? {
            PrunedRaisedShrinks(prev.value.fs - {dest}, Parent(dest), published);
            assert DeleteAll(start, mirror, published, deleted) == Raised(pruned.fs, pruned.error);
          }
        }
      }
    }
  }

  /** After the deletion loop, no deleted file has a published copy. */
  lemma {:induction false} DeleteAllRemoves(start: Outcome, mirror: Path, published: Path, deleted: seq<Path>)
    requires DeleteAll(start, mirror, published, deleted).Done?
    ensures var r := DeleteAll(start, mirror, published, deleted).value;
      forall i | 0 <= i < |deleted| :: mirror <= deleted[i] && Dest(mirror, published, deleted[i]) !in r.fs
  {
    if deleted != [] {
      var n := |deleted| - 1;
      var pre := deleted[..n];
      assert deleted == pre + [deleted[n]];
      DeleteAllStep(start, mirror, published, deleted);
      DeleteAllRemoves(start, mirror, published, pre);
    }
  }

  /** The deletion loop counts at most one deletion per deleted file and changes
      no other counter. */
  lemma {:induction false} DeleteAllCounts(start: Outcome, mirror: Path, published: Path, deleted: seq<Path>)
    requires DeleteAll(start, mirror, published, deleted).Done?
    ensures var r := DeleteAll(start, mirror, published, deleted).value.result;
      && r.filesWritten == start.result.filesWritten && r.errors == start.result.errors
      && start.result.filesDeleted <= r.filesDeleted <= start.result.filesDeleted + |deleted|
  {
    if deleted != [] {
      DeleteAllStep(start, mirror, published, deleted);
      DeleteAllCounts(start, mirror, published, deleted[..|deleted| - 1]);
    }
  }

  /** When no deleted file has a published copy, the deletion loop changes nothing. */
  lemma {:induction false} DeleteAllAbsent(start: Outcome, mirror: Path, published: Path, deleted: seq<Path>)
    requires published != []
    requires forall i | 0 <= i < |deleted| :: mirror <= deleted[i] && Dest(mirror, published, deleted[i]) !in start.fs
    ensures DeleteAll(start, mirror, published, deleted) == Done(start)
  {
    if deleted != [] {
      var n := |deleted| - 1;
      var pre := deleted[..n];
      assert deleted == pre + [deleted[n]];
      DeleteAllAbsent(start, mirror, published, pre);
    }
  }

  /** `publish_incremental(mirror_dir, published_dir, changed, deleted)`: the
      changed files are written in place, then the deleted ones removed. Unlike
      the full publish, a failed write does not stop the deletions. */
  function IncrementalPublication(fs: Fs, mirror: Path, published: Path, changed: seq<Path>, deleted: seq<Path>, importer: Importer): Attempt<Outcome> {
    var w :- WriteAll(fs, mirror, published, changed, importer);
    DeleteAll(w, mirror, published, deleted)
  }

  /** Every changed file counts once, as written or as an error, and each deleted
      file at most once. */
  lemma IncrementalCounts(fs: Fs, mirror: Path, published: Path, changed: seq<Path>, deleted: seq<Path>, importer: Importer)
    requires IncrementalPublication(fs, mirror, published, changed, deleted, importer).Done?
    ensures var r := IncrementalPublication(fs, mirror, published, changed, deleted, importer).value.result;
      r.filesWritten + |r.errors| == |changed| && r.filesDeleted <= |deleted|
  {
    var w := WriteAll(fs, mirror, published, changed, importer).value;
    WriteAllCounts(fs, mirror, published, changed, importer);
    DeleteAllCounts(w, mirror, published, deleted);
  }

  /** Deleted files lose their published copy, even when some write failed. */
  lemma IncrementalRemovesDeleted(fs: Fs, mirror: Path, published: Path, changed: seq<Path>, deleted: seq<Path>, importer: Importer)
    requires IncrementalPublication(fs, mirror, published, changed, deleted, importer).Done?
    ensures var fs' := IncrementalPublication(fs, mirror, published, changed, deleted, importer).value.fs;
      forall i | 0 <= i < |deleted| :: mirror <= deleted[i] && Dest(mirror, published, deleted[i]) !in fs'
  {
    var w := WriteAll(fs, mirror, published, changed, importer).value;
    DeleteAllRemoves(w, mirror, published, deleted);
  }

  /** When no write failed, every changed file that was not also deleted is
      published with its normalised text, whether the deletions then return or
      raise part way. */
  lemma IncrementalWritesChanged(fs: Fs, mirror: Path, published: Path, changed: seq<Path>, deleted: seq<Path>, importer: Importer)
    requires Apart(mirror, published)
    requires forall i, j | 0 <= i < j < |changed| :: changed[i] != changed[j]
    requires WriteAll(fs, mirror, published, changed, importer).Done?
    requires WriteAll(fs, mirror, published, changed, importer).value.result.errors == []
    ensures var fs' := Left(IncrementalPublication(fs, mirror, published, changed, deleted, importer));
      forall i | 0 <= i < |changed| && changed[i] !in deleted ::
        && mirror <= changed[i] && NormalizedText(fs, changed[i], importer).Ok?
        && Dest(mirror, published, changed[i]) in fs'
        && fs'[Dest(mirror, published, changed[i])] == File(NormalizedText(fs, changed[i], importer).value)
  {
    var w := WriteAll(fs, mirror, published, changed, importer).value;
    assert IncrementalPublication(fs, mirror, published, changed, deleted, importer) == DeleteAll(w, mirror, published, deleted);
    WriteAllWritesEach(fs, mirror, published, changed, importer);
    DeleteAllShrinks(w, mirror, published, deleted);
    var fs' := Left(IncrementalPublication(fs, mirror, published, changed, deleted, importer));
    forall i | 0 <= i < |changed| && changed[i] !in deleted
      ensures Dest(mirror, published, changed[i]) in fs'
    {
      var dest := Dest(mirror, published, changed[i]);
      if dest !in fs' {
        if j :| 0 <= j < |deleted| && mirror <= deleted[j] && dest == Dest(mirror, published, deleted[j]) {
          DestInjective(mirror, published, changed[i], deleted[j]);
        }
      }
    }
  }

  // ---------- the loops ----------

  lemma WriteAllErrStep(fs: Fs, mirror: Path, root: Path, files: seq<Path>, importer: Importer)
    requires files != [] && WriteAll(fs, mirror, root, files[..|files| - 1], importer).Raised?
    ensures WriteAll(fs, mirror, root, files, importer) == WriteAll(fs, mirror, root, files[..|files| - 1], importer)
  {
  }

  lemma DeleteAllErrStep(start: Outcome, mirror: Path, published: Path, deleted: seq<Path>)
    requires deleted != [] && DeleteAll(start, mirror, published, deleted[..|deleted| - 1]).Raised?
    ensures DeleteAll(start, mirror, published, deleted) == DeleteAll(start, mirror, published, deleted[..|deleted| - 1])
  {
  }

  /** Once the write loop has raised on a prefix of the files, it raises with the
      same error on all of them. */
  lemma {:induction false} WriteAllErrPersists(fs: Fs, mirror: Path, root: Path, files: seq<Path>, importer: Importer, pre: seq<Path>)
    requires pre <= files && WriteAll(fs, mirror, root, pre, importer).Raised?
    ensures WriteAll(fs, mirror, root, files, importer) == WriteAll(fs, mirror, root, pre, importer)
    decreases |files|
  {
    if pre != files {
      var n := |files| - 1;
      var e := WriteAll(fs, mirror, root, pre, importer);
      assert WriteAll(fs, mirror, root, files[..n], importer) == e by {
        assert pre <= files[..n];
        WriteAllErrPersists(fs, mirror, root, files[..n], importer, pre);
      }
      WriteAllErrStep(fs, mirror, root, files, importer);
    }
  }

  /** The write loop shared by `publish_full` and `publish_incremental`. */
  method WriteFiles(fs: Fs, mirror: Path, root: Path, files: seq<Path>, importer: Importer) returns (r: Attempt<Outcome>)
    ensures r == WriteAll(fs, mirror, root, files, importer)
  {
    var cur := Outcome(EmptyResult, fs);
    var i := 0;
    while i < |files|
      invariant 0 <= i <= |files|
      invariant WriteAll(fs, mirror, root, files[..i], importer) == Done(cur)
    {
      WriteAllSnoc(fs, mirror, root, files, importer, i);
      var next := WriteFile(cur, mirror, root, files[i], importer);
      if next.Raised? {
        WriteAllErrPersists(fs, mirror, root, files, importer, files[..i + 1]);
        return next;
      }
      cur := next.value;
      i := i + 1;
    }
    assert files[..i] == files;
    return Done(cur);
  }

  /** One more file extends the write loop by one turn. */
  lemma WriteAllSnoc(fs: Fs, mirror: Path, root: Path, files: seq<Path>, importer: Importer, i: nat)
    requires i < |files| && WriteAll(fs, mirror, root, files[..i], importer).Done?
    ensures WriteAll(fs, mirror, root, files[..i + 1], importer)
      == WriteOne(WriteAll(fs, mirror, root, files[..i], importer).value, mirror, root, files[i], importer)
  {
    assert files[..i + 1][..i] == files[..i];
  }

  /** The body of the write loop for one file. */
  method WriteFile(cur: Outcome, mirror: Path, root: Path, f: Path, importer: Importer) returns (r: Attempt<Outcome>)
    ensures r == WriteOne(cur, mirror, root, f, importer)
  {
    var rel := RelativeTo(f, mirror);
    if rel.Err? {
      return Raised(cur.fs, rel.error);
    }
    var w := WriteNormalized(cur.fs, f, root + rel.value, importer);
    assert WriteOne(cur, mirror, root, f, importer) == Done(Recorded(cur.result, rel.value, w));
    var result := cur.result;
    if w.error.None? {
      result := result.(filesWritten := result.filesWritten + 1);
    } else {
      result := result.(errors := result.errors + [ErrorLine(rel.value, w.error.value)]);
    }
    return Done(Outcome(result, w.fs));
  }

  /** `publish_full(source_id, mirror_dir, published_dir, files)`. */
  method PublishFull(fs: Fs, id: string, mirror: Path, published: Path, files: seq<Path>, importer: Importer) returns (r: Attempt<Outcome>)
    ensures r == FullPublication(fs, id, mirror, published, files, importer)
  {
    var tmp := TmpDir(id, published);
    var cfs := fs;
    if Exists(cfs, tmp) {
      var removed := RmTree(cfs, tmp);
      if removed.Err? {
        return Raised(cfs, removed.error);
      }
      cfs := removed.value;
    }
    var made := Mkdirs(cfs, tmp);
    if made.Err? {
      return Raised(cfs, made.error);
    }
    var w := WriteFiles(made.value, mirror, tmp, files, importer);
    if w.Raised? || w.value.result.errors != [] {
      return w;
    }
    cfs := w.value.fs;
    if Exists(cfs, published) {
      var removed := RmTree(cfs, published);
      if removed.Err? {
        return Raised(cfs, removed.error);
      }
      cfs := removed.value;
    }
    var moved := Rename(cfs, tmp, published);
    if moved.Err? {
      return Raised(cfs, moved.error);
    }
    return Done(Outcome(w.value.result, moved.value));
  }

  /** Once the deletion loop has raised on a prefix of the files, it raises with
      the same error on all of them. */
  lemma {:induction false} DeleteAllErrPersists(start: Outcome, mirror: Path, published: Path, deleted: seq<Path>, pre: seq<Path>)
    requires pre <= deleted && DeleteAll(start, mirror, published, pre).Raised?
    ensures DeleteAll(start, mirror, published, deleted) == DeleteAll(start, mirror, published, pre)
    decreases |deleted|
  {
    if pre != deleted {
      var n := |deleted| - 1;
      assert pre <= deleted[..n];
      DeleteAllErrPersists(start, mirror, published, deleted[..n], pre);
      DeleteAllErrStep(start, mirror, published, deleted);
    }
  }

  /** The deletion loop of `publish_incremental`. */
  method DeleteFiles(start: Outcome, mirror: Path, published: Path, deleted: seq<Path>) returns (r: Attempt<Outcome>)
    ensures r == DeleteAll(start, mirror, published, deleted)
  {
    var cur := start;
    var i := 0;
    while i < |deleted|
      invariant 0 <= i <= |deleted|
      invariant DeleteAll(start, mirror, published, deleted[..i]) == Done(cur)
    {
      DeleteAllSnoc(start, mirror, published, deleted, i);
      var next := DeleteFile(cur, mirror, published, deleted[i]);
      if next.Raised? {
        DeleteAllErrPersists(start, mirror, published, deleted, deleted[..i + 1]);
        return next;
      }
      cur := next.value;
      i := i + 1;
    }
    assert deleted[..i] == deleted;
    return Done(cur);
  }

  /** One more deletion extends the delete loop by one turn. */
  lemma DeleteAllSnoc(start: Outcome, mirror: Path, published: Path, deleted: seq<Path>, i: nat)
    requires i < |deleted| && DeleteAll(start, mirror, published, deleted[..i]).Done?
    ensures DeleteAll(start, mirror, published, deleted[..i + 1])
      == DeleteOne(DeleteAll(start, mirror, published, deleted[..i]).value, mirror, published, deleted[i])
  {
    assert deleted[..i + 1][..i] == deleted[..i];
  }

  /** The body of the delete loop for one file. */
  method DeleteFile(cur: Outcome, mirror: Path, published: Path, f: Path) returns (r: Attempt<Outcome>)
    ensures r == DeleteOne(cur, mirror, published, f)
  {
    var rel := RelativeTo(f, mirror);
    if rel.Err? {
      return Raised(cur.fs, rel.error);
    }
    r := Unpublish(cur, published + rel.value, published);
  }

  /** Removes the published copy at `dest` and prunes what it leaves empty. */
  method Unpublish(cur: Outcome, dest: Path, published: Path) returns (r: Attempt<Outcome>)
    ensures r == Unpublished(cur, dest, published)
  {
    if !Exists(cur.fs, dest) {
      return Done(cur);
    }
    r := UnlinkAndPrune(cur, dest, published);
  }

  /** `Unpublished` on an existing copy that unlinks: the pruning decides. */
  lemma UnpublishedAfterUnlink(cur: Outcome, dest: Path, published: Path, fs1: Fs)
    requires Exists(cur.fs, dest) && Unlink(cur.fs, dest) == Ok(fs1)
    ensures var p := Pruned(fs1, Parent(dest), published);
      Unpublished(cur, dest, published)
        == if p.Raised? then Raised(p.fs, p.error)
           else Done(Outcome(cur.result.(filesDeleted := cur.result.filesDeleted + 1), p.value))
  {
    assert Lift(Unlink(cur.fs, dest), cur.fs) == Done(fs1);
  }

  /** The existing published copy at `dest` is unlinked, then the directories it
      leaves empty are pruned. */
  method UnlinkAndPrune(cur: Outcome, dest: Path, published: Path) returns (r: Attempt<Outcome>)
    requires Exists(cur.fs, dest)
    ensures r == Unpublished(cur, dest, published)
  {
    var unlinked := Unlink(cur.fs, dest);
    if unlinked.Err? {
      assert Lift(unlinked, cur.fs).Raised?;
      return Raised(cur.fs, unlinked.error);
    }
    var pruned := PruneEmptyDirs(unlinked.value, Parent(dest), published);
    UnpublishedAfterUnlink(cur, dest, published, unlinked.value);
    if pruned.Raised? {
      return Raised(pruned.fs, pruned.error);
    }
    r := Done(Outcome(cur.result.(filesDeleted := cur.result.filesDeleted + 1), pruned.value));
  }

  /** `publish_incremental(mirror_dir, published_dir, changed, deleted)`. */
  method PublishIncremental(fs: Fs, mirror: Path, published: Path, changed: seq<Path>, deleted: seq<Path>, importer: Importer) returns (r: Attempt<Outcome>)
    ensures r == IncrementalPublication(fs, mirror, published, changed, deleted, importer)
  {
    var w := WriteFiles(fs, mirror, published, changed, importer);
    if w.Raised? {
      return w;
    }
    r := DeleteFiles(w.value, mirror, published, deleted);
  }

  // ---------- the publish manifest ----------

  /** The record `write_publish_manifest` stores as JSON. */
  datatype Manifest = Manifest(sourceId: string, headCommit: string, filesWritten: int)

  const ManifestName := "publish_manifest.json"

  /** `write_publish_manifest(source_id, published_dir, head_commit, files_written)`:
      the record, encoded by `encode` (`json.dumps` with an indent of two), is
      written at `publish_manifest.json` in the published directory. */
  function WritePublishManifest(fs: Fs, published: Path, m: Manifest, encode: Manifest -> string): (r: Result<Fs>)
    ensures r.Ok? <==> IsDir(fs, published) && !IsDir(fs, published + [ManifestName])
    ensures r.Ok? ==> r.value == fs[published + [ManifestName] := File(encode(m))]
  {
    assert Parent(published + [ManifestName]) == published;
    WriteText(fs, published + [ManifestName], encode(m))
  }

  /** The manifest's suffix is `.json`, which is not a song extension. */
  lemma ManifestIsNotASong(published: Path)
    ensures !IsSupportedSongPath(published + [ManifestName])
  {
    assert Name(published + [ManifestName]) == ManifestName;
    assert LastDot(ManifestName) == Some(16);
    assert |Lower(Suffix(ManifestName))| == 5;
    assert forall e | e in SupportedExts :: |e| != 5;
  }

  /** So scanning a published tree as a mirror never picks the manifest up. */
  lemma ManifestNeverScanned(fs: Fs, published: Path, includes: seq<string>, excludes: seq<string>)
    ensures published + [ManifestName] !in ScanSet(fs, published, includes, excludes)
  {
    ManifestIsNotASong(published);
  }
}
