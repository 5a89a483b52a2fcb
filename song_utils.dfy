/** The helpers the editor uses to place a song file (app/ui_song_utils.py):
    whether a path lies under a directory, the published library root that
    holds a path, and a file name in the songs folder that nothing uses yet.
    Paths are taken as already resolved; the file system is a parameter. */
module SongUtils {
  import opened Wrappers
  import opened Strings
  import opened Paths
  import opened FileSystem
  import opened Importers

  // ---------- is_under_dir ----------

  /** `is_under_dir(path, root)`: `path.relative_to(root)` does not raise. */
  function IsUnderDir(path: Path, root: Path): (r: bool)
    ensures r <==> root <= path
  {
    RelativeTo(path, root).Ok?
  }

  /** A directory holds itself, what lies under what it holds, and the
      relative path it gives leads back to `path`. */
  lemma IsUnderDirSpec(path: Path, mid: Path, root: Path)
    ensures IsUnderDir(root, root)
    ensures IsUnderDir(path, mid) && IsUnderDir(mid, root) ==> IsUnderDir(path, root)
    ensures IsUnderDir(path, root) ==> root + RelativeTo(path, root).value == path
  {
  }

  // ---------- library_published_root_for ----------

  /** The position of the first of `dirs` from `from` on that holds `path`,
      if any. */
  function FirstHolding(path: Path, dirs: seq<Path>, from: nat): (r: Option<nat>)
    requires from <= |dirs|
    ensures r.None? <==> forall k :: from <= k < |dirs| ==> !IsUnderDir(path, dirs[k])
    ensures r.Some? ==> from <= r.value < |dirs| && IsUnderDir(path, dirs[r.value])
    ensures r.Some? ==> forall k :: from <= k < r.value ==> !IsUnderDir(path, dirs[k])
    decreases |dirs| - from
  {
    if from == |dirs| then None
    else if IsUnderDir(path, dirs[from]) then Some(from)
    else FirstHolding(path, dirs, from + 1)
  }

  /** `library_published_root_for(path, published_dirs)`, a missing list
      being empty: the first published root that holds `path`. */
  method LibraryPublishedRootFor(path: Path, publishedDirs: seq<Path>) returns (r: Option<Path>)
    ensures FirstHolding(path, publishedDirs, 0).None? ==> r.None?
    ensures FirstHolding(path, publishedDirs, 0).Some? ==> r == Some(publishedDirs[FirstHolding(path, publishedDirs, 0).value])
  {
    var i := 0;
    while i < |publishedDirs|
      invariant 0 <= i <= |publishedDirs|
      invariant FirstHolding(path, publishedDirs, i) == FirstHolding(path, publishedDirs, 0)
    {
      if IsUnderDir(path, publishedDirs[i]) {
        return Some(publishedDirs[i]);
      }
      i := i + 1;
    }
    return None;
  }

  // ---------- make_unique_local_name ----------

  /** The numbers `make_unique_local_name` tries are `1..MaxCopies - 1`. */
  const MaxCopies := 10000

  const UniqueNameError := "RuntimeError: Could not generate a unique filename for local copy"

  /** `Path(preferred_name).name`. */
  function PreferredName(preferredName: string): string {
    Name(Segments(preferredName))
  }

  /** `Path(preferred).stem`: the name without its last suffix. */
  function LocalStem(preferredName: string): string {
    Stem(PreferredName(preferredName))
  }

  /** `"".join(Path(preferred).suffixes)`: all of the name's suffixes. */
  function LocalExt(preferredName: string): string {
    AllSuffixes(PreferredName(preferredName))
  }

  /** `i` is the first number whose `stem (i)ext` is free, every smaller one
      from 1 on being taken. */
  predicate FirstFreeCopy(fs: Fs, dir: Path, stem: string, ext: string, i: int) {
    1 <= i < MaxCopies
    && !NumberTaken(fs, dir, stem, ext, i)
    && forall j | 1 <= j < i :: NumberTaken(fs, dir, stem, ext, j)
  }

  /** The name `make_unique_local_name(songs_dir, preferred_name)` returns, or
      the error it raises: `stem + ext` when that is free, otherwise the first
      free `stem (i)ext`, and an error when all 9999 of those are taken. */
  function UniqueLocalName(fs: Fs, dir: Path, preferredName: string): (r: Result<string>)
    ensures var stem, ext := LocalStem(preferredName), LocalExt(preferredName);
      (!Taken(fs, dir, stem + ext) ==> r == Ok(Name(Child(dir, stem + ext))))
      && (Taken(fs, dir, stem + ext) ==>
            (r.Err? <==> forall j | 1 <= j < MaxCopies :: NumberTaken(fs, dir, stem, ext, j)))
      && (Taken(fs, dir, stem + ext) && r.Ok? ==>
            exists i :: FirstFreeCopy(fs, dir, stem, ext, i) && r.value == Name(Child(dir, NumberedName(stem, i, ext))))
      && (r.Err? ==> r.error == UniqueNameError)
  {
    var stem, ext := LocalStem(preferredName), LocalExt(preferredName);
    if !Taken(fs, dir, stem + ext) then Ok(Name(Child(dir, stem + ext)))
    else
      var i := FirstFreeNumber(fs, dir, stem, ext, 1, MaxCopies);
      if i < MaxCopies then
        assert FirstFreeCopy(fs, dir, stem, ext, i);
        Ok(Name(Child(dir, NumberedName(stem, i, ext))))
      else Err(UniqueNameError)
  }

  /** `make_unique_local_name(songs_dir, preferred_name)`. */
  method MakeUniqueLocalName(fs: Fs, songsDir: Path, preferredName: string) returns (r: Result<string>)
    ensures r == UniqueLocalName(fs, songsDir, preferredName)
  {
    var preferred := Name(Segments(preferredName));
    var stem := Stem(preferred);
    var ext := AllSuffixes(preferred);
    var cand := Child(songsDir, stem + ext);
    if !Exists(fs, cand) {
      return Ok(Name(cand));
    }
    var i := 1;
    while i < MaxCopies
      invariant 1 <= i <= MaxCopies
      invariant FirstFreeNumber(fs, songsDir, stem, ext, i, MaxCopies) == FirstFreeNumber(fs, songsDir, stem, ext, 1, MaxCopies)
    {
      cand := Child(songsDir, NumberedName(stem, i, ext));
      if !Exists(fs, cand) {
        return Ok(Name(cand));
      }
      i := i + 1;
    }
    return Err(UniqueNameError);
  }

  /** A plain file name is its own `name` under any directory. */
  lemma ChildName(dir: Path, n: string)
    requires ValidSegment(n)
    ensures Child(dir, n) == dir + [n] && Name(Child(dir, n)) == n
  {
    assert IndexOfChar(n, '/') == None;
    assert SplitOn(n, '/') == [n];
  }

  /** A numbered name built from pieces without `/` is a plain file name. */
  lemma NumberedNameValid(stem: string, ext: string, i: nat)
    requires '/' !in stem + ext
    ensures ValidSegment(NumberedName(stem, i, ext))
  {
    var digits := IntToString(i);
    assert '/' !in digits by {
      DigitsHaveNoSlash(i);
    }
    var mid := " (" + digits + ")";
    assert '/' !in mid && mid[1] == '(';
    var n := stem + mid + ext;
    assert n == NumberedName(stem, i, ext);
    assert n[|stem| + 1] == '(';
  }

  lemma DigitsHaveNoSlash(i: nat)
    ensures '/' !in IntToString(i)
  {
    var digits := NatToString(i);
    assert forall k :: 0 <= k < |digits| ==> digits[k] != '/';
  }

  /** When the preferred name makes a plain file name, the name returned is
      a plain file name that nothing in the songs folder uses. */
  lemma UniqueNameIsFree(fs: Fs, dir: Path, preferredName: string, name: string)
    requires UniqueLocalName(fs, dir, preferredName) == Ok(name)
    requires ValidSegment(LocalStem(preferredName) + LocalExt(preferredName))
    ensures ValidSegment(name) && !Taken(fs, dir, name)
  {
    var stem, ext := LocalStem(preferredName), LocalExt(preferredName);
    if !Taken(fs, dir, stem + ext) {
      assert name == Name(Child(dir, stem + ext));
      ChildName(dir, stem + ext);
    } else {
      var i :| FirstFreeCopy(fs, dir, stem, ext, i) && name == Name(Child(dir, NumberedName(stem, i, ext)));
      NumberedNameValid(stem, ext, i);
      ChildName(dir, NumberedName(stem, i, ext));
    }
  }

  /** The last dot of a name is the one after which no dot follows. */
  lemma LastDotAt(name: string, i: nat)
    requires i < |name| && name[i] == '.' && '.' !in name[i + 1..]
    ensures LastDot(name) == Some(i)
  {
    assert name[i] in name;
    var j := LastDot(name).value;
    forall k | j < k < |name|
      ensures name[k] != '.'
    {
      assert name[k] == name[j + 1..][k - j - 1];
    }
    forall k | i < k < |name|
      ensures name[k] != '.'
    {
      assert name[k] == name[i + 1..][k - i - 1];
    }
  }

  lemma Assoc(w: string, x: string, y: string)
    ensures w + (x + y) == w + x + y
  {
  }

  /** `a.b.c` splits at its dots into `a`, `b` and `c`. */
  lemma SplitThree(a: string, b: string, c: string)
    requires '.' !in a && '.' !in b && '.' !in c
    ensures SplitOn(a + "." + b + "." + c, '.') == [a, b, c]
  {
    var u := a + ".";
    assert u + (b + "." + c) == a + "." + b + "." + c by {
      Assoc(u, b + ".", c);
      Assoc(u, b, ".");
    }
    assert SplitOn(b + "." + c, '.') == [b, c] by {
      SplitOnPieces(b, c, '.');
      SplitOnNone(c, '.');
    }
    SplitOnPieces(a, b + "." + c, '.');
  }

  /** The suffixes of `a.b.c` are `.b` and `.c`. */
  lemma AllSuffixesThree(a: string, b: string, c: string)
    requires a != "" && c != ""
    requires '.' !in a && '.' !in b && '.' !in c
    ensures AllSuffixes(a + "." + b + "." + c) == "." + b + "." + c
  {
    var p := a + "." + b + "." + c;
    assert p[|p| - 1] == c[|c| - 1];
    assert LStripChars(p, {'.'}) == p by {
      assert p[0] == a[0];
    }
    var parts := SplitOn(p, '.');
    assert parts == [a, b, c] by {
      SplitThree(a, b, c);
    }
    assert parts[1..] == [b, c];
    var dotted := DotEach([b, c]);
    assert dotted == ["." + b, "." + c];
    assert Join("", dotted) == "." + b + "" + Join("", dotted[1..]);
    assert Join("", dotted[1..]) == "." + c;
    assert "." + b + "" + ("." + c) == "." + b + "." + c;
  }

  lemma ConcatFive(w: string, x: string, y: string, z: string, v: string)
    ensures w + (x + y + z + v) == w + x + y + z + v
  {
  }

  /** A plain file name is its own `Path(...).name`. */
  lemma PlainPreferred(p: string)
    requires ValidSegment(p)
    ensures PreferredName(p) == p
  {
    ChildName([], p);
  }

  /** A name `a.b.c` keeps `a.b` as its stem and `.b.c` as its suffixes. */
  lemma MultiDotParts(a: string, b: string, c: string)
    requires a != "" && b != "" && c != ""
    requires '.' !in a && '.' !in b && '.' !in c
    requires '/' !in a && '/' !in b && '/' !in c
    ensures LocalStem(a + "." + b + "." + c) == a + "." + b
    ensures LocalExt(a + "." + b + "." + c) == "." + b + "." + c
  {
    var ab := a + "." + b;
    var p := ab + "." + c;
    assert PreferredName(p) == p by {
      assert p[0] == a[0];
      PlainPreferred(p);
    }
    assert Stem(p) == ab by {
      assert p[|ab|] == '.' && p[|ab| + 1..] == c;
      LastDotAt(p, |ab|);
      assert p[..|ab|] == ab;
    }
    assert AllSuffixes(p) == "." + b + "." + c by {
      AllSuffixesThree(a, b, c);
    }
  }

  /** The unique name built from a free `a.b.c` repeats the middle suffix:
      it is `a.b.b.c`. */
  lemma MultiDotName(fs: Fs, dir: Path, a: string, b: string, c: string)
    requires a != "" && b != "" && c != ""
    requires '.' !in a && '.' !in b && '.' !in c
    requires '/' !in a && '/' !in b && '/' !in c
    requires !Taken(fs, dir, a + "." + b + "." + b + "." + c)
    ensures UniqueLocalName(fs, dir, a + "." + b + "." + c) == Ok(a + "." + b + "." + b + "." + c)
  {
    var p := a + "." + b + "." + c;
    var doubled := a + "." + b + "." + b + "." + c;
    assert LocalStem(p) + LocalExt(p) == doubled by {
      MultiDotParts(a, b, c);
      ConcatFive(a + "." + b, ".", b, ".", c);
    }
    assert doubled[0] == a[0];
    ChildName(dir, doubled);
  }
}
