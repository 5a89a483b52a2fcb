/** The file system the library pipeline works on: a map from paths to entries.
    Each operation is the `pathlib`/`shutil` call of the same name; where Python
    raises an `OSError`, the operation gives `Err` with a description. */
module FileSystem {
  import opened Wrappers
  import opened Strings
  import opened Paths

  datatype Entry = File(content: string) | Dir

  /** The root `[]` is always a directory and is never stored. */
  type Fs = map<Path, Entry>

  /** How a sequence of file-system calls ends: it returns `value`, or one call
      raises with `error`, leaving `fs` as the calls before it made it. Each call
      on its own fails before it changes anything. */
  datatype Attempt<+T> = Done(value: T) | Raised(fs: Fs, error: string) {
    predicate IsFailure() {
      Raised?
    }

    function PropagateFailure<U>(): Attempt<U>
      requires Raised?
    {
      Raised(fs, error)
    }

    function Extract(): T
      requires Done?
    {
      value
    }
  }

  /** A single call on `fs`: its error is raised with `fs` as it was. */
  function Lift<T>(r: Result<T>, fs: Fs): (a: Attempt<T>)
    ensures a.Done? <==> r.Ok?
    ensures r.Ok? ==> a.value == r.value
    ensures r.Err? ==> a.fs == fs && a.error == r.error
  {
    match r
    case Ok(v) => Done(v)
    case Err(e) => Raised(fs, e)
  }

  predicate Exists(fs: Fs, p: Path) {
    p == [] || p in fs
  }

  predicate IsDir(fs: Fs, p: Path) {
    p == [] || (p in fs && fs[p].Dir?)
  }

  predicate IsFile(fs: Fs, p: Path) {
    p in fs && fs[p].File?
  }

  /** A tree: the root is not stored, and every stored entry sits in a stored directory. */
  predicate WellFormed(fs: Fs) {
    forall p {:trigger Parent(p)} | p in fs :: p != [] && IsDir(fs, Parent(p))
  }

  /** In a tree, the parent of a stored entry is a directory. */
  lemma ParentStored(fs: Fs, q: Path)
    requires WellFormed(fs) && q in fs
    ensures q != [] && IsDir(fs, Parent(q))
  {
  }

  /** `any(p.iterdir())`. */
  predicate HasChildren(fs: Fs, p: Path) {
    exists q | q in fs :: q != [] && Parent(q) == p
  }

  /** Everything stored strictly below `p`, as `p.rglob("*")` yields it. */
  function Below(fs: Fs, p: Path): set<Path> {
    set q | q in fs && p < q
  }

  /** `p.mkdir(parents=True, exist_ok=True)`. */
  function Mkdirs(fs: Fs, p: Path): (r: Result<Fs>)
    ensures r.Ok? ==> IsDir(r.value, p)
    ensures r.Ok? ==> forall q | q in fs :: q in r.value && r.value[q] == fs[q]
    ensures r.Ok? ==> forall q | q in r.value && q !in fs :: q <= p && r.value[q] == Dir
    ensures r.Err? ==> exists q | q <= p :: IsFile(fs, q)
    ensures r.Err? ==> r.error == (if IsFile(fs, p) then "[Errno 17] File exists: " + PyRepr(AbsText(p))
                                   else "[Errno 20] Not a directory: " + PyRepr(AbsText(p)))
    decreases |p|
  {
    if p == [] then Ok(fs)
    else if p in fs then
      if fs[p].Dir? then Ok(fs)
      else
        assert IsFile(fs, p) && p <= p;
        Err("[Errno 17] File exists: " + PyRepr(AbsText(p)))
    else
      var r1 := Mkdirs(fs, Parent(p));
      assert Parent(p) <= p;
      if r1.Err? then Err("[Errno 20] Not a directory: " + PyRepr(AbsText(p))) else Ok(r1.value[p := Dir])
  }

  /** `p.write_text(content)`: needs an existing parent directory, and `p` must not be one. */
  function WriteText(fs: Fs, p: Path, content: string): (r: Result<Fs>)
    ensures r.Ok? <==> p != [] && IsDir(fs, Parent(p)) && !IsDir(fs, p)
    ensures r.Ok? ==> r.value == fs[p := File(content)]
  {
    if p == [] || (p in fs && fs[p].Dir?) then Err("[Errno 21] Is a directory: " + PyRepr(AbsText(p)))
    else if !IsDir(fs, Parent(p)) then Err(NotFound(fs, p))
    else Ok(fs[p := File(content)])
  }

  /** `p.read_text()`: the stored text with universal newlines applied. */
  function ReadText(fs: Fs, p: Path): (r: Result<string>)
    ensures r.Ok? <==> IsFile(fs, p)
    ensures r.Ok? ==> r.value == UniversalNewlines(fs[p].content)
  {
    if IsFile(fs, p) then Ok(UniversalNewlines(fs[p].content))
    else if IsDir(fs, p) then Err("[Errno 21] Is a directory: " + PyRepr(AbsText(p)))
    else Err("[Errno 2] No such file or directory: " + PyRepr(AbsText(p)))
  }

  /** `p.unlink()`: only a file can be unlinked. */
  function Unlink(fs: Fs, p: Path): (r: Result<Fs>)
    ensures r.Ok? <==> IsFile(fs, p)
    ensures r.Ok? ==> r.value == fs - {p}
  {
    if IsFile(fs, p) then Ok(fs - {p})
    else if IsDir(fs, p) then Err("[Errno 21] Is a directory: " + PyRepr(AbsText(p)))
    else Err("[Errno 2] No such file or directory: " + PyRepr(AbsText(p)))
  }

  /** `p.rmdir()`: only an empty directory other than the root can be removed. */
  function RmDir(fs: Fs, p: Path): (r: Result<Fs>)
    ensures r.Ok? <==> p in fs && fs[p].Dir? && !HasChildren(fs, p)
    ensures r.Ok? ==> r.value == fs - {p}
  {
    if p in fs && fs[p].Dir? && !HasChildren(fs, p) then Ok(fs - {p})
    else if HasChildren(fs, p) then Err("[Errno 39] Directory not empty: " + PyRepr(AbsText(p)))
    else Err(NotADirectory(fs, p))
  }

  /** `shutil.rmtree(p)`: removes a directory and everything below it. */
  function RmTree(fs: Fs, p: Path): (r: Result<Fs>)
    ensures r.Ok? <==> IsDir(fs, p)
    ensures r.Ok? ==> forall q :: q in r.value <==> q in fs && !(p <= q)
    ensures r.Ok? ==> forall q | q in r.value :: r.value[q] == fs[q]
  {
    if IsDir(fs, p) then Ok(map q | q in fs && !(p <= q) :: fs[q])
    else Err(NotADirectory(fs, p))
  }

  /** What listing or removing `p` as a directory raises when it is not one:
      what `NotFound` gives when nothing is there, `NotADirectoryError` otherwise. */
  function NotADirectory(fs: Fs, p: Path): string {
    if Exists(fs, p) then "[Errno 20] Not a directory: " + PyRepr(AbsText(p))
    else NotFound(fs, p)
  }

  /** What looking up a missing `p` raises: `NotADirectoryError` when the way to
      it runs through a file, `FileNotFoundError` otherwise. */
  function NotFound(fs: Fs, p: Path): string {
    if FileOnPath(fs, Parent(p)) then "[Errno 20] Not a directory: " + PyRepr(AbsText(p))
    else "[Errno 2] No such file or directory: " + PyRepr(AbsText(p))
  }

  /** Whether `p` or one of its ancestors is a file, so that looking `p` up
      raises `NotADirectoryError` rather than `FileNotFoundError`. */
  predicate FileOnPath(fs: Fs, p: Path)
    decreases |p|
  {
    p != [] && (IsFile(fs, p) || FileOnPath(fs, Parent(p)))
  }

  /** `src.rename(dst)` for a destination that does not exist yet: the whole tree
      at `src` moves to `dst`. */
  function Rename(fs: Fs, src: Path, dst: Path): (r: Result<Fs>)
    ensures r.Ok? <==> src in fs && !Exists(fs, dst) && IsDir(fs, Parent(dst)) && !(src <= dst)
    ensures r.Ok? ==> forall q | q in fs && !(src <= q) && !(dst <= q) :: q in r.value && r.value[q] == fs[q]
    ensures r.Ok? ==> forall rel :: src + rel in fs ==> dst + rel in r.value && r.value[dst + rel] == fs[src + rel]
    ensures r.Ok? ==> forall q | q in r.value :: (q in fs && !(src <= q) && !(dst <= q)) || (dst <= q && src + q[|dst|..] in fs)
  {
    if src in fs && !Exists(fs, dst) && IsDir(fs, Parent(dst)) && !(src <= dst) then
      Ok(MoveTree(fs, src, dst))
    else
      var names := PyRepr(AbsText(src)) + " -> " + PyRepr(AbsText(dst));
      if src !in fs then Err("[Errno 2] No such file or directory: " + names)
      else if !IsDir(fs, Parent(dst)) then
        if FileOnPath(fs, Parent(dst)) then Err("[Errno 20] Not a directory: " + names)
        else Err("[Errno 2] No such file or directory: " + names)
      else if src <= dst then Err("[Errno 22] Invalid argument: " + names)
      else if fs[src].Dir? && IsFile(fs, dst) then Err("[Errno 20] Not a directory: " + names)
      else if fs[src].File? && IsDir(fs, dst) then Err("[Errno 21] Is a directory: " + names)
      else Err("[Errno 39] Directory not empty: " + names)
  }

  function MoveTree(fs: Fs, src: Path, dst: Path): (r: Fs)
    requires !(src <= dst)
    ensures forall q | q in fs && !(src <= q) && !(dst <= q) :: q in r && r[q] == fs[q]
    ensures forall rel :: src + rel in fs ==> dst + rel in r && r[dst + rel] == fs[src + rel]
    ensures forall q | q in r :: (q in fs && !(src <= q) && !(dst <= q)) || (dst <= q && src + q[|dst|..] in fs)
  {
    var moved := set q | q in fs && src <= q :: dst + q[|src|..];
    assert forall rel :: src + rel in fs ==> dst + rel in moved by {
      forall rel | src + rel in fs
        ensures dst + rel in moved
      {
        var q := src + rel;
        assert q[|src|..] == rel;
      }
    }
    assert forall q | q in moved :: dst <= q && src + q[|dst|..] in fs by {
      forall q | q in moved
        ensures dst <= q && src + q[|dst|..] in fs
      {
        var q0 :| q0 in fs && src <= q0 && q == dst + q0[|src|..];
        assert q[|dst|..] == q0[|src|..];
        assert src + q0[|src|..] == q0;
      }
    }
    assert forall rel :: (dst + rel)[|dst|..] == rel;
    var r := map q | q in (fs.Keys + moved) && (q in moved || (!(src <= q) && !(dst <= q))) ::
      if q in moved then fs[src + q[|dst|..]] else fs[q];
    r
  }

  // ---------- the tree shape is preserved ----------

  lemma {:induction false} MkdirsWellFormed(fs: Fs, p: Path)
    requires WellFormed(fs) && Mkdirs(fs, p).Ok?
    ensures WellFormed(Mkdirs(fs, p).value)
    decreases |p|
  {
    if p != [] && p !in fs {
      MkdirsWellFormed(fs, Parent(p));
      var fs1 := Mkdirs(fs, Parent(p)).value;
      assert Mkdirs(fs, p).value == fs1[p := Dir];
      WellFormedAddDir(fs1, p);
    }
  }

  /** A directory added inside an existing one keeps a tree a tree. */
  lemma WellFormedAddDir(fs: Fs, p: Path)
    requires WellFormed(fs) && p != [] && IsDir(fs, Parent(p))
    ensures WellFormed(fs[p := Dir])
  {
    var fs2 := fs[p := Dir];
    forall q | q in fs2
      ensures q != [] && IsDir(fs2, Parent(q))
    {
      if q != p {
        assert q in fs && IsDir(fs, Parent(q));
      }
    }
  }

  lemma WriteTextWellFormed(fs: Fs, p: Path, content: string)
    requires WellFormed(fs) && WriteText(fs, p, content).Ok?
    ensures WellFormed(WriteText(fs, p, content).value)
  {
  }

  lemma {:induction false} UnlinkWellFormed(fs: Fs, p: Path)
    requires WellFormed(fs) && Unlink(fs, p).Ok?
    ensures WellFormed(Unlink(fs, p).value)
  {
    var r := fs - {p};
    assert Unlink(fs, p).value == r && IsFile(fs, p);
    forall q | q in r
      ensures q != [] && IsDir(r, Parent(q))
    {
      var d := Parent(q);
      ParentStored(fs, q);
    }
  }

  lemma {:induction false} RmDirWellFormed(fs: Fs, p: Path)
    requires WellFormed(fs) && RmDir(fs, p).Ok?
    ensures WellFormed(RmDir(fs, p).value)
  {
    var r := fs - {p};
    forall q | q in r
      ensures q != [] && IsDir(r, Parent(q))
    {
      assert IsDir(fs, Parent(q));
    }
  }

  lemma {:induction false} RmTreeWellFormed(fs: Fs, p: Path)
    requires WellFormed(fs) && RmTree(fs, p).Ok?
    ensures WellFormed(RmTree(fs, p).value)
  {
    var r := RmTree(fs, p).value;
    forall q | q in r
      ensures q != [] && IsDir(r, Parent(q))
    {
      assert IsDir(fs, Parent(q));
    }
  }

  /** In a tree, every non-root prefix of a stored path is stored too. */
  lemma {:induction false} AncestorStored(fs: Fs, q: Path, p: Path)
    requires WellFormed(fs) && q in fs && p <= q && p != []
    ensures p in fs
    decreases |q|
  {
    if p != q {
      assert p <= Parent(q);
      AncestorStored(fs, Parent(q), p);
    }
  }
}
