/** Song listing and ordering (stagepro/playlist.py): the songs of one or more
    roots, one per case-insensitive file name with the earliest root winning,
    sorted by that name; the entries of a setlist file; and the order a setlist
    imposes on the songs. Each root's `iterdir()` order is a parameter: a listing
    of the names of its entries. */
module Playlist {
  import opened Wrappers
  import opened Strings
  import opened Paths
  import opened FileSystem
  import opened Keyed

  const SupportedExts: set<string> := {".cho", ".pro", ".chopro", ".txt"}

  const DefaultSetlistName := "setlist.txt"

  /** `p.name.lower()`: the name songs are matched and sorted by. */
  function Key(p: Path): string {
    Lower(Name(p))
  }

  /** `p.suffix.lower() in SUPPORTED_EXTS`. */
  predicate HasSongExt(p: Path) {
    Lower(Suffix(Name(p))) in SupportedExts
  }

  /** An entry `list_song_files_alpha_from_roots` keeps: a regular file with a song
      extension whose lower-cased name is not `setlistKey`, the setlist file's
      name lower-cased. */
  predicate IsSong(fs: Fs, p: Path, setlistKey: string) {
    IsFile(fs, p) && HasSongExt(p) && Key(p) != setlistKey
  }

  /** `names` is what `root.iterdir()` yields: each entry directly below `root`
      exactly once, in some order. */
  predicate Lists(fs: Fs, root: Path, names: seq<string>) {
    (forall i | 0 <= i < |names| :: root + [names[i]] in fs)
    && (forall i, j | 0 <= i < j < |names| :: names[i] != names[j])
    && (forall p {:trigger Parent(p)} | p in fs && p != [] && Parent(p) == root :: Name(p) in names)
  }

  /** The paths `root.iterdir()` yields. */
  function Children(root: Path, names: seq<string>): (r: seq<Path>)
    ensures |r| == |names| && forall i | 0 <= i < |names| :: r[i] == root + [names[i]]
  {
    seq(|names|, i requires 0 <= i < |names| => root + [names[i]])
  }

  /** Every path the nested loops visit, root after root; a root that does not
      exist is skipped. */
  function Candidates(fs: Fs, roots: seq<Path>, listings: seq<seq<string>>): seq<Path>
    requires |listings| == |roots|
  {
    if roots == [] then []
    else
      var n := |roots| - 1;
      Candidates(fs, roots[..n], listings[..n]) + (if Exists(fs, roots[n]) then Children(roots[n], listings[n]) else [])
  }

  /** The songs among `ps`, in order: the entries the loop body does not skip. */
  function SongsIn(fs: Fs, ps: seq<Path>, setlistKey: string): seq<Path> {
    if ps == [] then []
    else
      var n := |ps| - 1;
      SongsIn(fs, ps[..n], setlistKey) + (if IsSong(fs, ps[n], setlistKey) then [ps[n]] else [])
  }

  /** `files_by_name.values()` after visiting `ps`: the first song under each
      lower-cased name, in the order they were met. */
  function Collect(fs: Fs, ps: seq<Path>, setlistKey: string): seq<Path> {
    Dedup(Key, [], SongsIn(fs, ps, setlistKey))
  }

  // ---------- list_song_files_alpha_from_roots ----------

  /** `list_song_files_alpha_from_roots(roots, cfg)`, the roots' listings given. */
  function SongFilesAlpha(fs: Fs, roots: seq<Path>, listings: seq<seq<string>>, setlistKey: string): seq<Path>
    requires |listings| == |roots|
  {
    SortByKey(Key, Collect(fs, Candidates(fs, roots, listings), setlistKey))
  }

  lemma SongsInStep(fs: Fs, ps: seq<Path>, i: nat, setlistKey: string)
    requires i < |ps|
    ensures IsSong(fs, ps[i], setlistKey) ==> SongsIn(fs, ps[..i + 1], setlistKey) == SongsIn(fs, ps[..i], setlistKey) + [ps[i]]
    ensures !IsSong(fs, ps[i], setlistKey) ==> SongsIn(fs, ps[..i + 1], setlistKey) == SongsIn(fs, ps[..i], setlistKey)
  {
    assert ps[..i + 1][..i] == ps[..i];
    assert SongsIn(fs, ps[..i], setlistKey) + [] == SongsIn(fs, ps[..i], setlistKey);
  }

  lemma CandidatesStep(fs: Fs, roots: seq<Path>, listings: seq<seq<string>>, r: nat)
    requires |listings| == |roots| && r < |roots|
    ensures Exists(fs, roots[r]) ==>
      Candidates(fs, roots[..r + 1], listings[..r + 1]) == Candidates(fs, roots[..r], listings[..r]) + Children(roots[r], listings[r])
    ensures !Exists(fs, roots[r]) ==>
      Candidates(fs, roots[..r + 1], listings[..r + 1]) == Candidates(fs, roots[..r], listings[..r])
  {
    assert roots[..r + 1][..r] == roots[..r] && listings[..r + 1][..r] == listings[..r];
    assert Candidates(fs, roots[..r], listings[..r]) + [] == Candidates(fs, roots[..r], listings[..r]);
  }

  /** The inner loop: the entries of one existing root, in `iterdir()` order. */
  method CollectRoot(fs: Fs, found: seq<Path>, keys: set<string>, root: Path, names: seq<string>, setlistKey: string)
    returns (found': seq<Path>, keys': set<string>)
    requires keys == KeysOf(Key, found)
    ensures found' == Dedup(Key, found, SongsIn(fs, Children(root, names), setlistKey)) && keys' == KeysOf(Key, found')
  {
    ghost var kids := Children(root, names);
    found', keys' := found, keys;
    var j := 0;
    while j < |names|
      invariant 0 <= j <= |names|
      invariant found' == Dedup(Key, found, SongsIn(fs, kids[..j], setlistKey)) && keys' == KeysOf(Key, found')
    {
      var p := root + [names[j]];
      SongsInStep(fs, kids, j, setlistKey);
      if IsSong(fs, p, setlistKey) {
        DedupSnoc(Key, found, SongsIn(fs, kids[..j], setlistKey), p);
        if Key(p) !in keys' {
          KeysOfSnoc(Key, found', p);
          found' := found' + [p];
          keys' := keys' + {Key(p)};
        }
      }
      j := j + 1;
    }
    assert kids[..j] == kids;
  }

  method ListSongFilesAlphaFromRoots(fs: Fs, roots: seq<Path>, listings: seq<seq<string>>, setlistName: string)
    returns (files: seq<Path>)
    requires |listings| == |roots|
    requires forall i | 0 <= i < |roots| && Exists(fs, roots[i]) :: IsDir(fs, roots[i])
    ensures files == SongFilesAlpha(fs, roots, listings, Lower(setlistName))
  {
    var setlistKey := Lower(setlistName);
    var found: seq<Path> := [];
    var keys: set<string> := {};
    var r := 0;
    while r < |roots|
      invariant 0 <= r <= |roots|
      invariant found == Collect(fs, Candidates(fs, roots[..r], listings[..r]), setlistKey)
      invariant keys == KeysOf(Key, found)
    {
      CandidatesStep(fs, roots, listings, r);
      if Exists(fs, roots[r]) {
        ghost var before := Candidates(fs, roots[..r], listings[..r]);
        ghost var kids := Children(roots[r], listings[r]);
        SongsInAppend(fs, before, kids, setlistKey);
        DedupAppend(Key, [], SongsIn(fs, before, setlistKey), SongsIn(fs, kids, setlistKey));
        found, keys := CollectRoot(fs, found, keys, roots[r], listings[r], setlistKey);
      }
      r := r + 1;
    }
    assert roots[..r] == roots && listings[..r] == listings;
    files := SortByKey(Key, found);
  }

  // ---------- what the listing guarantees ----------

  lemma {:induction false} SongsInAppend(fs: Fs, a: seq<Path>, b: seq<Path>, setlistKey: string)
    ensures SongsIn(fs, a + b, setlistKey) == SongsIn(fs, a, setlistKey) + SongsIn(fs, b, setlistKey)
    decreases |b|
  {
    if b == [] {
      assert a + b == a;
    } else {
      var n := |b| - 1;
      assert (a + b)[..|a + b| - 1] == a + b[..n];
      SongsInAppend(fs, a, b[..n], setlistKey);
    }
  }

  /** The songs among `ps` are exactly the paths of `ps` that are songs. */
  lemma {:induction false} SongsInSpec(fs: Fs, ps: seq<Path>, setlistKey: string, p: Path)
    ensures p in SongsIn(fs, ps, setlistKey) <==> p in ps && IsSong(fs, p, setlistKey)
  {
    if ps != [] {
      var n := |ps| - 1;
      SongsInSpec(fs, ps[..n], setlistKey, p);
      assert ps == ps[..n] + [ps[n]];
    }
  }

  lemma {:induction false} CandidatesPrefix(fs: Fs, roots: seq<Path>, listings: seq<seq<string>>, r: nat)
    requires |listings| == |roots| && r <= |roots|
    ensures Candidates(fs, roots[..r], listings[..r]) <= Candidates(fs, roots, listings)
    decreases |roots| - r
  {
    if r < |roots| {
      var n := |roots| - 1;
      assert roots[..n][..r] == roots[..r] && listings[..n][..r] == listings[..r];
      CandidatesPrefix(fs, roots[..n], listings[..n], r);
    } else {
      assert roots[..r] == roots && listings[..r] == listings;
    }
  }

  /** What the dictionary holds was visited and is a song. */
  lemma CollectSound(fs: Fs, ps: seq<Path>, setlistKey: string, p: Path)
    requires p in Collect(fs, ps, setlistKey)
    ensures p in ps && IsSong(fs, p, setlistKey)
  {
    DedupExtends(Key, [], SongsIn(fs, ps, setlistKey));
    SongsInSpec(fs, ps, setlistKey, p);
  }

  /** Every visited song's name is a key of the dictionary. */
  lemma CollectHasKey(fs: Fs, ps: seq<Path>, setlistKey: string, q: Path)
    requires q in ps && IsSong(fs, q, setlistKey)
    ensures Key(q) in KeysOf(Key, Collect(fs, ps, setlistKey))
  {
    SongsInSpec(fs, ps, setlistKey, q);
    DedupKeys(Key, [], SongsIn(fs, ps, setlistKey));
  }

  /** Visiting `a` then `b` is visiting `b` with `a`'s dictionary in hand. */
  lemma CollectSplit(fs: Fs, a: seq<Path>, b: seq<Path>, setlistKey: string)
    ensures Collect(fs, a + b, setlistKey) == Dedup(Key, Collect(fs, a, setlistKey), SongsIn(fs, b, setlistKey))
  {
    SongsInAppend(fs, a, b, setlistKey);
    DedupAppend(Key, [], SongsIn(fs, a, setlistKey), SongsIn(fs, b, setlistKey));
  }

  /** The listing holds only songs, sorted strictly by lower-cased name, so no two
      share a name case aside; every song of every root is represented by its name. */
  lemma SongFilesAlphaSpec(fs: Fs, roots: seq<Path>, listings: seq<seq<string>>, setlistKey: string)
    requires |listings| == |roots|
    ensures var files := SongFilesAlpha(fs, roots, listings, setlistKey);
      SortedByKey(Key, files)
      && (forall p | p in files :: IsSong(fs, p, setlistKey) && p in Candidates(fs, roots, listings))
      && forall p | p in Candidates(fs, roots, listings) && IsSong(fs, p, setlistKey) :: Key(p) in KeysOf(Key, files)
  {
    var ps := Candidates(fs, roots, listings);
    var found := Collect(fs, ps, setlistKey);
    var files := SortByKey(Key, found);
    DedupDistinct(Key, [], SongsIn(fs, ps, setlistKey));
    SortByKeySorted(Key, found);
    forall p | p in files
      ensures IsSong(fs, p, setlistKey) && p in ps
    {
      assert p in multiset(found);
      CollectSound(fs, ps, setlistKey, p);
    }
    MultisetKeys(Key, files, found);
    forall p | p in ps && IsSong(fs, p, setlistKey)
      ensures Key(p) in KeysOf(Key, files)
    {
      CollectHasKey(fs, ps, setlistKey, p);
    }
  }

  lemma CollectOfPrefix(fs: Fs, roots: seq<Path>, listings: seq<seq<string>>, r: nat, setlistKey: string)
    requires |listings| == |roots| && r <= |roots|
    ensures var pre := Candidates(fs, roots[..r], listings[..r]);
      var all := Candidates(fs, roots, listings);
      |pre| <= |all| && Collect(fs, all, setlistKey) == Dedup(Key, Collect(fs, pre, setlistKey), SongsIn(fs, all[|pre|..], setlistKey))
  {
    var pre := Candidates(fs, roots[..r], listings[..r]);
    var all := Candidates(fs, roots, listings);
    CandidatesPrefix(fs, roots, listings, r);
    assert all == pre + all[|pre|..];
    CollectSplit(fs, pre, all[|pre|..], setlistKey);
  }

  /** The earliest root wins: when the first `r` roots hold a song with a given
      name, case aside, the listed song of that name comes from those roots. */
  lemma EarliestRootWins(fs: Fs, roots: seq<Path>, listings: seq<seq<string>>, setlistKey: string, r: nat, p: Path, q: Path)
    requires |listings| == |roots| && r <= |roots|
    requires p in SongFilesAlpha(fs, roots, listings, setlistKey)
    requires q in Candidates(fs, roots[..r], listings[..r]) && IsSong(fs, q, setlistKey) && Key(q) == Key(p)
    ensures p in Candidates(fs, roots[..r], listings[..r])
  {
    var pre := Candidates(fs, roots[..r], listings[..r]);
    var all := Candidates(fs, roots, listings);
    CollectOfPrefix(fs, roots, listings, r, setlistKey);
    var later := SongsIn(fs, all[|pre|..], setlistKey);
    assert p in multiset(Collect(fs, all, setlistKey));
    CollectHasKey(fs, pre, setlistKey, q);
    DedupOld(Key, Collect(fs, pre, setlistKey), later, p);
    CollectSound(fs, pre, setlistKey, p);
  }

  /** Every entry of an existing root is visited. */
  lemma CandidateOfRoot(fs: Fs, roots: seq<Path>, listings: seq<seq<string>>, r: nat, j: nat)
    requires |listings| == |roots| && r < |roots| && Exists(fs, roots[r]) && j < |listings[r]|
    ensures roots[r] + [listings[r][j]] in Candidates(fs, roots, listings)
  {
    var kids := Children(roots[r], listings[r]);
    assert kids[j] == roots[r] + [listings[r][j]];
    CandidatesStep(fs, roots, listings, r);
    CandidatesPrefix(fs, roots, listings, r + 1);
  }

  /** Every song directly inside an existing root is represented by its name. */
  lemma RootSongListed(fs: Fs, roots: seq<Path>, listings: seq<seq<string>>, setlistKey: string, r: nat, q: Path)
    requires |listings| == |roots| && r < |roots| && Exists(fs, roots[r]) && Lists(fs, roots[r], listings[r])
    requires q in fs && q != [] && Parent(q) == roots[r] && IsSong(fs, q, setlistKey)
    ensures Key(q) in KeysOf(Key, SongFilesAlpha(fs, roots, listings, setlistKey))
  {
    var names := listings[r];
    var j :| 0 <= j < |names| && names[j] == Name(q);
    CandidateOfRoot(fs, roots, listings, r, j);
    assert roots[r] + [names[j]] == q;
    SongFilesAlphaSpec(fs, roots, listings, setlistKey);
  }

  // ---------- read_setlist ----------

  /** A setlist line worth keeping, once stripped: not empty and not a comment. */
  predicate SetlistEntry(s: string) {
    s != "" && !StartsWith(s, "#")
  }

  /** The stripped entries of the setlist's lines, in order. */
  function SetlistEntries(lines: seq<string>): seq<string> {
    if lines == [] then []
    else
      var n := |lines| - 1;
      var s := Strip(lines[n]);
      SetlistEntries(lines[..n]) + (if SetlistEntry(s) then [s] else [])
  }

  /** `read_setlist(songs_dir, name)`, the file's text given when it exists. */
  function ReadSetlist(content: Option<string>): Option<seq<string>> {
    match content
    case None => None
    case Some(text) => Some(SetlistEntries(SplitLines(text)))
  }

  /** The loop of `read_setlist` over the lines of an existing setlist file. */
  method ReadSetlistEntries(text: string) returns (entries: seq<string>)
    ensures Some(entries) == ReadSetlist(Some(text))
  {
    var lines := SplitLines(text);
    entries := [];
    var i := 0;
    while i < |lines|
      invariant 0 <= i <= |lines|
      invariant entries == SetlistEntries(lines[..i])
    {
      assert lines[..i + 1][..i] == lines[..i];
      var s := Strip(lines[i]);
      if s != "" && !StartsWith(s, "#") {
        entries := entries + [s];
      }
      i := i + 1;
    }
    assert lines[..i] == lines;
  }

  /** Some line of `lines` strips to `s`. */
  predicate StripsTo(lines: seq<string>, s: string) {
    exists i | 0 <= i < |lines| :: Strip(lines[i]) == s
  }

  lemma StripsToSnoc(lines: seq<string>, s: string)
    requires lines != []
    ensures var n := |lines| - 1;
      StripsTo(lines, s) <==> StripsTo(lines[..n], s) || Strip(lines[n]) == s
  {
    var n := |lines| - 1;
    if StripsTo(lines, s) {
      var i :| 0 <= i < |lines| && Strip(lines[i]) == s;
      if i < n {
        assert lines[..n][i] == lines[i];
      }
    }
    if StripsTo(lines[..n], s) {
      var i :| 0 <= i < n && Strip(lines[..n][i]) == s;
      assert lines[..n][i] == lines[i];
    }
  }

  /** The entries are exactly the stripped lines that are neither blank nor comments. */
  lemma {:induction false} SetlistEntriesSpec(lines: seq<string>, s: string)
    ensures s in SetlistEntries(lines) <==> SetlistEntry(s) && StripsTo(lines, s)
  {
    if lines != [] {
      var n := |lines| - 1;
      SetlistEntriesSpec(lines[..n], s);
      StripsToSnoc(lines, s);
    }
  }

  // ---------- order_songs ----------

  /** `songs_dir / item`: an absolute item replaces the directory. */
  function JoinText(base: Path, s: string): Path {
    if s != "" && s[0] == '/' then Segments(s) else base + Segments(s)
  }

  /** The alphabetical songs of `songs_dir`, `list_song_files_alpha(songs_dir, cfg)`. */
  function Alpha(fs: Fs, songsDir: Path, listing: seq<string>, setlistName: string): seq<Path> {
    SongFilesAlpha(fs, [songsDir], [listing], Lower(setlistName))
  }

  /** `by_name`: the alphabetical song with the given lower-cased name, if any. */
  function ByName(alpha: seq<Path>, key: string): (r: Option<Path>)
    ensures r.Some? ==> r.value in alpha && Key(r.value) == key
    ensures r.None? ==> key !in KeysOf(Key, alpha)
  {
    if alpha == [] then None
    else
      var n := |alpha| - 1;
      if Key(alpha[n]) == key then Some(alpha[n])
      else
        KeysOfSnoc(Key, alpha[..n], alpha[n]);
        assert alpha[..n] + [alpha[n]] == alpha;
        ByName(alpha[..n], key)
  }

  /** What a setlist item adds to `ordered`: the alphabetical song of that name,
      else the file it names when that is a song other than the setlist. */
  function ListedSong(fs: Fs, songsDir: Path, setlistName: string, alpha: seq<Path>, item: string): (r: Option<Path>)
    ensures Lower(item) in KeysOf(Key, alpha) ==> r.Some? && r.value in alpha && Key(r.value) == Lower(item)
    ensures Lower(item) !in KeysOf(Key, alpha) ==>
      (r.Some? <==> IsSong(fs, JoinText(songsDir, item), Lower(setlistName)))
      && (r.Some? ==> r.value == JoinText(songsDir, item))
  {
    match ByName(alpha, Lower(item))
    case Some(p) => Some(p)
    case None =>
      var cand := JoinText(songsDir, item);
      if IsSong(fs, cand, Lower(setlistName)) then Some(cand) else None
  }

  /** `ordered` after the loop over the setlist's items. */
  function Listed(fs: Fs, songsDir: Path, setlistName: string, alpha: seq<Path>, items: seq<string>): seq<Path> {
    if items == [] then []
    else
      var n := |items| - 1;
      var init := Listed(fs, songsDir, setlistName, alpha, items[..n]);
      match ListedSong(fs, songsDir, setlistName, alpha, items[n])
      case Some(p) => init + [p]
      case None => init
  }

  /** The alphabetical songs whose name was not seen among the listed ones. */
  function Unlisted(alpha: seq<Path>, seen: set<string>): seq<Path> {
    if alpha == [] then []
    else
      var n := |alpha| - 1;
      Unlisted(alpha[..n], seen) + (if Key(alpha[n]) !in seen then [alpha[n]] else [])
  }

  /** `order_songs(songs_dir, cfg)`, the setlist file's text given when it exists. */
  function OrderSongsOf(fs: Fs, songsDir: Path, listing: seq<string>, setlistName: string,
                        appendUnlisted: bool, setlist: Option<seq<string>>): seq<Path>
  {
    var alpha := Alpha(fs, songsDir, listing, setlistName);
    match setlist
    case None => alpha
    case Some(items) =>
      var listed := Listed(fs, songsDir, setlistName, alpha, items);
      var ordered := listed + (if appendUnlisted then Unlisted(alpha, KeysOf(Key, listed)) else []);
      if ordered != [] then ordered else alpha
  }

  /** The text of the setlist file, if it exists. */
  function SetlistText(fs: Fs, songsDir: Path, setlistName: string): Option<string>
    requires Exists(fs, JoinText(songsDir, setlistName)) ==> IsFile(fs, JoinText(songsDir, setlistName))
  {
    var p := JoinText(songsDir, setlistName);
    if Exists(fs, p) then Some(fs[p].content) else None
  }

  /** `read_setlist(songs_dir, setlist_name)`: None without a setlist file,
      else its entries. */
  method ReadSetlistFile(fs: Fs, songsDir: Path, setlistName: string) returns (r: Option<seq<string>>)
    requires Exists(fs, JoinText(songsDir, setlistName)) ==> IsFile(fs, JoinText(songsDir, setlistName))
    ensures r == ReadSetlist(SetlistText(fs, songsDir, setlistName))
  {
    var path := JoinText(songsDir, setlistName);
    if !Exists(fs, path) {
      return None;
    }
    var entries := ReadSetlistEntries(fs[path].content);
    r := Some(entries);
  }

  lemma ListedStep(fs: Fs, songsDir: Path, setlistName: string, alpha: seq<Path>, items: seq<string>, i: nat)
    requires i < |items|
    ensures var init := Listed(fs, songsDir, setlistName, alpha, items[..i]);
      Listed(fs, songsDir, setlistName, alpha, items[..i + 1])
        == match ListedSong(fs, songsDir, setlistName, alpha, items[i]) case Some(p) => init + [p] case None => init
  {
    assert items[..i + 1][..i] == items[..i];
  }

  lemma UnlistedStep(alpha: seq<Path>, seen: set<string>, i: nat)
    requires i < |alpha|
    ensures Key(alpha[i]) !in seen ==> Unlisted(alpha[..i + 1], seen) == Unlisted(alpha[..i], seen) + [alpha[i]]
    ensures Key(alpha[i]) in seen ==> Unlisted(alpha[..i + 1], seen) == Unlisted(alpha[..i], seen)
  {
    assert alpha[..i + 1][..i] == alpha[..i];
    assert Unlisted(alpha[..i], seen) + [] == Unlisted(alpha[..i], seen);
  }

  /** The loop over the setlist's items: `ordered` and the names in `seen`. */
  method ListSetlistSongs(fs: Fs, songsDir: Path, setlistName: string, alpha: seq<Path>, items: seq<string>)
    returns (ordered: seq<Path>, seen: set<string>)
    ensures ordered == Listed(fs, songsDir, setlistName, alpha, items) && seen == KeysOf(Key, ordered)
  {
    ordered := [];
    seen := {};
    var i := 0;
    while i < |items|
      invariant 0 <= i <= |items|
      invariant ordered == Listed(fs, songsDir, setlistName, alpha, items[..i]) && seen == KeysOf(Key, ordered)
    {
      ListedStep(fs, songsDir, setlistName, alpha, items, i);
      var song := ListedSong(fs, songsDir, setlistName, alpha, items[i]);
      if song.Some? {
        KeysOfSnoc(Key, ordered, song.value);
        ordered := ordered + [song.value];
        seen := seen + {Key(song.value)};
      }
      i := i + 1;
    }
    assert items[..i] == items;
  }

  /** The loop that appends the alphabetical songs whose name was not seen. */
  method AppendUnlisted(ordered: seq<Path>, alpha: seq<Path>, seen: set<string>) returns (r: seq<Path>)
    ensures r == ordered + Unlisted(alpha, seen)
  {
    r := ordered;
    var i := 0;
    while i < |alpha|
      invariant 0 <= i <= |alpha|
      invariant r == ordered + Unlisted(alpha[..i], seen)
    {
      UnlistedStep(alpha, seen, i);
      if Key(alpha[i]) !in seen {
        assert ordered + (Unlisted(alpha[..i], seen) + [alpha[i]]) == r + [alpha[i]];
        r := r + [alpha[i]];
      }
      i := i + 1;
    }
    assert alpha[..i] == alpha;
  }

  /** `order_songs(songs_dir, cfg)`. */
  method OrderSongs(fs: Fs, songsDir: Path, listing: seq<string>, setlistName: string, appendUnlisted: bool)
    returns (songs: seq<Path>)
    requires Exists(fs, songsDir) ==> IsDir(fs, songsDir)
    requires Exists(fs, JoinText(songsDir, setlistName)) ==> IsFile(fs, JoinText(songsDir, setlistName))
    ensures songs == OrderSongsOf(fs, songsDir, listing, setlistName, appendUnlisted, ReadSetlist(SetlistText(fs, songsDir, setlistName)))
  {
    var alpha := ListSongFilesAlphaFromRoots(fs, [songsDir], [listing], setlistName);
    var order := ReadSetlistFile(fs, songsDir, setlistName);
    if order.None? {
      return alpha;
    }
    var ordered, seen := ListSetlistSongs(fs, songsDir, setlistName, alpha, order.value);
    if appendUnlisted {
      ordered := AppendUnlisted(ordered, alpha, seen);
    }
    songs := if ordered != [] then ordered else alpha;
  }

  // ---------- what the order guarantees ----------

  /** Without a setlist file the order is the alphabetical one. */
  lemma NoSetlistIsAlphabetical(fs: Fs, songsDir: Path, listing: seq<string>, setlistName: string, appendUnlisted: bool)
    requires !Exists(fs, JoinText(songsDir, setlistName))
    ensures OrderSongsOf(fs, songsDir, listing, setlistName, appendUnlisted, ReadSetlist(SetlistText(fs, songsDir, setlistName)))
      == Alpha(fs, songsDir, listing, setlistName)
  {
  }

  /** How many of the setlist's items name a song. */
  function Hits(fs: Fs, songsDir: Path, setlistName: string, alpha: seq<Path>, items: seq<string>): (r: nat)
    ensures r <= |items|
  {
    if items == [] then 0
    else
      var n := |items| - 1;
      Hits(fs, songsDir, setlistName, alpha, items[..n])
        + (if ListedSong(fs, songsDir, setlistName, alpha, items[n]).Some? then 1 else 0)
  }

  /** `listed` holds, for each item that names a song, that song at the index
      counting the items before it that name one. */
  predicate PlacesSongs(fs: Fs, songsDir: Path, setlistName: string, alpha: seq<Path>, items: seq<string>, listed: seq<Path>) {
    forall i | 0 <= i < |items| && ListedSong(fs, songsDir, setlistName, alpha, items[i]).Some? ::
      Hits(fs, songsDir, setlistName, alpha, items[..i]) < |listed|
      && listed[Hits(fs, songsDir, setlistName, alpha, items[..i])] == ListedSong(fs, songsDir, setlistName, alpha, items[i]).value
  }

  /** The listed songs are the songs the items name, in the items' order: one per
      item that names a song, the `k`-th for the item with `k` such items before
      it. Each is the alphabetical song of that name, case aside, or else a song
      file the item names. */
  lemma {:induction false} ListedSongs(fs: Fs, songsDir: Path, setlistName: string, alpha: seq<Path>, items: seq<string>)
    ensures var listed := Listed(fs, songsDir, setlistName, alpha, items);
      && |listed| == Hits(fs, songsDir, setlistName, alpha, items) <= |items|
      && PlacesSongs(fs, songsDir, setlistName, alpha, items, listed)
      && (forall p | p in listed :: p in alpha || IsSong(fs, p, Lower(setlistName)))
  {
    if items != [] {
      var n := |items| - 1;
      ListedSongs(fs, songsDir, setlistName, alpha, items[..n]);
      ListedSongsLast(fs, songsDir, setlistName, alpha, items);
      var listed := Listed(fs, songsDir, setlistName, alpha, items);
      forall p | p in listed
        ensures p in alpha || IsSong(fs, p, Lower(setlistName))
      {
        if p !in Listed(fs, songsDir, setlistName, alpha, items[..n]) {
          var last := ListedSong(fs, songsDir, setlistName, alpha, items[n]);
          assert last == Some(p);
        }
      }
    }
  }

  /** The step of `ListedSongs`: the last item adds its song after the others. */
  lemma ListedSongsLast(fs: Fs, songsDir: Path, setlistName: string, alpha: seq<Path>, items: seq<string>)
    requires items != []
    requires var init := Listed(fs, songsDir, setlistName, alpha, items[..|items| - 1]);
      && |init| == Hits(fs, songsDir, setlistName, alpha, items[..|items| - 1])
      && PlacesSongs(fs, songsDir, setlistName, alpha, items[..|items| - 1], init)
    ensures var listed := Listed(fs, songsDir, setlistName, alpha, items);
      && |listed| == Hits(fs, songsDir, setlistName, alpha, items)
      && PlacesSongs(fs, songsDir, setlistName, alpha, items, listed)
  {
    var n := |items| - 1;
    var pre := items[..n];
    var init := Listed(fs, songsDir, setlistName, alpha, pre);
    var listed := Listed(fs, songsDir, setlistName, alpha, items);
    var last := ListedSong(fs, songsDir, setlistName, alpha, items[n]);
    assert listed == if last.Some? then init + [last.value] else init;
    assert Hits(fs, songsDir, setlistName, alpha, items)
      == Hits(fs, songsDir, setlistName, alpha, pre) + (if last.Some? then 1 else 0);
    forall i | 0 <= i < |items| && ListedSong(fs, songsDir, setlistName, alpha, items[i]).Some?
      ensures Hits(fs, songsDir, setlistName, alpha, items[..i]) < |listed|
      ensures listed[Hits(fs, songsDir, setlistName, alpha, items[..i])]
              == ListedSong(fs, songsDir, setlistName, alpha, items[i]).value
    {
      if i < n {
        PrefixOfPrefix(items, n, i);
        var k := Hits(fs, songsDir, setlistName, alpha, pre[..i]);
        assert k < |init| && init[k] == ListedSong(fs, songsDir, setlistName, alpha, pre[i]).value;
      } else {
        assert items[..i] == pre;
      }
    }
  }

  lemma PrefixOfPrefix<T>(xs: seq<T>, n: nat, i: nat)
    requires i < n <= |xs|
    ensures xs[..n][i] == xs[i] && xs[..n][..i] == xs[..i]
  {
  }

  /** Each item whose name, case aside, is an alphabetical song's lists that song. */
  lemma ListedByName(fs: Fs, songsDir: Path, setlistName: string, alpha: seq<Path>, items: seq<string>, i: nat)
    requires i < |items| && Lower(items[i]) in KeysOf(Key, alpha)
    ensures exists q | q in Listed(fs, songsDir, setlistName, alpha, items) :: q in alpha && Key(q) == Lower(items[i])
  {
    ListedSongs(fs, songsDir, setlistName, alpha, items);
    var listed := Listed(fs, songsDir, setlistName, alpha, items);
    var q := listed[Hits(fs, songsDir, setlistName, alpha, items[..i])];
    assert q in listed;
  }

  /** The unlisted part keeps the alphabetical order and holds exactly the
      alphabetical songs whose name was not seen. */
  lemma {:induction false} UnlistedSpec(alpha: seq<Path>, seen: set<string>, p: Path)
    ensures p in Unlisted(alpha, seen) <==> p in alpha && Key(p) !in seen
    ensures |Unlisted(alpha, seen)| <= |alpha|
    ensures SortedByKey(Key, alpha) ==> SortedByKey(Key, Unlisted(alpha, seen))
    decreases |alpha|, 1
  {
    if alpha != [] {
      var n := |alpha| - 1;
      UnlistedSpec(alpha[..n], seen, p);
      assert alpha == alpha[..n] + [alpha[n]];
      if SortedByKey(Key, alpha) {
        UnlistedSorted(alpha, seen);
      }
    }
  }

  /** The step of `UnlistedSpec`'s order: the last alphabetical song sorts after
      every earlier one that was kept. */
  lemma UnlistedSorted(alpha: seq<Path>, seen: set<string>)
    requires alpha != [] && SortedByKey(Key, alpha)
    requires SortedByKey(Key, Unlisted(alpha[..|alpha| - 1], seen))
    ensures SortedByKey(Key, Unlisted(alpha, seen))
    decreases |alpha|, 0
  {
    var n := |alpha| - 1;
    var u := Unlisted(alpha[..n], seen);
    if Key(alpha[n]) !in seen {
      var r := u + [alpha[n]];
      forall i, j | 0 <= i < j < |r|
        ensures StrLess(Key(r[i]), Key(r[j]))
      {
        if j == |u| {
          assert r[i] in u;
          UnlistedSpec(alpha[..n], seen, r[i]);
          var a :| 0 <= a < n && alpha[a] == r[i];
        }
      }
    }
  }

  /** With `append_unlisted`, every song of the folder appears in the order
      under its name. */
  lemma OrderCoversAlpha(fs: Fs, songsDir: Path, listing: seq<string>, setlistName: string,
                         setlist: Option<seq<string>>, p: Path)
    requires p in Alpha(fs, songsDir, listing, setlistName)
    ensures Key(p) in KeysOf(Key, OrderSongsOf(fs, songsDir, listing, setlistName, true, setlist))
  {
    if setlist.Some? {
      var alpha := Alpha(fs, songsDir, listing, setlistName);
      var listed := Listed(fs, songsDir, setlistName, alpha, setlist.value);
      UnlistedSpec(alpha, KeysOf(Key, listed), p);
      KeysOfAppend(Key, listed, Unlisted(alpha, KeysOf(Key, listed)));
    }
  }

  /** Every path in the order is a song file other than the setlist, and the
      order is empty only when the folder has no songs. */
  lemma OrderSongsAreSongs(fs: Fs, songsDir: Path, listing: seq<string>, setlistName: string,
                           appendUnlisted: bool, setlist: Option<seq<string>>, p: Path)
    ensures var songs := OrderSongsOf(fs, songsDir, listing, setlistName, appendUnlisted, setlist);
      (songs == [] ==> Alpha(fs, songsDir, listing, setlistName) == [])
      && (p in songs ==> IsSong(fs, p, Lower(setlistName)))
  {
    var alpha := Alpha(fs, songsDir, listing, setlistName);
    SongFilesAlphaSpec(fs, [songsDir], [listing], Lower(setlistName));
    if setlist.Some? {
      var listed := Listed(fs, songsDir, setlistName, alpha, setlist.value);
      ListedSongs(fs, songsDir, setlistName, alpha, setlist.value);
      UnlistedSpec(alpha, KeysOf(Key, listed), p);
    }
  }
}
