/** The playlists store: named playlists of song file names, the order they
    are shown in and the active one, kept as JSON in the user's config
    directory. The store object is a class whose methods update its fields;
    each method's new state is given by a pure transition on `Store` values,
    and the invariants are proved about those transitions. */
module PlaylistsStore {
  import opened Wrappers
  import opened Strings
  import opened Paths
  import opened FileSystem
  import Songs = Playlist

  const PlaylistsFilename := "playlists.json"
  const SchemaVersion := 1
  const DefaultSetName := "Default Set"
  const NewPlaylistName := "New Playlist"
  const UnnamedName := "Playlist"
  const CopySuffix := " (Copy)"
  const IndexErrorMsg := "IndexError: list index out of range"
  const KeyErrorMsg := "KeyError"

  /** One playlist; `items` are song file names relative to the songs folder. */
  datatype Playlist = Playlist(playlistId: string, name: string, items: seq<string>)

  /** The store's fields as a value. */
  datatype Store = Store(version: int, active: Option<string>, order: seq<string>, playlists: map<string, Playlist>)

  /** What `save` writes: the state, under the current schema version. */
  function Written(s: Store): Store {
    s.(version := SchemaVersion)
  }

  /** Python truthiness of an optional id: neither None nor "". */
  predicate Truthy(id: Option<string>) {
    id.Some? && id.value != ""
  }

  predicate Distinct(xs: seq<string>) {
    forall i, j | 0 <= i < j < |xs| :: xs[i] != xs[j]
  }

  /** Dropping the last entry keeps the rest distinct, and that entry is not among them. */
  lemma DistinctInit(xs: seq<string>)
    requires xs != [] && Distinct(xs)
    ensures Distinct(xs[..|xs| - 1]) && xs[|xs| - 1] !in xs[..|xs| - 1]
  {
    var n := |xs| - 1;
    assert forall i | 0 <= i < n :: xs[..n][i] == xs[i];
  }

  /** Every ordered id names a playlist, every playlist is in the order and
      is filed under its own id. */
  predicate Valid(s: Store) {
    (forall pid | pid in s.order :: pid in s.playlists) &&
    (forall pid | pid in s.playlists :: pid in s.order && s.playlists[pid].playlistId == pid)
  }

  /** What `load_or_init` leaves behind: well formed, not empty, and the
      active id names a playlist. */
  predicate Ready(s: Store) {
    Valid(s) && s.playlists != map[] && s.active.Some? && s.active.value in s.playlists
  }

  // ---------- order helpers ----------

  /** The ids of `order` that name a playlist, in order. */
  function KeepKnown(order: seq<string>, playlists: map<string, Playlist>): seq<string> {
    if order == [] then [] else
      var n := |order| - 1;
      KeepKnown(order[..n], playlists) + (if order[n] in playlists then [order[n]] else [])
  }

  /** `order` with every occurrence of `pid` removed. */
  function Without(order: seq<string>, pid: string): seq<string> {
    if order == [] then [] else
      var n := |order| - 1;
      Without(order[..n], pid) + (if order[n] == pid then [] else [order[n]])
  }

  lemma {:induction false} KeepKnownSpec(order: seq<string>, playlists: map<string, Playlist>)
    ensures forall x :: x in KeepKnown(order, playlists) <==> x in order && x in playlists
    ensures Distinct(order) ==> Distinct(KeepKnown(order, playlists))
  {
    if order != [] {
      var n := |order| - 1;
      KeepKnownSpec(order[..n], playlists);
      assert order == order[..n] + [order[n]];
      if Distinct(order) {
        DistinctInit(order);
      }
    }
  }

  lemma {:induction false} KeepKnownAppend(a: seq<string>, b: seq<string>, playlists: map<string, Playlist>)
    ensures KeepKnown(a + b, playlists) == KeepKnown(a, playlists) + KeepKnown(b, playlists)
  {
    if b != [] {
      var n := |b| - 1;
      assert (a + b)[..|a| + n] == a + b[..n];
      KeepKnownAppend(a, b[..n], playlists);
    } else {
      assert a + b == a;
    }
  }

  /** Filtering an order whose ids are all known changes nothing. */
  lemma {:induction false} KeepKnownAllKnown(order: seq<string>, playlists: map<string, Playlist>)
    requires forall pid | pid in order :: pid in playlists
    ensures KeepKnown(order, playlists) == order
  {
    if order != [] {
      var n := |order| - 1;
      KeepKnownAllKnown(order[..n], playlists);
      assert order == order[..n] + [order[n]];
    }
  }

  lemma {:induction false} WithoutSpec(order: seq<string>, pid: string)
    ensures forall x :: x in Without(order, pid) <==> x in order && x != pid
    ensures Distinct(order) ==> Distinct(Without(order, pid))
  {
    if order != [] {
      var n := |order| - 1;
      WithoutSpec(order[..n], pid);
      assert order == order[..n] + [order[n]];
      if Distinct(order) {
        DistinctInit(order);
      }
    }
  }

  // ---------- list_playlists ----------

  /** `list_playlists`: the playlists of the ordered ids, ids without one skipped. */
  function ListedOf(order: seq<string>, playlists: map<string, Playlist>): seq<Playlist> {
    if order == [] then [] else
      var n := |order| - 1;
      ListedOf(order[..n], playlists) + (if order[n] in playlists then [playlists[order[n]]] else [])
  }

  /** The listing is exactly the playlists of the known ids, in order. */
  lemma {:induction false} ListedSpec(order: seq<string>, playlists: map<string, Playlist>)
    ensures var known := KeepKnown(order, playlists);
      var listed := ListedOf(order, playlists);
      |listed| == |known| &&
      forall i | 0 <= i < |known| :: known[i] in playlists && listed[i] == playlists[known[i]]
  {
    if order != [] {
      var n := |order| - 1;
      ListedSpec(order[..n], playlists);
    }
  }

  /** In a well-formed store every playlist is listed, once per ordered id. */
  lemma ListedAll(s: Store, pid: string)
    requires Valid(s) && pid in s.playlists
    ensures |ListedOf(s.order, s.playlists)| == |s.order|
    ensures s.playlists[pid] in ListedOf(s.order, s.playlists)
  {
    KeepKnownAllKnown(s.order, s.playlists);
    ListedSpec(s.order, s.playlists);
    var i :| 0 <= i < |s.order| && s.order[i] == pid;
    assert ListedOf(s.order, s.playlists)[i] == s.playlists[pid];
  }

  // ---------- get_active / set_active ----------

  /** `get_active`: the active playlist when its id is set and known, else
      the first ordered one, made active first; failing like the source
      when the order is empty or its first id is unknown. */
  function GetActiveOf(s: Store): (Result<Playlist>, Store) {
    if Truthy(s.active) && s.active.value in s.playlists then (Ok(s.playlists[s.active.value]), s)
    else if s.order == [] then (Err(IndexErrorMsg), s)
    else
      var t := s.(active := Some(s.order[0]));
      if s.order[0] in s.playlists then (Ok(s.playlists[s.order[0]]), t) else (Err(KeyErrorMsg), t)
  }

  /** In a ready store `get_active` returns the playlist the new state marks
      active and changes nothing else. */
  lemma GetActiveReady(s: Store)
    requires Ready(s)
    ensures var (r, t) := GetActiveOf(s);
      r.Ok? && Ready(t) && t.active.Some? && r.value == t.playlists[t.active.value] &&
      t.order == s.order && t.playlists == s.playlists && t.version == s.version
  {
    if !(Truthy(s.active) && s.active.value in s.playlists) {
      var pid := s.active.value;
      assert pid in s.order;
    }
  }

  /** In a well-formed store `get_active` fails exactly when there is no playlist. */
  lemma GetActiveFailsOnlyWhenEmpty(s: Store)
    requires Valid(s)
    ensures GetActiveOf(s).0.Err? <==> s.playlists == map[]
  {
    if s.playlists != map[] {
      var pid :| pid in s.playlists;
      assert pid in s.order;
      assert s.order[0] in s.order;
    }
  }

  /** `set_active`: only a known id becomes active. */
  function SetActiveOf(s: Store, pid: string): Store {
    if pid in s.playlists then s.(active := Some(pid)) else s
  }

  // ---------- create / rename / duplicate ----------

  /** `create_playlist` with `pid` for the fresh uuid. */
  function CreateOf(s: Store, pid: string, name: string, items: seq<string>): Store {
    var pl := Playlist(pid, Strip(if name == "" then NewPlaylistName else name), items);
    s.(playlists := s.playlists[pid := pl], order := s.order + [pid], active := Some(pid))
  }

  /** A created playlist is the active one, last in the order, with a
      trimmed name and the given items; the old playlists are untouched. */
  lemma CreateKeepsReady(s: Store, pid: string, name: string, items: seq<string>)
    requires pid !in s.playlists && pid !in s.order
    ensures var t := CreateOf(s, pid, name, items);
      (Valid(s) ==> Ready(t)) && (Distinct(s.order) ==> Distinct(t.order)) &&
      t.order[|t.order| - 1] == pid && t.active == Some(pid) &&
      Strip(t.playlists[pid].name) == t.playlists[pid].name && t.playlists[pid].items == items &&
      forall q | q in s.playlists :: q in t.playlists && t.playlists[q] == s.playlists[q]
  {
    var t := CreateOf(s, pid, name, items);
    StripTwice(if name == "" then NewPlaylistName else name);
    assert pid in t.playlists;
    if Valid(s) {
      CreateKeepsValid(s, pid, name, items);
    }
    if Distinct(s.order) {
      forall i, j | 0 <= i < j < |t.order|
        ensures t.order[i] != t.order[j]
      {
        assert t.order[i] == s.order[i] && s.order[i] in s.order;
        if j < |s.order| {
          assert t.order[j] == s.order[j];
        }
      }
    }
  }

  lemma CreateKeepsValid(s: Store, pid: string, name: string, items: seq<string>)
    requires pid !in s.playlists && Valid(s)
    ensures Valid(CreateOf(s, pid, name, items))
  {
    var t := CreateOf(s, pid, name, items);
    assert forall q | q in t.order :: q in s.order || q == pid;
  }

  /** `rename_playlist`: an empty new name keeps the old one; either is trimmed. */
  function RenameOf(s: Store, pid: string, newName: string): Store {
    if pid !in s.playlists then s else
      var pl := s.playlists[pid];
      s.(playlists := s.playlists[pid := pl.(name := Strip(if newName == "" then pl.name else newName))])
  }

  /** `duplicate_playlist` with `newPid` for the fresh uuid: None and no change
      for an unknown id. */
  function DuplicateOf(s: Store, pid: string, newPid: string): (Option<string>, Store) {
    if pid !in s.playlists then (None, s) else
      var pl := s.playlists[pid];
      (Some(newPid), CreateOf(s, newPid, pl.name + CopySuffix, pl.items))
  }

  /** A duplicate copies the items under a new id and leaves the original as it was. */
  lemma DuplicateCopies(s: Store, pid: string, newPid: string)
    requires Valid(s) && pid in s.playlists && newPid !in s.playlists && newPid !in s.order
    ensures var (r, t) := DuplicateOf(s, pid, newPid);
      r == Some(newPid) && Ready(t) && t.playlists[pid] == s.playlists[pid] &&
      t.playlists[newPid].items == s.playlists[pid].items && |t.order| == |s.order| + 1
  {
    var pl := s.playlists[pid];
    CreateKeepsReady(s, newPid, pl.name + CopySuffix, pl.items);
  }

  // ---------- delete ----------

  /** `delete_playlist`: an unknown id, or an order of at most one entry,
      changes nothing; otherwise the playlist goes, its id leaves the order
      and, when it was active, the first remaining id becomes active. */
  function DeleteOf(s: Store, pid: string): Store {
    if pid !in s.playlists || |s.order| <= 1 then s else
      var order := Without(s.order, pid);
      s.(playlists := s.playlists - {pid}, order := order,
         active := if s.active == Some(pid) then (if order != [] then Some(order[0]) else None) else s.active)
  }

  lemma DeleteKeepsValid(s: Store, pid: string)
    requires Valid(s)
    ensures Valid(DeleteOf(s, pid))
    ensures pid in s.playlists && |s.order| > 1 ==> pid !in DeleteOf(s, pid).playlists
  {
    WithoutSpec(s.order, pid);
  }

  /** With no id repeated in the order, deleting never removes the last
      playlist and always leaves a known active one. */
  lemma DeleteKeepsReady(s: Store, pid: string)
    requires Ready(s) && Distinct(s.order)
    ensures Ready(DeleteOf(s, pid)) && Distinct(DeleteOf(s, pid).order)
  {
    WithoutSpec(s.order, pid);
    if pid in s.playlists && |s.order| > 1 {
      var other := if s.order[0] != pid then s.order[0] else s.order[1];
      assert other in s.order && other != pid;
      var t := DeleteOf(s, pid);
      assert other in t.order;
      assert t.order[0] in t.order;
    }
  }

  /** A repeated id in a hand-edited order defeats the "keep one playlist"
      guard: deleting the only playlist empties the store and clears the
      active id. */
  lemma DeleteWithRepeatedIdEmpties()
    ensures var s := Store(SchemaVersion, Some("a"), ["a", "a"], map["a" := Playlist("a", DefaultSetName, [])]);
      var t := DeleteOf(s, "a");
      Ready(s) && t.playlists == map[] && t.order == [] && t.active == None
  {
    var s := Store(SchemaVersion, Some("a"), ["a", "a"], map["a" := Playlist("a", DefaultSetName, [])]);
    assert s.order[..1] == ["a"] && ["a"][..0] == [];
    assert Without(s.order, "a") == [];
  }

  // ---------- items ----------

  /** `set_items` on a known id. */
  function SetItemsOf(s: Store, pid: string, items: seq<string>): Store {
    if pid !in s.playlists then s else
      s.(playlists := s.playlists[pid := s.playlists[pid].(items := items)])
  }

  /** The items whose position is not in `drop`, in order. */
  function Keep(items: seq<string>, drop: set<int>): seq<string> {
    if items == [] then [] else
      var n := |items| - 1;
      Keep(items[..n], drop) + (if n in drop then [] else [items[n]])
  }

  /** The positions below `n` that are not in `drop`, ascending. */
  function KeptIndices(n: nat, drop: set<int>): seq<nat> {
    if n == 0 then [] else KeptIndices(n - 1, drop) + (if n - 1 in drop then [] else [n - 1])
  }

  /** The kept positions are exactly those below `n` not dropped, ascending. */
  lemma {:induction false} KeptIndicesSpec(n: nat, drop: set<int>)
    ensures var k := KeptIndices(n, drop);
      (forall i: nat :: i in k <==> i < n && i !in drop) &&
      (forall a, b | 0 <= a < b < |k| :: k[a] < k[b])
  {
    if n > 0 {
      KeptIndicesSpec(n - 1, drop);
      var k := KeptIndices(n - 1, drop);
      forall a | 0 <= a < |k|
        ensures k[a] < n - 1
      {
        assert k[a] in k;
      }
    }
  }

  lemma {:induction false} KeepAt(items: seq<string>, drop: set<int>)
    ensures var k := KeptIndices(|items|, drop);
      |Keep(items, drop)| == |k| &&
      forall j | 0 <= j < |k| :: k[j] < |items| && Keep(items, drop)[j] == items[k[j]]
  {
    if items != [] {
      var n := |items| - 1;
      KeepAt(items[..n], drop);
      var k := KeptIndices(n, drop);
      assert forall j | 0 <= j < |k| :: k[j] < n && Keep(items[..n], drop)[j] == items[k[j]];
    }
  }

  /** `Keep` is the items at the kept positions: exactly the positions not
      dropped, ascending. */
  lemma KeepSpec(items: seq<string>, drop: set<int>)
    ensures var k := KeptIndices(|items|, drop);
      var r := Keep(items, drop);
      |r| == |k| &&
      (forall j | 0 <= j < |k| :: k[j] < |items| && r[j] == items[k[j]]) &&
      (forall i: nat :: i in k <==> i < |items| && i !in drop) &&
      (forall a, b | 0 <= a < b < |k| :: k[a] < k[b])
  {
    KeptIndicesSpec(|items|, drop);
    KeepAt(items, drop);
  }

  /** `remove_items_by_index` on a known id; indices outside the list are ignored. */
  function RemoveItemsOf(s: Store, pid: string, indices: seq<int>): Store {
    if pid !in s.playlists then s else
      var pl := s.playlists[pid];
      s.(playlists := s.playlists[pid := pl.(items := Keep(pl.items, set i | i in indices))])
  }

  /** `t` differs from `s` in playlist names and items at most. */
  predicate SameShape(s: Store, t: Store) {
    t.order == s.order && t.active == s.active && t.playlists.Keys == s.playlists.Keys &&
    forall pid | pid in t.playlists :: t.playlists[pid].playlistId == s.playlists[pid].playlistId
  }

  lemma SameShapeReady(s: Store, t: Store)
    requires Ready(s) && SameShape(s, t)
    ensures Ready(t)
  {
    assert s.active.value in t.playlists;
  }

  /** Renaming and editing items keep a ready store ready and touch only
      the names and items; switching the active playlist keeps it ready and
      touches only the active id. */
  lemma EditsKeepReady(s: Store, pid: string, newName: string, items: seq<string>, indices: seq<int>, active: string)
    requires Ready(s)
    ensures SameShape(s, RenameOf(s, pid, newName)) && Ready(RenameOf(s, pid, newName))
    ensures SameShape(s, SetItemsOf(s, pid, items)) && Ready(SetItemsOf(s, pid, items))
    ensures SameShape(s, RemoveItemsOf(s, pid, indices)) && Ready(RemoveItemsOf(s, pid, indices))
    ensures Ready(SetActiveOf(s, active)) && SetActiveOf(s, active) == s.(active := SetActiveOf(s, active).active)
  {
    EditShape(s, pid, RenameOf(s, pid, newName));
    EditShape(s, pid, SetItemsOf(s, pid, items));
    EditShape(s, pid, RemoveItemsOf(s, pid, indices));
  }

  /** Replacing one playlist's name or items, or nothing, keeps the shape. */
  lemma EditShape(s: Store, pid: string, t: Store)
    requires Ready(s)
    requires t == s || (pid in s.playlists && t.order == s.order && t.active == s.active &&
      exists name, items :: t.playlists == s.playlists[pid := s.playlists[pid].(name := name, items := items)])
    ensures SameShape(s, t) && Ready(t)
  {
    if t != s {
      var name, items :| t.playlists == s.playlists[pid := s.playlists[pid].(name := name, items := items)];
    }
    SameShapeReady(s, t);
  }

  // ---------- init ----------

  /** `_init_default` with `pid` for the fresh uuid. */
  function InitDefaultOf(s: Store, pid: string): Store {
    s.(playlists := map[pid := Playlist(pid, DefaultSetName, [])], order := [pid], active := Some(pid))
  }

  /** The names of the songs, in order. */
  function Names(alpha: seq<Path>): (r: seq<string>)
    ensures |r| == |alpha|
  {
    if alpha == [] then [] else Names(alpha[..|alpha| - 1]) + [Name(alpha[|alpha| - 1])]
  }

  /** The entries of `xs` that are in `names`, in order. */
  function FilterIn(xs: seq<string>, names: set<string>): seq<string> {
    if xs == [] then [] else
      var n := |xs| - 1;
      FilterIn(xs[..n], names) + (if xs[n] in names then [xs[n]] else [])
  }

  /** The items `_init_from_legacy_setlist` puts in the default playlist: the
      legacy setlist entries naming a song when the setlist has entries,
      else every song name alphabetically. */
  function LegacyItems(legacy: Option<seq<string>>, alpha: seq<Path>): seq<string> {
    if legacy.Some? && legacy.value != [] then FilterIn(legacy.value, set p | p in alpha :: Name(p))
    else Names(alpha)
  }

  lemma {:induction false} NamesSpec(alpha: seq<Path>, x: string)
    ensures x in Names(alpha) <==> exists p :: p in alpha && Name(p) == x
  {
    if alpha != [] {
      var n := |alpha| - 1;
      NamesSpec(alpha[..n], x);
      assert alpha == alpha[..n] + [alpha[n]];
    }
  }

  lemma {:induction false} FilterInSpec(xs: seq<string>, names: set<string>, x: string)
    ensures x in FilterIn(xs, names) <==> x in xs && x in names
    ensures |FilterIn(xs, names)| <= |xs|
  {
    if xs != [] {
      var n := |xs| - 1;
      FilterInSpec(xs[..n], names, x);
      assert xs == xs[..n] + [xs[n]];
    }
  }

  /** Every migrated item names a found song; with a non-empty legacy
      setlist the items are the entries that do, else all songs are in. */
  lemma LegacyItemsSpec(legacy: Option<seq<string>>, alpha: seq<Path>, x: string)
    ensures x in LegacyItems(legacy, alpha) <==>
      (exists p :: p in alpha && Name(p) == x) && (legacy.Some? && legacy.value != [] ==> x in legacy.value)
  {
    NamesSpec(alpha, x);
    if legacy.Some? && legacy.value != [] {
      FilterInSpec(legacy.value, set p | p in alpha :: Name(p), x);
    }
  }

  /** `_init_from_legacy_setlist` with `pid` for the fresh uuid, given what
      `read_setlist` and `list_song_files_alpha` return. */
  function InitFromLegacyOf(s: Store, pid: string, legacy: Option<seq<string>>, alpha: seq<Path>): Store {
    WithDefaultItems(InitDefaultOf(s, pid), pid, LegacyItems(legacy, alpha))
  }

  /** The default playlist `pid` given `items`. */
  function WithDefaultItems(s: Store, pid: string, items: seq<string>): Store
    requires pid in s.playlists
  {
    s.(playlists := s.playlists[pid := s.playlists[pid].(items := items)])
  }

  // ---------- _load ----------

  /** A playlist as found in the file; None stands for a missing, null or empty value. */
  datatype RawPlaylist = RawPlaylist(name: Option<string>, items: Option<seq<string>>)

  /** The file's top-level object; `playlists` lists its entries in file order. */
  datatype RawStore = RawStore(version: Option<int>, active: Option<string>, order: Option<seq<string>>,
                               playlists: seq<(string, RawPlaylist)>)

  /** `int(raw.get("version") or 1)`: missing or 0 reads as 1. */
  function VersionOf(v: Option<int>): int {
    if v.None? || v.value == 0 then 1 else v.value
  }

  function FromRaw(pid: string, p: RawPlaylist): Playlist {
    Playlist(pid, if p.name.None? || p.name.value == "" then UnnamedName else p.name.value, p.items.GetOr([]))
  }

  /** The loaded playlists; a later entry under the same id replaces an earlier one. */
  function LoadedPlaylists(pls: seq<(string, RawPlaylist)>): map<string, Playlist> {
    if pls == [] then map[] else
      var n := |pls| - 1;
      LoadedPlaylists(pls[..n])[pls[n].0 := FromRaw(pls[n].0, pls[n].1)]
  }

  function Ids(pls: seq<(string, RawPlaylist)>): (r: seq<string>)
    ensures |r| == |pls| && forall i | 0 <= i < |pls| :: r[i] == pls[i].0
  {
    seq(|pls|, i requires 0 <= i < |pls| => pls[i].0)
  }

  /** `order` with each id of `ids` it lacks appended, in turn. */
  function AppendMissing(order: seq<string>, ids: seq<string>): seq<string> {
    if ids == [] then order else
      var n := |ids| - 1;
      var o := AppendMissing(order, ids[..n]);
      if ids[n] in o then o else o + [ids[n]]
  }

  /** `_load`: the fields read with their defaults, the order repaired to
      list every playlist and only those. */
  function LoadOf(raw: RawStore): Store {
    var playlists := LoadedPlaylists(raw.playlists);
    var order := AppendMissing(raw.order.GetOr([]), Ids(raw.playlists));
    Store(VersionOf(raw.version), raw.active, KeepKnown(order, playlists), playlists)
  }

  lemma {:induction false} LoadedPlaylistsSpec(pls: seq<(string, RawPlaylist)>)
    ensures forall pid :: pid in LoadedPlaylists(pls) <==> pid in Ids(pls)
    ensures forall pid | pid in LoadedPlaylists(pls) :: LoadedPlaylists(pls)[pid].playlistId == pid
  {
    if pls != [] {
      var n := |pls| - 1;
      LoadedPlaylistsSpec(pls[..n]);
      assert Ids(pls) == Ids(pls[..n]) + [pls[n].0];
    }
  }

  lemma {:induction false} AppendMissingSpec(order: seq<string>, ids: seq<string>)
    ensures forall x :: x in AppendMissing(order, ids) <==> x in order || x in ids
    ensures order <= AppendMissing(order, ids)
    ensures Distinct(order) ==> Distinct(AppendMissing(order, ids))
  {
    if ids != [] {
      var n := |ids| - 1;
      AppendMissingSpec(order, ids[..n]);
      assert ids == ids[..n] + [ids[n]];
    }
  }

  /** A loaded store is well formed, keeps the saved order of the known ids
      as its prefix, and repeats no id the saved order did not repeat. */
  lemma LoadSpec(raw: RawStore)
    ensures var s := LoadOf(raw);
      Valid(s) && KeepKnown(raw.order.GetOr([]), s.playlists) <= s.order &&
      (Distinct(raw.order.GetOr([])) ==> Distinct(s.order))
  {
    LoadValid(raw);
    var playlists := LoadedPlaylists(raw.playlists);
    var saved := raw.order.GetOr([]);
    var order := AppendMissing(saved, Ids(raw.playlists));
    AppendMissingSpec(saved, Ids(raw.playlists));
    KeepKnownSpec(order, playlists);
    KeepKnownAppend(saved, order[|saved|..], playlists);
    assert saved + order[|saved|..] == order;
  }

  lemma LoadValid(raw: RawStore)
    ensures Valid(LoadOf(raw))
  {
    var playlists := LoadedPlaylists(raw.playlists);
    var order := AppendMissing(raw.order.GetOr([]), Ids(raw.playlists));
    LoadedPlaylistsSpec(raw.playlists);
    AppendMissingSpec(raw.order.GetOr([]), Ids(raw.playlists));
    KeepKnownSpec(order, playlists);
  }

  // ---------- load_or_init ----------

  /** What `load_or_init` does after loading: a default playlist when the
      order or the playlists came out empty, then the first ordered id made
      active unless the active id is set and known; with the states saved
      along the way. */
  function EnsureReadyOf(l: Store, pid: string): (Store, seq<Store>) {
    var d := if l.order == [] || l.playlists == map[] then InitDefaultOf(l, pid) else l;
    var w := if l.order == [] || l.playlists == map[] then [Written(d)] else [];
    if !Truthy(d.active) || d.active.value !in d.playlists then
      var t := d.(active := Some(d.order[0]));
      (t, w + [Written(t)])
    else (d, w)
  }

  /** `load_or_init`: the state it leaves and the states it saves, in turn.
      `raw` is the file's content when it exists; `pid` is the uuid a
      default playlist gets; `legacy` and `alpha` are what the legacy
      migration reads. */
  function LoadOrInitOf(s: Store, raw: Option<RawStore>, pid: string, legacy: Option<seq<string>>, alpha: seq<Path>)
    : (Store, seq<Store>)
  {
    if raw.None? then
      var t := InitFromLegacyOf(s, pid, legacy, alpha);
      (t, [Written(t)])
    else EnsureReadyOf(LoadOf(raw.value), pid)
  }

  /** The repairs make any well-formed store ready, saving at most twice. */
  lemma EnsureReadyOfReady(l: Store, pid: string)
    requires Valid(l)
    ensures var (t, w) := EnsureReadyOf(l, pid);
      Ready(t) && |w| <= 2 && t.order != [] &&
      forall i | 0 <= i < |w| :: w[i].version == SchemaVersion
  {
    if l.order != [] && l.playlists != map[] {
      assert l.order[0] in l.order;
    } else {
      var d := InitDefaultOf(l, pid);
      assert d.order == [pid] && d.playlists.Keys == {pid};
      assert Valid(d);
    }
  }

  /** Whatever well-formed store the file held, `load_or_init` leaves a ready store, and
      every state it saves is under the current schema version. */
  lemma LoadOrInitReady(s: Store, raw: Option<RawStore>, pid: string, legacy: Option<seq<string>>, alpha: seq<Path>)
    ensures var (t, w) := LoadOrInitOf(s, raw, pid, legacy, alpha);
      Ready(t) && |w| <= 2 && (raw.None? ==> |w| == 1) &&
      forall i | 0 <= i < |w| :: w[i].version == SchemaVersion
  {
    if raw.Some? {
      LoadSpec(raw.value);
      EnsureReadyOfReady(LoadOf(raw.value), pid);
    } else {
      var t := InitFromLegacyOf(s, pid, legacy, alpha);
      assert t.order == [pid] && t.playlists.Keys == {pid};
      assert Valid(t);
    }
  }

  // ---------- the store object ----------

  class PlaylistStore {
    const songsDir: Path
    /** The setlist file name from the config, "setlist.txt" by default. */
    const setlistName: string
    var version: int
    var activePlaylistId: Option<string>
    var playlistOrder: seq<string>
    var playlists: map<string, Playlist>
    /** What each `save` wrote, oldest first. */
    var saved: seq<Store>

    function State(): Store
      reads this
    {
      Store(version, activePlaylistId, playlistOrder, playlists)
    }

    constructor(songsDir: Path, setlistFilename: Option<string>)
      ensures this.songsDir == songsDir
      ensures setlistName == setlistFilename.GetOr(Songs.DefaultSetlistName)
      ensures State() == Store(SchemaVersion, None, [], map[]) && saved == []
    {
      this.songsDir := songsDir;
      setlistName := setlistFilename.GetOr(Songs.DefaultSetlistName);
      version := SchemaVersion;
      activePlaylistId := None;
      playlistOrder := [];
      playlists := map[];
      saved := [];
    }

    method Save()
      modifies this
      ensures State() == old(State()) && saved == old(saved) + [Written(State())]
    {
      saved := saved + [Written(State())];
    }

    method ListPlaylists() returns (r: seq<Playlist>)
      ensures r == ListedOf(playlistOrder, playlists)
    {
      r := [];
      var i := 0;
      while i < |playlistOrder|
        invariant i <= |playlistOrder|
        invariant r == ListedOf(playlistOrder[..i], playlists)
      {
        assert playlistOrder[..i + 1][..i] == playlistOrder[..i];
        var pid := playlistOrder[i];
        if pid in playlists {
          r := r + [playlists[pid]];
        }
        i := i + 1;
      }
      assert playlistOrder[..i] == playlistOrder;
    }

    method GetActive() returns (r: Result<Playlist>)
      modifies this
      ensures (r, State()) == GetActiveOf(old(State())) && saved == old(saved)
    {
      if Truthy(activePlaylistId) && activePlaylistId.value in playlists {
        return Ok(playlists[activePlaylistId.value]);
      }
      if playlistOrder == [] {
        return Err(IndexErrorMsg);
      }
      var first := playlistOrder[0];
      activePlaylistId := Some(first);
      if first !in playlists {
        return Err(KeyErrorMsg);
      }
      r := Ok(playlists[first]);
    }

    method SetActive(pid: string)
      modifies this
      ensures State() == SetActiveOf(old(State()), pid)
      ensures saved == old(saved) + (if pid in old(playlists) then [Written(State())] else [])
    {
      if pid in playlists {
        activePlaylistId := Some(pid);
        Save();
      }
    }

    /** `pid` is the fresh uuid the source draws. */
    method CreatePlaylist(pid: string, name: string, items: seq<string>) returns (r: string)
      requires pid !in playlists && pid !in playlistOrder
      modifies this
      ensures r == pid
      ensures State() == CreateOf(old(State()), pid, name, items) && saved == old(saved) + [Written(State())]
    {
      var pl := Playlist(pid, Strip(if name == "" then NewPlaylistName else name), items);
      playlists := playlists[pid := pl];
      playlistOrder := playlistOrder + [pid];
      activePlaylistId := Some(pid);
      Save();
      r := pid;
    }

    method RenamePlaylist(pid: string, newName: string)
      modifies this
      ensures State() == RenameOf(old(State()), pid, newName)
      ensures saved == old(saved) + (if pid in old(playlists) then [Written(State())] else [])
    {
      if pid !in playlists {
        return;
      }
      var pl := playlists[pid];
      playlists := playlists[pid := pl.(name := Strip(if newName == "" then pl.name else newName))];
      Save();
    }

    /** `newPid` is the fresh uuid the source draws. */
    method DuplicatePlaylist(pid: string, newPid: string) returns (r: Option<string>)
      requires newPid !in playlists && newPid !in playlistOrder
      modifies this
      ensures (r, State()) == DuplicateOf(old(State()), pid, newPid)
      ensures saved == old(saved) + (if pid in old(playlists) then [Written(State())] else [])
    {
      if pid !in playlists {
        return None;
      }
      var pl := playlists[pid];
      var id := CreatePlaylist(newPid, pl.name + CopySuffix, pl.items);
      r := Some(id);
    }

    method DeletePlaylist(pid: string)
      modifies this
      ensures State() == DeleteOf(old(State()), pid)
      ensures saved == old(saved) + (if pid in old(playlists) && |old(playlistOrder)| > 1 then [Written(State())] else [])
    {
      if pid !in playlists || |playlistOrder| <= 1 {
        return;
      }
      playlists := playlists - {pid};
      playlistOrder := Without(playlistOrder, pid);
      if activePlaylistId == Some(pid) {
        activePlaylistId := if playlistOrder != [] then Some(playlistOrder[0]) else None;
      }
      Save();
    }

    method SetItems(pid: string, items: seq<string>)
      modifies this
      ensures State() == SetItemsOf(old(State()), pid, items)
      ensures saved == old(saved) + (if pid in old(playlists) then [Written(State())] else [])
    {
      if pid !in playlists {
        return;
      }
      playlists := playlists[pid := playlists[pid].(items := items)];
      Save();
    }

    method RemoveItemsByIndex(pid: string, indices: seq<int>)
      modifies this
      ensures State() == RemoveItemsOf(old(State()), pid, indices)
      ensures saved == old(saved) + (if pid in old(playlists) then [Written(State())] else [])
    {
      if pid !in playlists {
        return;
      }
      var pl := playlists[pid];
      var drop := set i | i in indices;
      var keep: seq<string> := [];
      var i := 0;
      while i < |pl.items|
        invariant i <= |pl.items|
        invariant keep == Keep(pl.items[..i], drop)
      {
        assert pl.items[..i + 1][..i] == pl.items[..i];
        if i !in drop {
          keep := keep + [pl.items[i]];
        }
        i := i + 1;
      }
      assert pl.items[..i] == pl.items;
      playlists := playlists[pid := pl.(items := keep)];
      Save();
    }

    /** `pid` is the fresh uuid the source draws. */
    method InitDefault(pid: string)
      modifies this
      ensures State() == InitDefaultOf(old(State()), pid) && saved == old(saved)
    {
      playlists := map[pid := Playlist(pid, DefaultSetName, [])];
      playlistOrder := [pid];
      activePlaylistId := Some(pid);
    }

    /** The items the legacy migration keeps: reads the setlist file and
        lists the songs folder; `listing` is what iterating that folder yields. */
    method LegacySetlistItems(fs: Fs, listing: seq<string>) returns (items: seq<string>)
      requires Exists(fs, songsDir) ==> IsDir(fs, songsDir)
      requires Exists(fs, Songs.JoinText(songsDir, setlistName)) ==> IsFile(fs, Songs.JoinText(songsDir, setlistName))
      ensures items == LegacyItems(Songs.ReadSetlist(Songs.SetlistText(fs, songsDir, setlistName)),
                                   Songs.Alpha(fs, songsDir, listing, setlistName))
    {
      var legacy := Songs.ReadSetlistFile(fs, songsDir, setlistName);
      var alpha := Songs.ListSongFilesAlphaFromRoots(fs, [songsDir], [listing], setlistName);
      items := LegacyItems(legacy, alpha);
    }

    /** `listing` is what iterating the songs folder yields. */
    method InitFromLegacySetlist(pid: string, fs: Fs, listing: seq<string>)
      requires Exists(fs, songsDir) ==> IsDir(fs, songsDir)
      requires Exists(fs, Songs.JoinText(songsDir, setlistName)) ==> IsFile(fs, Songs.JoinText(songsDir, setlistName))
      modifies this
      ensures State() == InitFromLegacyOf(old(State()), pid,
        Songs.ReadSetlist(Songs.SetlistText(fs, songsDir, setlistName)), Songs.Alpha(fs, songsDir, listing, setlistName))
      ensures saved == old(saved)
    {
      InitDefault(pid);
      var items := LegacySetlistItems(fs, listing);
      SetDefaultItems(pid, items);
    }

    method SetDefaultItems(pid: string, items: seq<string>)
      requires pid in playlists
      modifies this
      ensures State() == WithDefaultItems(old(State()), pid, items) && saved == old(saved)
    {
      playlists := playlists[pid := playlists[pid].(items := items)];
    }

    method Load(raw: RawStore)
      modifies this
      ensures State() == LoadOf(raw) && saved == old(saved)
    {
      var pls := raw.playlists;
      var loaded: map<string, Playlist> := map[];
      assert pls[..0] == [];
      var i := 0;
      while i < |pls|
        invariant i <= |pls|
        invariant loaded == LoadedPlaylists(pls[..i])
      {
        assert pls[..i + 1][..i] == pls[..i];
        loaded := loaded[pls[i].0 := FromRaw(pls[i].0, pls[i].1)];
        i := i + 1;
      }
      assert pls[..i] == pls;
      var ids := Ids(pls);
      var order := raw.order.GetOr([]);
      assert ids[..0] == [];
      var j := 0;
      while j < |ids|
        invariant j <= |ids|
        invariant order == AppendMissing(raw.order.GetOr([]), ids[..j])
      {
        assert ids[..j + 1][..j] == ids[..j];
        if ids[j] !in order {
          order := order + [ids[j]];
        }
        j := j + 1;
      }
      assert ids[..j] == ids;
      version := VersionOf(raw.version);
      activePlaylistId := raw.active;
      playlists := loaded;
      playlistOrder := KeepKnown(order, loaded);
    }

    /** `pid` is the uuid a default playlist gets. */
    method EnsureReady(pid: string)
      modifies this
      ensures State() == EnsureReadyOf(old(State()), pid).0
      ensures saved == old(saved) + EnsureReadyOf(old(State()), pid).1
    {
      if playlistOrder == [] || playlists == map[] {
        InitDefault(pid);
        Save();
      }
      if !Truthy(activePlaylistId) || activePlaylistId.value !in playlists {
        activePlaylistId := Some(playlistOrder[0]);
        Save();
      }
    }

    /** `raw` is the file's content when it exists; `pid` is the uuid a
        default playlist gets; `listing` is what iterating the songs folder yields. */
    method LoadOrInit(raw: Option<RawStore>, pid: string, fs: Fs, listing: seq<string>)
      requires Exists(fs, songsDir) ==> IsDir(fs, songsDir)
      requires Exists(fs, Songs.JoinText(songsDir, setlistName)) ==> IsFile(fs, Songs.JoinText(songsDir, setlistName))
      modifies this
      ensures var (t, w) := LoadOrInitOf(old(State()), raw, pid,
          Songs.ReadSetlist(Songs.SetlistText(fs, songsDir, setlistName)), Songs.Alpha(fs, songsDir, listing, setlistName));
        State() == t && saved == old(saved) + w
      ensures Ready(State())
    {
      ghost var s0 := State();
      ghost var legacy := Songs.ReadSetlist(Songs.SetlistText(fs, songsDir, setlistName));
      ghost var alpha := Songs.Alpha(fs, songsDir, listing, setlistName);
      LoadOrInitReady(s0, raw, pid, legacy, alpha);
      if raw.Some? {
        Load(raw.value);
        EnsureReady(pid);
        return;
      }
      InitFromLegacySetlist(pid, fs, listing);
      Save();
    }
  }
}
