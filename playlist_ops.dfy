/** The playlist editor's list operations (app/ui_playlist_ops.py). The list
    widget shows the active playlist: each row stores a song path, and one row
    may be current. Moving a row rewrites the widget in place; the playlist
    store then takes the rows' base names as the playlist's new order.
    Refreshing the lists and loading a song are the caller's: an operation
    says whether it asked for them. */
module PlaylistOps {
  import opened Wrappers
  import opened Strings
  import opened Paths
  import opened PlaylistsStore

  // ---------- positions ----------

  /** `s` without the element at `i`. */
  function Removed<T>(s: seq<T>, i: nat): (r: seq<T>)
    requires i < |s|
    ensures |r| == |s| - 1
    ensures forall k :: 0 <= k < i ==> r[k] == s[k]
    ensures forall k :: i <= k < |r| ==> r[k] == s[k + 1]
  {
    s[..i] + s[i + 1..]
  }

  /** `it = takeItem(from)` then `insertItem(to, it)`: the element at `from`
      ends at `to`, and the others keep their order. */
  function Moved<T>(s: seq<T>, from: nat, to: nat): (r: seq<T>)
    requires from < |s| && to < |s|
    ensures |r| == |s| && r[to] == s[from]
    ensures Removed(r, to) == Removed(s, from)
  {
    var rest := Removed(s, from);
    var r := rest[..to] + [s[from]] + rest[to..];
    assert r[..to] == rest[..to] && r[to + 1..] == rest[to..];
    assert rest[..to] + rest[to..] == rest;
    r
  }

  /** A move is a permutation. */
  lemma MovedPermutes<T>(s: seq<T>, from: nat, to: nat)
    requires from < |s| && to < |s|
    ensures multiset(Moved(s, from, to)) == multiset(s)
  {
    var rest := Removed(s, from);
    var r := Moved(s, from, to);
    assert s == s[..from] + [s[from]] + s[from + 1..];
    assert multiset(s) == multiset(rest) + multiset{s[from]};
    assert r == r[..to] + [r[to]] + r[to + 1..];
    assert multiset(r) == multiset(Removed(r, to)) + multiset{r[to]};
  }

  /** Moving an element back where it came from restores the list, and a move
      onto its own place changes nothing. */
  lemma MovedBack<T>(s: seq<T>, from: nat, to: nat)
    requires from < |s| && to < |s|
    ensures Moved(Moved(s, from, to), to, from) == s
    ensures Moved(s, from, from) == s
  {
    var rest := Removed(s, from);
    assert rest[..from] + [s[from]] + rest[from..] == s by {
      assert rest[..from] == s[..from] && rest[from..] == s[from + 1..];
      assert s == s[..from] + [s[from]] + s[from + 1..];
    }
  }

  // ---------- base names ----------

  /** `Path(p).name`. */
  function BaseName(p: string): string {
    Name(Segments(p))
  }

  /** The base names of the rows' paths, in row order. */
  function BaseNames(paths: seq<string>): (r: seq<string>)
    ensures |r| == |paths|
    ensures forall i :: 0 <= i < |paths| ==> r[i] == BaseName(paths[i])
  {
    seq(|paths|, i requires 0 <= i < |paths| => BaseName(paths[i]))
  }

  /** Taking base names and moving a row commute, so the persisted order is
      the old order with the same move. */
  lemma BaseNamesMoved(paths: seq<string>, from: nat, to: nat)
    requires from < |paths| && to < |paths|
    ensures BaseNames(Moved(paths, from, to)) == Moved(BaseNames(paths), from, to)
  {
    var a := BaseNames(Moved(paths, from, to));
    var b := Moved(BaseNames(paths), from, to);
    var m := Moved(paths, from, to);
    var rp := Removed(paths, from);
    var rn := Removed(BaseNames(paths), from);
    assert |rp| == |rn|;
    forall k | 0 <= k < |rp|
      ensures rn[k] == BaseName(rp[k])
    {
      if k < from {
        assert rn[k] == BaseNames(paths)[k];
      } else {
        assert rn[k] == BaseNames(paths)[k + 1];
      }
    }
    forall k | 0 <= k < |a|
      ensures a[k] == b[k]
    {
      if k < to {
        assert m[k] == Removed(m, to)[k] == rp[k];
        assert b[k] == Removed(b, to)[k] == rn[k];
      } else if k > to {
        assert m[k] == Removed(m, to)[k - 1] == rp[k - 1];
        assert b[k] == Removed(b, to)[k - 1] == rn[k - 1];
      }
    }
  }

  // ---------- the store's side ----------

  /** `persist_current_playlist_order` on the store: the rows' names become
      the active playlist's items, if a playlist is active. */
  function PersistOf(s: Store, activeId: Option<string>, names: seq<string>): Store {
    if Truthy(activeId) then SetItemsOf(s, activeId.value, names) else s
  }

  /** `filename.lower() in {x.lower() for x in items}`. */
  predicate HasIgnoringCase(items: seq<string>, filename: string) {
    exists k :: 0 <= k < |items| && Lower(items[k]) == Lower(filename)
  }

  /** `add_filename_to_active_playlist(filename, ...)` on the store: whether the
      name was added, or the error `get_active` raised, and the new state. */
  function AddFilenameOf(s: Store, filename: string): (Result<bool>, Store) {
    var (got, t) := GetActiveOf(s);
    if got.Err? then (Err(got.error), t)
    else if HasIgnoringCase(got.value.items, filename) then (Ok(false), t)
    else (Ok(true), SetItemsOf(t, got.value.playlistId, got.value.items + [filename]))
  }

  /** The items of the active playlist of a ready store. */
  function ActiveItems(s: Store): seq<string>
    requires Ready(s)
  {
    s.playlists[s.active.value].items
  }

  /** In a ready store, adding a name appends it to the active playlist
      unless the playlist has it already in some letter case, in which case
      nothing changes; either way the playlist has it afterwards, the store
      stays ready, and no other playlist changes. */
  lemma AddFilenameSpec(s: Store, filename: string)
    requires Ready(s)
    ensures var (r, t) := AddFilenameOf(s, filename);
      var (_, u) := GetActiveOf(s);
      Ready(u) && Ready(t) && r.Ok? && t.active == u.active && t.order == s.order
      && (r.value <==> !HasIgnoringCase(ActiveItems(u), filename))
      && (!r.value ==> t == u)
      && (r.value ==> ActiveItems(t) == ActiveItems(u) + [filename])
      && HasIgnoringCase(ActiveItems(t), filename)
      && (forall pid | pid in s.playlists && pid != u.active.value :: t.playlists[pid] == s.playlists[pid])
  {
    GetActiveReady(s);
    var (got, u) := GetActiveOf(s);
    var pid := u.active.value;
    var items := ActiveItems(u);
    assert got == Ok(u.playlists[pid]) && u.playlists[pid].playlistId == pid;
    if !HasIgnoringCase(items, filename) {
      EditsKeepReady(u, pid, "", items + [filename], [], "");
      assert (items + [filename])[|items|] == filename;
    }
  }

  /** Adding the same name twice is adding it once. */
  lemma AddFilenameIdempotent(s: Store, filename: string)
    requires Ready(s)
    ensures var t := AddFilenameOf(s, filename).1;
      AddFilenameOf(t, filename) == (Ok(false), t)
  {
    AddFilenameSpec(s, filename);
    var t := AddFilenameOf(s, filename).1;
    GetActiveReady(t);
    assert GetActiveOf(t).1 == t by {
      if !Truthy(t.active) {
        assert t.active == Some(s.order[0]);
      }
    }
  }

  /** Removing the row at `row` from a playlist: the other rows stay, in
      order; a row past the end removes nothing. */
  lemma {:induction false} KeepOne(items: seq<string>, row: nat)
    ensures Keep(items, {row}) == if row < |items| then Removed(items, row) else items
  {
    if items != [] {
      var n := |items| - 1;
      KeepOne(items[..n], row);
      assert items[..n] + [items[n]] == items;
      if row < n {
        assert Removed(items[..n], row) + [items[n]] == Removed(items, row);
      }
    }
  }

  /** `remove_items_by_index(pid, [row])` drops exactly the row `row` of that
      playlist, and leaves every other playlist and the order alone. */
  lemma RemoveRowSpec(s: Store, pid: string, row: nat)
    requires pid in s.playlists
    ensures var t := RemoveItemsOf(s, pid, [row]);
      var items := s.playlists[pid].items;
      pid in t.playlists && t.order == s.order && t.active == s.active
      && t.playlists[pid].items == (if row < |items| then Removed(items, row) else items)
      && t.playlists[pid].name == s.playlists[pid].name
      && (forall q | q in s.playlists && q != pid :: q in t.playlists && t.playlists[q] == s.playlists[q])
  {
    assert (set i | i in [row]) == {row};
    KeepOne(s.playlists[pid].items, row);
  }

  // ---------- the list widget ----------

  class PlaylistList {
    /** Each row's stored song path, top to bottom. */
    var paths: seq<string>
    /** `currentRow()`: negative when no row is current. */
    var currentRow: int

    predicate Valid()
      reads this
    {
      currentRow < |paths|
    }

    constructor(paths: seq<string>, currentRow: int)
      requires currentRow < |paths|
      ensures this.paths == paths && this.currentRow == currentRow && Valid()
    {
      this.paths := paths;
      this.currentRow := currentRow;
    }

    /** `persist_current_playlist_order(...)`: with an active playlist, its
        items become the rows' base names, in row order. */
    method PersistOrder(activeId: Option<string>, store: PlaylistStore)
      modifies store
      ensures store.State() == PersistOf(old(store.State()), activeId, BaseNames(paths))
      ensures store.saved == old(store.saved)
        + (if Truthy(activeId) && activeId.value in old(store.playlists) then [Written(store.State())] else [])
    {
      if !Truthy(activeId) {
        return;
      }
      var items: seq<string> := [];
      var i := 0;
      while i < |paths|
        invariant 0 <= i <= |paths|
        invariant items == BaseNames(paths)[..i]
      {
        items := items + [BaseName(paths[i])];
        i := i + 1;
      }
      assert BaseNames(paths)[..i] == BaseNames(paths);
      store.SetItems(activeId.value, items);
    }

    /** `move_selected_item(delta)`, then the persist callback: no current
        row or a target row off the list changes nothing; otherwise the
        current row moves to `row + delta`, becomes current there, and the
        new order is persisted. */
    method MoveSelectedItem(delta: int, activeId: Option<string>, store: PlaylistStore)
      requires Valid()
      modifies this, store
      ensures Valid()
      ensures var row := old(currentRow);
        row < 0 || !(0 <= row + delta < |old(paths)|) ==>
          paths == old(paths) && currentRow == row
          && store.State() == old(store.State()) && store.saved == old(store.saved)
      ensures var row := old(currentRow);
        0 <= row && 0 <= row + delta < |old(paths)| ==>
          paths == Moved(old(paths), row, row + delta) && currentRow == row + delta
          && store.State() == PersistOf(old(store.State()), activeId, BaseNames(paths))
          && store.saved == old(store.saved)
            + (if Truthy(activeId) && activeId.value in old(store.playlists) then [Written(store.State())] else [])
    {
      var row := currentRow;
      if row < 0 {
        return;
      }
      var newRow := row + delta;
      if newRow < 0 || newRow >= |paths| {
        return;
      }
      var it := paths[row];
      var rest := paths[..row] + paths[row + 1..];
      paths := rest[..newRow] + [it] + rest[newRow..];
      currentRow := newRow;
      PersistOrder(activeId, store);
    }

    /** `remove_selected_from_playlist(...)`: with an active playlist and a
        current row, that row is removed from the playlist in the store, and
        the lists are refreshed and a song reloaded (`reloaded`). */
    method RemoveSelected(activeId: Option<string>, store: PlaylistStore) returns (reloaded: bool)
      modifies store
      ensures reloaded <==> Truthy(activeId) && currentRow >= 0
      ensures reloaded ==> store.State() == RemoveItemsOf(old(store.State()), activeId.value, [currentRow])
      ensures !reloaded ==> store.State() == old(store.State()) && store.saved == old(store.saved)
    {
      if !Truthy(activeId) {
        return false;
      }
      var row := currentRow;
      if row < 0 {
        return false;
      }
      store.RemoveItemsByIndex(activeId.value, [row]);
      return true;
    }
  }

  /** `add_filename_to_active_playlist(filename, ...)`: `Ok(true)` when the
      name was appended, `Ok(false)` when the playlist has it already. */
  method AddFilenameToActivePlaylist(store: PlaylistStore, filename: string) returns (r: Result<bool>)
    modifies store
    ensures (r, store.State()) == AddFilenameOf(old(store.State()), filename)
    ensures r != Ok(true) ==> store.saved == old(store.saved)
    ensures r == Ok(true) && Valid(old(store.State())) ==> store.saved == old(store.saved) + [Written(store.State())]
  {
    var got := store.GetActive();
    if got.Err? {
      return Err(got.error);
    }
    var pl := got.value;
    if HasIgnoringCase(pl.items, filename) {
      return Ok(false);
    }
    store.SetItems(pl.playlistId, pl.items + [filename]);
    return Ok(true);
  }
}
