/** The application config: a JSON object of defaults, and the recursive
    merge that lays a user's config over it. A JSON object is an ordered
    list of key/value pairs, so the key order of Python's dicts is kept. */
module Config {
  import opened Wrappers

  datatype Json =
    | JNull
    | JBool(b: bool)
    | JInt(i: int)
    | JNum(literal: string)   // a non-integer number, kept as its literal
    | JStr(s: string)
    | JArr(items: seq<Json>)
    | JObj(fields: seq<(string, Json)>)

  type Fields = seq<(string, Json)>

  const ConfigFileName := "stagepro_config.json"

  /** The keys of an object, in order. */
  function Keys(fs: Fields): (r: seq<string>)
    ensures |r| == |fs|
  {
    if fs == [] then [] else [fs[0].0] + Keys(fs[1..])
  }

  lemma {:induction false} KeysAt(fs: Fields, i: nat)
    requires i < |fs|
    ensures Keys(fs)[i] == fs[i].0
  {
    if i > 0 {
      KeysAt(fs[1..], i - 1);
    }
  }

  predicate NoDup(xs: seq<string>) {
    forall i, j | 0 <= i < j < |xs| :: xs[i] != xs[j]
  }

  /** No key occurs twice, as in a Python dict. */
  predicate DistinctKeys(fs: Fields) {
    NoDup(Keys(fs))
  }

  /** `obj.get(k)`: the value of the first pair with key `k`. */
  function Lookup(fs: Fields, k: string): (r: Option<Json>)
    ensures r.Some? <==> k in Keys(fs)
  {
    if fs == [] then None
    else if fs[0].0 == k then Some(fs[0].1)
    else Lookup(fs[1..], k)
  }

  /** `obj[k] = v`: the first pair with key `k` takes the value in place,
      or the pair goes at the end. */
  function Put(fs: Fields, k: string, v: Json): Fields {
    if fs == [] then [(k, v)]
    else if fs[0].0 == k then [(k, v)] + fs[1..]
    else [fs[0]] + Put(fs[1..], k, v)
  }

  lemma {:induction false} PutKeys(fs: Fields, k: string, v: Json)
    ensures Keys(Put(fs, k, v)) == if k in Keys(fs) then Keys(fs) else Keys(fs) + [k]
  {
    if fs != [] && fs[0].0 != k {
      PutKeys(fs[1..], k, v);
      assert Put(fs, k, v) == [fs[0]] + Put(fs[1..], k, v);
      assert Put(fs, k, v)[1..] == Put(fs[1..], k, v);
    }
  }

  lemma {:induction false} PutLookup(fs: Fields, k: string, v: Json, q: string)
    ensures Lookup(Put(fs, k, v), q) == if q == k then Some(v) else Lookup(fs, q)
  {
    if fs != [] && fs[0].0 != k {
      PutLookup(fs[1..], k, v, q);
      assert Put(fs, k, v)[1..] == Put(fs[1..], k, v);
    } else if fs != [] {
      assert Put(fs, k, v)[1..] == fs[1..];
    }
  }

  lemma PutKeepsDistinct(fs: Fields, k: string, v: Json)
    ensures DistinctKeys(fs) ==> DistinctKeys(Put(fs, k, v))
  {
    PutKeys(fs, k, v);
  }

  /** The loop of `merge_defaults`: `out` after the user pairs from index
      `i` on are laid over it, in order. */
  function MergeFrom(out: Fields, u: Json, i: nat): Fields
    requires u.JObj? && i <= |u.fields|
    decreases u, |u.fields| - i
  {
    if i == |u.fields| then out
    else
      var (k, v) := u.fields[i];
      var cur := Lookup(out, k);
      var w := if v.JObj? && cur.Some? && cur.value.JObj? then JObj(MergeFrom(cur.value.fields, v, 0)) else v;
      MergeFrom(Put(out, k, w), u, i + 1)
  }

  /** `merge_defaults(d, u)`; None stands for a None or missing user config. */
  function MergeDefaults(d: Fields, u: Option<Fields>): Fields {
    if u.None? then d else MergeFrom(d, JObj(u.value), 0)
  }

  /** The merge of the values under one key, as `merge_defaults` leaves it. */
  function MergedValue(cur: Option<Json>, v: Json): Json {
    if v.JObj? && cur.Some? && cur.value.JObj? then JObj(MergeDefaults(cur.value.fields, Some(v.fields))) else v
  }

  /** One step of the merge loop: the value the pair at index `i` leaves. */
  function StepValue(out: Fields, u: Json, i: nat): Json
    requires u.JObj? && i < |u.fields|
    decreases u, |u.fields| - i
  {
    var (k, v) := u.fields[i];
    var cur := Lookup(out, k);
    if v.JObj? && cur.Some? && cur.value.JObj? then JObj(MergeFrom(cur.value.fields, v, 0)) else v
  }

  lemma MergeFromStep(out: Fields, u: Json, i: nat)
    requires u.JObj? && i < |u.fields|
    ensures MergeFrom(out, u, i) == MergeFrom(Put(out, u.fields[i].0, StepValue(out, u, i)), u, i + 1)
  {
  }

  lemma {:induction false} MergeFromKeys(out: Fields, u: Json, i: nat)
    requires u.JObj? && i <= |u.fields|
    ensures forall k :: k in Keys(MergeFrom(out, u, i)) <==> k in Keys(out) || k in Keys(u.fields[i..])
    decreases |u.fields| - i
  {
    if i < |u.fields| {
      var next := Put(out, u.fields[i].0, StepValue(out, u, i));
      MergeFromStep(out, u, i);
      PutKeys(out, u.fields[i].0, StepValue(out, u, i));
      MergeFromKeys(next, u, i + 1);
      assert u.fields[i..][1..] == u.fields[i + 1..];
    }
  }

  lemma {:induction false} MergeFromPrefix(out: Fields, u: Json, i: nat)
    requires u.JObj? && i <= |u.fields|
    ensures Keys(out) <= Keys(MergeFrom(out, u, i))
    decreases |u.fields| - i
  {
    if i < |u.fields| {
      var next := Put(out, u.fields[i].0, StepValue(out, u, i));
      MergeFromStep(out, u, i);
      PutKeys(out, u.fields[i].0, StepValue(out, u, i));
      MergeFromPrefix(next, u, i + 1);
    }
  }

  lemma {:induction false} MergeFromDistinct(out: Fields, u: Json, i: nat)
    requires u.JObj? && i <= |u.fields| && DistinctKeys(out)
    ensures DistinctKeys(MergeFrom(out, u, i))
    decreases |u.fields| - i
  {
    if i < |u.fields| {
      var next := Put(out, u.fields[i].0, StepValue(out, u, i));
      MergeFromStep(out, u, i);
      PutKeepsDistinct(out, u.fields[i].0, StepValue(out, u, i));
      MergeFromDistinct(next, u, i + 1);
    }
  }

  lemma {:induction false} KeysAppend(a: Fields, b: Fields)
    ensures Keys(a + b) == Keys(a) + Keys(b)
  {
    if a != [] {
      KeysAppend(a[1..], b);
      assert (a + b)[0] == a[0] && (a + b)[1..] == a[1..] + b;
    } else {
      assert a + b == b;
    }
  }

  /** In an object without repeated keys, a key does not occur again later. */
  lemma KeyNotLater(fs: Fields, i: nat)
    requires DistinctKeys(fs) && i < |fs|
    ensures fs[i].0 !in Keys(fs[i + 1..])
  {
    var rest := fs[i..];
    KeysAppend(fs[..i], rest);
    assert fs[..i] + rest == fs;
    assert Keys(rest) == [fs[i].0] + Keys(fs[i + 1..]) by {
      assert rest[0] == fs[i] && rest[1..] == fs[i + 1..];
    }
    assert Keys(fs) == Keys(fs[..i]) + [fs[i].0] + Keys(fs[i + 1..]);
    NoDupTail(Keys(fs[..i]), fs[i].0, Keys(fs[i + 1..]));
  }

  /** In a list without repeats, an entry does not occur after itself. */
  lemma NoDupTail(pre: seq<string>, x: string, post: seq<string>)
    requires NoDup(pre + [x] + post)
    ensures x !in post
  {
    var all := pre + [x] + post;
    forall j | 0 <= j < |post|
      ensures post[j] != x
    {
      assert all[|pre|] == x && all[|pre| + 1 + j] == post[j];
    }
  }

  /** The key set of the merge is the union of both key sets, the default
      keys keep their order at the front, and no key is repeated. */
  lemma MergeKeys(d: Fields, u: Option<Fields>)
    ensures var r := MergeDefaults(d, u);
      Keys(d) <= Keys(r) &&
      (forall k :: k in Keys(r) <==> k in Keys(d) || (u.Some? && k in Keys(u.value))) &&
      (DistinctKeys(d) ==> DistinctKeys(r))
  {
    if u.Some? {
      MergeFromKeys(d, JObj(u.value), 0);
      MergeFromPrefix(d, JObj(u.value), 0);
      if DistinctKeys(d) {
        MergeFromDistinct(d, JObj(u.value), 0);
      }
      assert u.value[0..] == u.value;
    }
  }

  lemma {:induction false} MergeFromLookup(out: Fields, u: Json, i: nat, k: string)
    requires u.JObj? && i <= |u.fields| && DistinctKeys(u.fields)
    ensures var r := MergeFrom(out, u, i);
      if k in Keys(u.fields[i..]) then Lookup(r, k) == Some(MergedValue(Lookup(out, k), Lookup(u.fields[i..], k).value))
      else Lookup(r, k) == Lookup(out, k)
    decreases |u.fields| - i
  {
    if i < |u.fields| {
      var (kk, v) := u.fields[i];
      var cur := Lookup(out, kk);
      var w := if v.JObj? && cur.Some? && cur.value.JObj? then JObj(MergeFrom(cur.value.fields, v, 0)) else v;
      PutLookup(out, kk, w, k);
      MergeFromLookup(Put(out, kk, w), u, i + 1, k);
      var rest := u.fields[i..];
      assert Keys(rest) == [kk] + Keys(u.fields[i + 1..]);
      assert rest[0] == (kk, v) && rest[1..] == u.fields[i + 1..];
      if kk == k {
        KeyNotLater(u.fields, i);
        assert u.fields[0..] == u.fields;
      }
    }
  }

  /** Where the user config has a key, the merge holds the recursive merge
      when both values are objects and the user's value otherwise; every
      other key keeps its default. */
  lemma MergeLookup(d: Fields, u: Fields, k: string)
    requires DistinctKeys(u)
    ensures var r := MergeDefaults(d, Some(u));
      if k in Keys(u) then Lookup(r, k) == Some(MergedValue(Lookup(d, k), Lookup(u, k).value))
      else Lookup(r, k) == Lookup(d, k)
  {
    MergeFromLookup(d, JObj(u), 0, k);
    assert u[0..] == u;
  }

  /** An absent or empty user config changes nothing. */
  lemma MergeEmpty(d: Fields)
    ensures MergeDefaults(d, None) == d && MergeDefaults(d, Some([])) == d
  {
  }

  function Obj(fs: Fields): Json {
    JObj(fs)
  }

  /** `default_config()`. */
  function DefaultConfig(): Fields {
    [ ("orientation", JStr("landscape")),
      ("portrait_rotation", JInt(90)),
      ("font", Obj([("family", JStr("DejaVu Sans")), ("size_px", JInt(34)), ("line_height", JNum("1.15")),
                    ("chord_size_factor", JNum("0.70")), ("chord_pad_em", JNum("0.95"))])),
      ("colors", Obj([("background", JStr("#000000")), ("text", JStr("#FFFFFF")), ("chords", JStr("#FFD966")),
                      ("chorus_border", JStr("#FFFFFF")), ("comment", JStr("#FFFFFF")), ("footer", JStr("#FFFFFF")),
                      ("hint", JStr("#FFFFFF"))])),
      ("ui", Obj([("padding_x", JInt(36)), ("padding_y", JInt(24)), ("fit_mode", JStr("fill")),
                  ("fit_margin_px", JInt(8)), ("page_bottom_reserve_px", JInt(64))])),
      ("setlist", Obj([("filename", JStr("setlist.txt")), ("append_unlisted", JBool(true))])),
      ("shortcuts", Obj([("exit_hold_ms", JInt(1500))]))
    ]
  }

  /** Whatever the user config holds, every default key is in the merge. */
  lemma MergedHasDefaultKeys(u: Option<Fields>, k: string)
    requires k in Keys(DefaultConfig())
    ensures k in Keys(MergeDefaults(DefaultConfig(), u))
  {
    MergeKeys(DefaultConfig(), u);
  }

  /** An object section without a "filename" key. */
  predicate NamesNoFile(section: Json) {
    section.JObj? && DistinctKeys(section.fields) && "filename" !in Keys(section.fields)
  }

  /** A user `setlist` object that does not name a file keeps the default
      setlist file name: nested defaults survive a partial user section. */
  lemma SetlistFilenameDefault(u: Fields)
    requires DistinctKeys(u)
    requires Lookup(u, "setlist").Some? ==> NamesNoFile(Lookup(u, "setlist").value)
    ensures var r := MergeDefaults(DefaultConfig(), Some(u));
      Lookup(r, "setlist").Some? && Lookup(r, "setlist").value.JObj? &&
      Lookup(Lookup(r, "setlist").value.fields, "filename") == Some(JStr("setlist.txt"))
  {
    var d := DefaultConfig();
    var sd := [("filename", JStr("setlist.txt")), ("append_unlisted", JBool(true))];
    assert Lookup(d, "setlist") == Some(JObj(sd));
    MergeLookup(d, u, "setlist");
    if "setlist" in Keys(u) {
      var us := Lookup(u, "setlist").value.fields;
      MergeLookup(sd, us, "filename");
    }
  }
}
