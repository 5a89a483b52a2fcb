/** The directive upsert editor (stagepro/chordpro_edit.py): rewrites or inserts
    `{key: value}` lines in a ChordPro text and leaves every other line as it
    was; the joined result has its trailing whitespace stripped and ends with
    exactly one newline. It also returns the directive map read from the
    original text overlaid with the applied updates. That map is not a re-parse
    of the new text: when a key occurs on several lines, the map takes the
    update while a last-wins parse of the new text would still see the later,
    untouched line. */
module ChordProEdit {
  import opened Wrappers
  import opened Strings
  import opened Directives

  /** An update that takes effect: lower-cased stripped key, stripped non-empty value. */
  datatype Update = Update(key: string, value: string)

  /** What `upsert_directives` returns: the new text and the final metadata. */
  datatype Edited = Edited(text: string, meta: map<string, string>)

  /** `_KV_RE.match(line)`: the line's lower-cased key and its value. */
  function Match(line: string): Option<Update> {
    match MetaMatch(line)
    case Some(kv) => Some(Update(kv.0, kv.1))
    case None => None
  }

  predicate IsDirective(line: string) {
    Match(line).Some?
  }

  /** The match of every line, in order. */
  function Found(lines: seq<string>): (ms: seq<Option<Update>>)
    ensures |ms| == |lines|
  {
    if lines == [] then [] else Found(lines[..|lines| - 1]) + [Match(lines[|lines| - 1])]
  }

  lemma {:induction false} FoundAt(lines: seq<string>, i: nat)
    requires i < |lines|
    ensures Found(lines)[i] == Match(lines[i])
  {
    var n := |lines| - 1;
    if i < n {
      FoundAt(lines[..n], i);
    }
  }

  /** A match that sets `key`. */
  predicate Sets(m: Option<Update>, key: string) {
    m.Some? && m.value.key == key
  }

  // ---------- the scan of the existing directives ----------

  /** `existing` after the scan: every key with the value of its last directive line. */
  function Existing(ms: seq<Option<Update>>): map<string, string> {
    if ms == [] then map[]
    else
      var n := |ms| - 1;
      match ms[n]
      case Some(u) => Existing(ms[..n])[u.key := u.value]
      case None => Existing(ms[..n])
  }

  /** `key_to_index` after the scan: every key with the index of its first directive line. */
  function FirstIndex(ms: seq<Option<Update>>): (r: map<string, nat>)
    ensures forall k | k in r :: r[k] < |ms|
  {
    if ms == [] then map[]
    else
      var n := |ms| - 1;
      var idx := FirstIndex(ms[..n]);
      match ms[n]
      case Some(u) => if u.key in idx then idx else idx[u.key := n]
      case None => idx
  }

  lemma ScanSnoc(ms: seq<Option<Update>>, m: Option<Update>)
    ensures Existing(ms + [m]) == match m case Some(u) => Existing(ms)[u.key := u.value] case None => Existing(ms)
    ensures FirstIndex(ms + [m]) ==
      match m
      case Some(u) => if u.key in FirstIndex(ms) then FirstIndex(ms) else FirstIndex(ms)[u.key := |ms|]
      case None => FirstIndex(ms)
  {
    assert (ms + [m])[..|ms|] == ms;
  }

  /** The scan records exactly the keys of the directive lines, each at its first line. */
  lemma {:induction false} FirstIndexSound(ms: seq<Option<Update>>, key: string)
    ensures key in FirstIndex(ms) <==> key in Existing(ms)
    ensures key in Existing(ms) <==> exists i | 0 <= i < |ms| :: Sets(ms[i], key)
    ensures key in FirstIndex(ms) ==>
      Sets(ms[FirstIndex(ms)[key]], key) && forall j | 0 <= j < FirstIndex(ms)[key] :: !Sets(ms[j], key)
  {
    if ms != [] {
      var n := |ms| - 1;
      var init := ms[..n];
      FirstIndexSound(init, key);
      if exists i | 0 <= i < |ms| :: Sets(ms[i], key) {
        var i :| 0 <= i < |ms| && Sets(ms[i], key);
        if i < n {
          assert Sets(init[i], key);
        }
      }
      if key in FirstIndex(init) {
        assert forall j | 0 <= j < FirstIndex(init)[key] :: ms[j] == init[j];
      }
    }
  }

  /** `ms[i]` sets `key` to `v` and no later match sets `key`. */
  predicate LastSets(ms: seq<Option<Update>>, i: nat, key: string, v: string) {
    i < |ms| && ms[i] == Some(Update(key, v)) && forall j | i < j < |ms| :: !Sets(ms[j], key)
  }

  /** `existing[key]` is the value of the last directive line for `key`. */
  lemma {:induction false} ExistingIsLast(ms: seq<Option<Update>>, key: string)
    requires key in Existing(ms)
    ensures exists i :: LastSets(ms, i, key, Existing(ms)[key])
  {
    var n := |ms| - 1;
    var init := ms[..n];
    if Sets(ms[n], key) {
      assert LastSets(ms, n, key, Existing(ms)[key]);
    } else {
      ExistingIsLast(init, key);
      var i: nat :| LastSets(init, i, key, Existing(init)[key]);
      forall j | i < j < |ms|
        ensures !Sets(ms[j], key)
      {
        if j < n {
          assert ms[j] == init[j];
        }
      }
      assert LastSets(ms, i, key, Existing(ms)[key]);
    }
  }

  /** Distinct keys have distinct first lines. */
  lemma FirstIndexInjective(ms: seq<Option<Update>>)
    ensures Injective(FirstIndex(ms))
  {
    forall k1, k2 | k1 in FirstIndex(ms) && k2 in FirstIndex(ms) && k1 != k2
      ensures FirstIndex(ms)[k1] != FirstIndex(ms)[k2]
    {
      FirstIndexSound(ms, k1);
      FirstIndexSound(ms, k2);
    }
  }

  // ---------- the updates ----------

  /** `k.strip().lower()` and `(v or "").strip()`, or nothing when the value is blank. */
  function Normalize(k: string, v: string): Option<Update> {
    var v2 := Strip(v);
    if v2 == "" then None else Some(Update(Lower(Strip(k)), v2))
  }

  /** Each update, normalised, in the dictionary's order. */
  function Normalized(us: seq<(string, string)>): (ns: seq<Option<Update>>)
    ensures |ns| == |us|
  {
    if us == [] then [] else Normalized(us[..|us| - 1]) + [Normalize(us[|us| - 1].0, us[|us| - 1].1)]
  }

  lemma {:induction false} NormalizedAppend(a: seq<(string, string)>, b: seq<(string, string)>)
    ensures Normalized(a + b) == Normalized(a) + Normalized(b)
    decreases |b|
  {
    if b == [] {
      assert a + b == a;
    } else {
      var n := |b| - 1;
      assert (a + b)[..|a| + n] == a + b[..n];
      NormalizedAppend(a, b[..n]);
    }
  }

  /** The present values, in order. */
  function Somes(ns: seq<Option<Update>>): seq<Update> {
    if ns == [] then []
    else
      var n := |ns| - 1;
      Somes(ns[..n]) + (match ns[n] case Some(u) => [u] case None => [])
  }

  /** The updates that take effect, in the dictionary's order. */
  function Applied(us: seq<(string, string)>): seq<Update> {
    Somes(Normalized(us))
  }

  lemma AppliedSnoc(us: seq<(string, string)>, j: nat)
    requires j < |us|
    ensures Applied(us[..j + 1]) ==
      Applied(us[..j]) + match Normalize(us[j].0, us[j].1) case Some(u) => [u] case None => []
  {
    assert us[..j + 1][..j] == us[..j];
    var ns := Normalized(us[..j + 1]);
    assert ns[..j] == Normalized(us[..j]);
  }

  lemma {:induction false} SomesAppend(a: seq<Option<Update>>, b: seq<Option<Update>>)
    ensures Somes(a + b) == Somes(a) + Somes(b)
    decreases |b|
  {
    if b == [] {
      assert a + b == a;
    } else {
      var n := |b| - 1;
      assert (a + b)[..|a| + n] == a + b[..n];
      SomesAppend(a, b[..n]);
    }
  }

  /** An update whose value is blank is ignored: dropping it changes nothing. */
  lemma AppliedDropsBlank(us: seq<(string, string)>, i: nat)
    requires i < |us| && IsBlank(us[i].1)
    ensures Applied(us[..i] + us[i + 1..]) == Applied(us)
  {
    var a, x, b := us[..i], [us[i]], us[i + 1..];
    assert us == (a + x) + b;
    StripEmptyIffBlank(us[i].1);
    assert x[..0] == [];
    var one := Normalized(x);
    assert one == [None];
    assert one[..0] == [];
    assert Somes(one) == [];
    NormalizedAppend(a + x, b);
    NormalizedAppend(a, x);
    NormalizedAppend(a, b);
    var pre, post := Normalized(a), Normalized(b);
    assert Normalized(us) == (pre + one) + post;
    SomesAppend(pre + one, post);
    SomesAppend(pre, one);
    assert Somes(pre + one) == Somes(pre);
    SomesAppend(pre, post);
  }

  /** Every update that takes effect has a lower-case key and a non-empty value. */
  lemma {:induction false} SomesNormalized(ns: seq<Option<Update>>, us: seq<(string, string)>)
    requires ns == Normalized(us)
    ensures forall u | u in Somes(ns) :: u.value != [] && u.key == Lower(u.key)
    decreases |ns|
  {
    if ns != [] {
      var n := |ns| - 1;
      assert ns[..n] == Normalized(us[..n]);
      SomesNormalized(ns[..n], us[..n]);
      LowerIdempotent(Strip(us[n].0));
    }
  }

  /** The value the last update for `key` sets, if any. */
  function LastValue(ps: seq<Update>, key: string): Option<string> {
    if ps == [] then None
    else if ps[|ps| - 1].key == key then Some(ps[|ps| - 1].value)
    else LastValue(ps[..|ps| - 1], key)
  }

  /** The map after setting each update in turn. */
  function Overlay(m: map<string, string>, ps: seq<Update>): map<string, string> {
    if ps == [] then m
    else
      var u := ps[|ps| - 1];
      Overlay(m, ps[..|ps| - 1])[u.key := u.value]
  }

  /** After the updates, a key is present if it was or some update sets it, and the
      last update for it wins. */
  lemma {:induction false} OverlayAt(m: map<string, string>, ps: seq<Update>, key: string)
    ensures key in Overlay(m, ps) <==> key in m || LastValue(ps, key).Some?
    ensures key in Overlay(m, ps) ==>
      Overlay(m, ps)[key] == if LastValue(ps, key).Some? then LastValue(ps, key).value else m[key]
  {
    if ps != [] {
      OverlayAt(m, ps[..|ps| - 1], key);
    }
  }

  // ---------- rewriting the first directive line of each key ----------

  /** The lines and `existing` while the updates are applied to existing directives. */
  datatype EditState = EditState(lines: seq<string>, existing: map<string, string>)

  predicate InRange(idx: map<string, nat>, n: nat) {
    forall k | k in idx :: idx[k] < n
  }

  /** One update of the first `for` loop over the updates. */
  function ApplyUpdate(st: EditState, idx: map<string, nat>, u: Update): (r: EditState)
    requires InRange(idx, |st.lines|)
    ensures |r.lines| == |st.lines|
  {
    if u.key in idx then
      EditState(st.lines[idx[u.key] := DirectiveLine(u.key, u.value)], st.existing[u.key := u.value])
    else st
  }

  function ApplyAll(st: EditState, idx: map<string, nat>, ps: seq<Update>): (r: EditState)
    requires InRange(idx, |st.lines|)
    ensures |r.lines| == |st.lines|
  {
    if ps == [] then st
    else
      var n := |ps| - 1;
      ApplyUpdate(ApplyAll(st, idx, ps[..n]), idx, ps[n])
  }

  predicate Injective(idx: map<string, nat>) {
    forall k1, k2 | k1 in idx && k2 in idx && k1 != k2 :: idx[k1] != idx[k2]
  }

  /** The line of each recorded key holds that key's last update, if it has one;
      every other line is unchanged. */
  lemma {:induction false} ApplyAllLines(st: EditState, idx: map<string, nat>, ps: seq<Update>)
    requires InRange(idx, |st.lines|) && Injective(idx)
    ensures forall k | k in idx ::
      (ApplyAll(st, idx, ps).lines[idx[k]] ==
        match LastValue(ps, k) case Some(v) => DirectiveLine(k, v) case None => st.lines[idx[k]])
    ensures forall i | 0 <= i < |st.lines| && i !in idx.Values :: ApplyAll(st, idx, ps).lines[i] == st.lines[i]
  {
    if ps != [] {
      ApplyAllLines(st, idx, ps[..|ps| - 1]);
    }
  }

  /** `existing` keeps its keys; a recorded key takes its last update's value. */
  lemma {:induction false} ApplyAllExisting(st: EditState, idx: map<string, nat>, ps: seq<Update>, key: string)
    requires InRange(idx, |st.lines|) && idx.Keys <= st.existing.Keys
    ensures key in ApplyAll(st, idx, ps).existing <==> key in st.existing
    ensures key in st.existing ==>
      (ApplyAll(st, idx, ps).existing[key] ==
        if key in idx then LastValue(ps, key).GetOr(st.existing[key]) else st.existing[key])
  {
    if ps != [] {
      ApplyAllExisting(st, idx, ps[..|ps| - 1], key);
    }
  }

  // ---------- inserting the missing keys ----------

  /** `missing`: the updates whose key has no directive line, in order. */
  function Missing(ps: seq<Update>, m: map<string, string>): seq<Update> {
    if ps == [] then []
    else
      var n := |ps| - 1;
      Missing(ps[..n], m) + (if ps[n].key !in m then [ps[n]] else [])
  }

  lemma {:induction false} LastValueMissing(ps: seq<Update>, m: map<string, string>, key: string)
    ensures LastValue(Missing(ps, m), key) == if key in m then None else LastValue(ps, key)
  {
    if ps != [] {
      var n := |ps| - 1;
      LastValueMissing(ps[..n], m, key);
      var init := Missing(ps[..n], m);
      if ps[n].key !in m {
        assert (init + [ps[n]])[..|init|] == init;
      } else {
        assert Missing(ps, m) == init + [] == init;
      }
    }
  }

  /** `missing` depends only on which keys `existing` holds. */
  lemma {:induction false} MissingSameKeys(ps: seq<Update>, m1: map<string, string>, m2: map<string, string>)
    requires m1.Keys == m2.Keys
    ensures Missing(ps, m1) == Missing(ps, m2)
  {
    if ps != [] {
      MissingSameKeys(ps[..|ps| - 1], m1, m2);
    }
  }

  /** `insert_at` after the first `while`: past the leading blank lines. */
  function SkipBlank(lines: seq<string>, i: nat): (r: nat)
    requires i <= |lines|
    ensures i <= r <= |lines|
    ensures forall j | i <= j < r :: IsBlank(lines[j])
    ensures r < |lines| ==> !IsBlank(lines[r])
    decreases |lines| - i
  {
    if i < |lines| && IsBlank(lines[i]) then SkipBlank(lines, i + 1) else i
  }

  /** `insert_at` after the second `while`: past the run of directive lines. */
  function SkipDirectives(ms: seq<Option<Update>>, i: nat): (r: nat)
    requires i <= |ms|
    ensures i <= r <= |ms|
    ensures forall j | i <= j < r :: ms[j].Some?
    ensures r < |ms| ==> ms[r].None?
    decreases |ms| - i
  {
    if i < |ms| && ms[i].Some? then SkipDirectives(ms, i + 1) else i
  }

  /** Where missing directives go: after the leading blank lines and the directive
      lines that follow them. */
  function InsertionPoint(lines: seq<string>): nat {
    SkipDirectives(Found(lines), SkipBlank(lines, 0))
  }

  function DirectiveLines(ps: seq<Update>): (r: seq<string>)
    ensures |r| == |ps| && forall i | 0 <= i < |ps| :: r[i] == DirectiveLine(ps[i].key, ps[i].value)
  {
    seq(|ps|, i requires 0 <= i < |ps| => DirectiveLine(ps[i].key, ps[i].value))
  }

  // ---------- the whole edit ----------

  /** The lines and `existing` after the rewriting loop. */
  function Rewrite(lines: seq<string>, ps: seq<Update>): (r: EditState)
    ensures |r.lines| == |lines|
  {
    var ms := Found(lines);
    ApplyAll(EditState(lines, Existing(ms)), FirstIndex(ms), ps)
  }

  /** `lines[insert_at:insert_at] = directive_lines`, done only when something is missing. */
  function Splice(lines: seq<string>, missing: seq<Update>): seq<string> {
    if missing == [] then lines
    else
      var at := InsertionPoint(lines);
      lines[..at] + DirectiveLines(missing) + lines[at..]
  }

  /** `"\n".join(lines).rstrip() + "\n"`: one final newline and no other trailing
      whitespace. */
  function Finish(lines: seq<string>): (r: string)
    ensures EndsWith(r, "\n") && (|r| >= 2 ==> !IsSpace(r[|r| - 2]))
  {
    RStripCharsPrefix(Join("\n", lines), Whitespace);
    RStrip(Join("\n", lines)) + "\n"
  }

  function EditLines(lines: seq<string>, ps: seq<Update>): Edited {
    var st := Rewrite(lines, ps);
    var missing := Missing(ps, st.existing);
    Edited(Finish(Splice(st.lines, missing)), Overlay(st.existing, missing))
  }

  /** `upsert_directives(text, updates)`, the updates given as the dictionary's items. */
  function Upsert(text: string, us: seq<(string, string)>): Edited {
    if us == [] then Edited(text, map[]) else EditLines(SplitLines(text), Applied(us))
  }

  /** The rewriting loop puts each key's last update on the key's first directive
      line and leaves every other line as it was. */
  lemma RewrittenLines(lines: seq<string>, ps: seq<Update>)
    ensures var idx := FirstIndex(Found(lines));
      forall k | k in idx ::
        (Rewrite(lines, ps).lines[idx[k]] ==
          match LastValue(ps, k) case Some(v) => DirectiveLine(k, v) case None => lines[idx[k]])
    ensures var idx := FirstIndex(Found(lines));
      forall i | 0 <= i < |lines| && i !in idx.Values :: Rewrite(lines, ps).lines[i] == lines[i]
  {
    var ms := Found(lines);
    FirstIndexInjective(ms);
    ApplyAllLines(EditState(lines, Existing(ms)), FirstIndex(ms), ps);
  }

  lemma ScanKeys(ms: seq<Option<Update>>)
    ensures FirstIndex(ms).Keys == Existing(ms).Keys
  {
    forall k
      ensures k in FirstIndex(ms) <==> k in Existing(ms)
    {
      FirstIndexSound(ms, k);
    }
  }

  /** The rewriting loop adds no key to `existing`. */
  lemma RewriteKeepsKeys(lines: seq<string>, ps: seq<Update>)
    ensures Rewrite(lines, ps).existing.Keys == Existing(Found(lines)).Keys
  {
    var ms := Found(lines);
    ScanKeys(ms);
    forall k
      ensures k in Rewrite(lines, ps).existing <==> k in Existing(ms)
    {
      ApplyAllExisting(EditState(lines, Existing(ms)), FirstIndex(ms), ps, k);
    }
  }

  /** The missing updates are, in order, those whose key no directive line of the
      text has. */
  lemma MissingAreUnknownKeys(lines: seq<string>, ps: seq<Update>)
    ensures Missing(ps, Rewrite(lines, ps).existing) == Missing(ps, Existing(Found(lines)))
    ensures var ms := Found(lines);
      forall u :: u in Missing(ps, Existing(ms)) <==> (u in ps && forall i | 0 <= i < |ms| :: !Sets(ms[i], u.key))
  {
    var ms := Found(lines);
    RewriteKeepsKeys(lines, ps);
    MissingSameKeys(ps, Rewrite(lines, ps).existing, Existing(ms));
    forall u
      ensures u in Missing(ps, Existing(ms)) <==> (u in ps && forall i | 0 <= i < |ms| :: !Sets(ms[i], u.key))
    {
      FirstIndexSound(ms, u.key);
      MissingMembers(ps, Existing(ms), u);
    }
  }

  lemma {:induction false} MissingMembers(ps: seq<Update>, m: map<string, string>, u: Update)
    ensures u in Missing(ps, m) <==> u in ps && u.key !in m
  {
    if ps != [] {
      var n := |ps| - 1;
      MissingMembers(ps[..n], m, u);
      assert ps == ps[..n] + [ps[n]];
    }
  }

  /** Without updates the text comes back unchanged with no metadata. Otherwise the
      returned metadata is the existing directives with every applied update set on
      top, in order: a key is present iff a directive line or an update has it, and
      the last update for it wins. */
  lemma UpsertMeta(text: string, us: seq<(string, string)>)
    ensures us == [] ==> Upsert(text, us) == Edited(text, map[])
    ensures us != [] ==> Upsert(text, us).meta == Overlay(Existing(Found(SplitLines(text))), Applied(us))
  {
    if us != [] {
      var lines := SplitLines(text);
      var ps := Applied(us);
      var ms := Found(lines);
      var e := Existing(ms);
      var st := EditState(lines, e);
      var idx := FirstIndex(ms);
      var r := Rewrite(lines, ps);
      var missing := Missing(ps, r.existing);
      var got := Overlay(r.existing, missing);
      var want := Overlay(e, ps);
      ScanKeys(ms);
      forall k
        ensures k in got <==> k in want
        ensures k in got ==> got[k] == want[k]
      {
        ApplyAllExisting(st, idx, ps, k);
        OverlayAt(r.existing, missing, k);
        OverlayAt(e, ps, k);
        LastValueMissing(ps, r.existing, k);
      }
      assert got == want;
    }
  }

  // ---------- `upsert_directives`, loop by loop ----------

  /** The first loop: `existing` and `key_to_index`. */
  method ScanDirectives(lines: seq<string>) returns (existing: map<string, string>, keyToIndex: map<string, nat>)
    ensures existing == Existing(Found(lines)) && keyToIndex == FirstIndex(Found(lines))
  {
    existing, keyToIndex := map[], map[];
    var i := 0;
    while i < |lines|
      invariant 0 <= i <= |lines|
      invariant existing == Existing(Found(lines[..i])) && keyToIndex == FirstIndex(Found(lines[..i]))
    {
      assert lines[..i + 1][..i] == lines[..i];
      var m := Match(lines[i]);
      assert Found(lines[..i + 1]) == Found(lines[..i]) + [m];
      ScanSnoc(Found(lines[..i]), m);
      if m.Some? {
        existing := existing[m.value.key := m.value.value];
        if m.value.key !in keyToIndex {
          keyToIndex := keyToIndex[m.value.key := i];
        }
      }
      i := i + 1;
    }
    assert lines[..i] == lines;
  }

  /** The second loop: each update with a non-blank value rewrites its key's first
      directive line. */
  method RewriteExisting(lines: seq<string>, existing: map<string, string>, keyToIndex: map<string, nat>,
                         updates: seq<(string, string)>)
    returns (lines': seq<string>, existing': map<string, string>)
    requires InRange(keyToIndex, |lines|)
    ensures EditState(lines', existing') == ApplyAll(EditState(lines, existing), keyToIndex, Applied(updates))
  {
    ghost var start := EditState(lines, existing);
    lines', existing' := lines, existing;
    var j := 0;
    while j < |updates|
      invariant 0 <= j <= |updates|
      invariant EditState(lines', existing') == ApplyAll(start, keyToIndex, Applied(updates[..j]))
    {
      AppliedSnoc(updates, j);
      ghost var done := Applied(updates[..j]);
      var k2 := Lower(Strip(updates[j].0));
      var v2 := Strip(updates[j].1);
      if v2 != "" {
        assert (done + [Update(k2, v2)])[..|done|] == done;
        if k2 in keyToIndex {
          lines' := lines'[keyToIndex[k2] := DirectiveLine(k2, v2)];
          existing' := existing'[k2 := v2];
        }
      } else {
        assert Applied(updates[..j + 1]) == done + [] == done;
      }
      j := j + 1;
    }
    assert updates[..j] == updates;
  }

  lemma MissingSnoc(ps: seq<Update>, u: Update, m: map<string, string>)
    ensures Missing(ps + [u], m) == Missing(ps, m) + (if u.key !in m then [u] else [])
  {
    assert (ps + [u])[..|ps|] == ps;
  }

  /** The third loop: the updates with a non-blank value whose key `existing` lacks. */
  method CollectMissing(existing: map<string, string>, updates: seq<(string, string)>) returns (missing: seq<Update>)
    ensures missing == Missing(Applied(updates), existing)
  {
    missing := [];
    var j := 0;
    while j < |updates|
      invariant 0 <= j <= |updates|
      invariant missing == Missing(Applied(updates[..j]), existing)
    {
      AppliedSnoc(updates, j);
      ghost var done := Applied(updates[..j]);
      var k2 := Lower(Strip(updates[j].0));
      var v2 := Strip(updates[j].1);
      if v2 != "" {
        assert Normalize(updates[j].0, updates[j].1) == Some(Update(k2, v2));
        MissingSnoc(done, Update(k2, v2), existing);
        if k2 !in existing {
          missing := missing + [Update(k2, v2)];
        }
      } else {
        assert Normalize(updates[j].0, updates[j].1) == None;
        assert Applied(updates[..j + 1]) == done + [] == done;
      }
      j := j + 1;
    }
    assert updates[..j] == updates;
  }

  /** The two `while` loops that advance `insert_at`. */
  method FindInsertionPoint(lines: seq<string>) returns (insertAt: nat)
    ensures insertAt == InsertionPoint(lines)
  {
    insertAt := 0;
    while insertAt < |lines| && IsBlank(lines[insertAt])
      invariant insertAt <= |lines| && SkipBlank(lines, insertAt) == SkipBlank(lines, 0)
      decreases |lines| - insertAt
    {
      insertAt := insertAt + 1;
    }
    ghost var ms := Found(lines);
    while insertAt < |lines|
      invariant insertAt <= |lines| && SkipDirectives(ms, insertAt) == InsertionPoint(lines)
      decreases |lines| - insertAt
    {
      FoundAt(lines, insertAt);
      if IsDirective(lines[insertAt]) {
        insertAt := insertAt + 1;
        continue;
      }
      break;
    }
  }

  /** `upsert_directives(text, updates)`. */
  method UpsertDirectives(text: string, updates: seq<(string, string)>) returns (out: string, meta: map<string, string>)
    ensures Edited(out, meta) == Upsert(text, updates)
  {
    if updates == [] {
      return text, map[];
    }
    var lines := SplitLines(text);
    ghost var original := lines;
    var existing, keyToIndex := ScanDirectives(lines);
    lines, existing := RewriteExisting(lines, existing, keyToIndex, updates);
    var missing := CollectMissing(existing, updates);
    ghost var kept := existing;
    if missing != [] {
      var insertAt := FindInsertionPoint(lines);
      lines := lines[..insertAt] + DirectiveLines(missing) + lines[insertAt..];
      var j := 0;
      while j < |missing|
        invariant 0 <= j <= |missing|
        invariant existing == Overlay(kept, missing[..j])
      {
        assert missing[..j + 1][..j] == missing[..j];
        existing := existing[missing[j].key := missing[j].value];
        j := j + 1;
      }
      assert missing[..j] == missing;
    }
    out := RStrip(Join("\n", lines)) + "\n";
    meta := existing;
  }
}
