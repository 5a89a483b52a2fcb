/** The greedy paginator (stagepro/paginate.py): chunks are added to the
    current page for as long as the page, rendered as page 1 of 1, still fits
    the usable height; the first chunk of a page is taken without a test. The
    height a rendered page needs, which Qt measures, is a parameter. */
module Paginate {
  import opened Wrappers
  import opened ChordPro
  import opened StageRender

  const DefaultBottomReserve := 64

  /** `int(ui.get("page_bottom_reserve_px", 64))`. */
  function BottomReserve(configured: Option<int>): int {
    if configured.Some? then configured.value else DefaultBottomReserve
  }

  /** `max(200, height_px - bottom_reserve)`. */
  function UsableHeight(heightPx: int, reserve: int): (r: int)
    ensures r >= 200 && r >= heightPx - reserve
    ensures r == 200 || r == heightPx - reserve
  {
    if heightPx - reserve > 200 then heightPx - reserve else 200
  }

  /** `would_fit(test_chunks)`: the page holding `test` as page 1 of 1 is no
      taller than the usable height. */
  function WouldFit(css: string, song: Song, songFilename: string, measure: string -> int, usable: int): seq<string> -> bool {
    (test: seq<string>) => measure(PageHtml(css, song, songFilename, 1, 1, test)) <= usable
  }

  // ---------- the grouping ----------

  /** The pages so far with the open page added, when it holds anything. */
  function Open(done: seq<seq<string>>, cur: seq<string>): seq<seq<string>> {
    if cur != [] then done + [cur] else done
  }

  /** The end of the loop: the open page is closed, and no page at all becomes
      one empty page. */
  function Close(done: seq<seq<string>>, cur: seq<string>): seq<seq<string>> {
    var d := Open(done, cur);
    if d == [] then [[]] else d
  }

  /** One turn of the loop: the chunk `ch` opens the page when it is empty,
      joins it when the page still fits with it, and otherwise closes the page
      and opens the next one. */
  function Step(fits: seq<string> -> bool, done: seq<seq<string>>, cur: seq<string>, ch: string): (seq<seq<string>>, seq<string>) {
    if cur == [] then (done, [ch])
    else if fits(cur + [ch]) then (done, cur + [ch])
    else (done + [cur], [ch])
  }

  /** The page bodies when `done` is closed, `cur` is open and `chunks` are left. */
  function GroupFrom(fits: seq<string> -> bool, done: seq<seq<string>>, cur: seq<string>, chunks: seq<string>): seq<seq<string>>
    decreases |chunks|
  {
    if chunks == [] then Close(done, cur)
    else
      var next := Step(fits, done, cur, chunks[0]);
      GroupFrom(fits, next.0, next.1, chunks[1..])
  }

  /** The page bodies `paginate_to_fit` builds. */
  function Group(fits: seq<string> -> bool, chunks: seq<string>): seq<seq<string>> {
    GroupFrom(fits, [], [], chunks)
  }

  function Flatten(gs: seq<seq<string>>): seq<string> {
    if gs == [] then [] else Flatten(gs[..|gs| - 1]) + gs[|gs| - 1]
  }

  /** What a greedy grouping promises: no page is empty, every page of two or
      more chunks fits, and no page could have taken the next page's first chunk. */
  predicate Greedy(fits: seq<string> -> bool, gs: seq<seq<string>>) {
    (forall i :: 0 <= i < |gs| ==> gs[i] != [])
    && (forall i :: 0 <= i < |gs| && |gs[i]| >= 2 ==> fits(gs[i]))
    && (forall i :: 0 <= i < |gs| - 1 ==> FullBefore(fits, gs, i))
  }

  /** Page `i` could not have taken the first chunk of page `i + 1`. */
  predicate FullBefore(fits: seq<string> -> bool, gs: seq<seq<string>>, i: int)
    requires 0 <= i < |gs| - 1
  {
    gs[i + 1] != [] && !fits(gs[i] + [gs[i + 1][0]])
  }

  /** The open page takes the next chunk. */
  lemma GreedyGrow(fits: seq<string> -> bool, done: seq<seq<string>>, cur: seq<string>, ch: string)
    requires cur != [] && Greedy(fits, done + [cur]) && fits(cur + [ch])
    ensures Greedy(fits, done + [cur + [ch]])
  {
    var before := done + [cur];
    var after := done + [cur + [ch]];
    assert after == before[..|done|] + [cur + [ch]];
    forall i | 0 <= i < |after|
      ensures after[i] != [] && (|after[i]| >= 2 ==> fits(after[i]))
    {
      if i < |done| {
        assert after[i] == before[i];
      }
    }
    forall i | 0 <= i < |after| - 1
      ensures FullBefore(fits, after, i)
    {
      assert after[i] == before[i];
      assert FullBefore(fits, before, i);
      if i + 1 < |done| {
        assert after[i + 1] == before[i + 1];
      } else {
        assert after[i + 1][0] == cur[0] == before[i + 1][0];
      }
    }
  }

  /** The open page is closed and the next chunk opens a new one. */
  lemma GreedyFlush(fits: seq<string> -> bool, done: seq<seq<string>>, cur: seq<string>, ch: string)
    requires cur != [] && Greedy(fits, done + [cur]) && !fits(cur + [ch])
    ensures Greedy(fits, done + [cur] + [[ch]])
  {
    var before := done + [cur];
    var after := before + [[ch]];
    forall i | 0 <= i < |after| - 1
      ensures FullBefore(fits, after, i)
    {
      assert after[i] == before[i];
      if i + 1 < |before| {
        assert FullBefore(fits, before, i);
        assert after[i + 1] == before[i + 1];
      }
    }
  }

  lemma FlattenSnoc(gs: seq<seq<string>>, g: seq<string>)
    ensures Flatten(gs + [g]) == Flatten(gs) + g
  {
    assert (gs + [g])[..|gs|] == gs;
  }

  /** A turn puts its chunk after all the others, and the page it leaves open
      is never empty. */
  lemma StepFlatten(fits: seq<string> -> bool, done: seq<seq<string>>, cur: seq<string>, ch: string)
    requires done != [] ==> cur != []
    ensures var next := Step(fits, done, cur, ch);
      next.1 != [] && Flatten(Open(next.0, next.1)) == Flatten(Open(done, cur)) + [ch]
  {
    if cur == [] {
      FlattenSnoc([], [ch]);
      assert [] + [[ch]] == [[ch]];
    } else if fits(cur + [ch]) {
      FlattenSnoc(done, cur);
      FlattenSnoc(done, cur + [ch]);
    } else {
      FlattenSnoc(done, cur);
      FlattenSnoc(done + [cur], [ch]);
    }
  }

  /** A turn keeps the pages greedy. */
  lemma StepGreedy(fits: seq<string> -> bool, done: seq<seq<string>>, cur: seq<string>, ch: string)
    requires Greedy(fits, Open(done, cur)) && (done != [] ==> cur != [])
    ensures var next := Step(fits, done, cur, ch);
      Greedy(fits, Open(next.0, next.1))
  {
    if cur == [] {
      assert Open(done, [ch]) == [[ch]];
    } else if fits(cur + [ch]) {
      GreedyGrow(fits, done, cur, ch);
    } else {
      GreedyFlush(fits, done, cur, ch);
    }
  }

  /** Closing keeps the pages, or gives one empty page when there are none. */
  lemma CloseSpec(done: seq<seq<string>>, cur: seq<string>)
    requires done != [] ==> cur != []
    ensures Flatten(Close(done, cur)) == Flatten(Open(done, cur))
    ensures Close(done, cur) == [[]] <==> done == [] && cur == []
    ensures Open(done, cur) != [] ==> Close(done, cur) == Open(done, cur)
  {
    if cur != [] {
      assert Open(done, cur)[|done|] == cur;
    } else {
      assert Flatten([[]]) == Flatten([]) + [];
    }
  }

  /** The grouping gives one empty page only when there is nothing at all. */
  lemma {:induction false} GroupFromEmpty(fits: seq<string> -> bool, done: seq<seq<string>>, cur: seq<string>, chunks: seq<string>)
    requires done != [] ==> cur != []
    ensures GroupFrom(fits, done, cur, chunks) == [[]] ==> done == [] && cur == [] && chunks == []
    decreases |chunks|
  {
    if chunks == [] {
      CloseSpec(done, cur);
    } else {
      var next := Step(fits, done, cur, chunks[0]);
      StepFlatten(fits, done, cur, chunks[0]);
      GroupFromEmpty(fits, next.0, next.1, chunks[1..]);
    }
  }

  /** The grouping loses, adds and reorders no chunk. */
  lemma {:induction false} GroupFromFlatten(fits: seq<string> -> bool, done: seq<seq<string>>, cur: seq<string>, chunks: seq<string>)
    requires done != [] ==> cur != []
    ensures Flatten(GroupFrom(fits, done, cur, chunks)) == Flatten(Open(done, cur)) + chunks
    decreases |chunks|
  {
    if chunks == [] {
      CloseSpec(done, cur);
    } else {
      var ch, rest := chunks[0], chunks[1..];
      var next := Step(fits, done, cur, ch);
      var before, after := Flatten(Open(done, cur)), Flatten(Open(next.0, next.1));
      var r := GroupFrom(fits, next.0, next.1, rest);
      assert GroupFrom(fits, done, cur, chunks) == r;
      assert after == before + [ch] && next.1 != [] by {
        StepFlatten(fits, done, cur, ch);
      }
      assert Flatten(r) == after + rest by {
        GroupFromFlatten(fits, next.0, next.1, rest);
      }
      assert [ch] + rest == chunks;
    }
  }

  /** Greedy pages stay greedy to the end of the loop. */
  lemma {:induction false} GroupFromGreedy(fits: seq<string> -> bool, done: seq<seq<string>>, cur: seq<string>, chunks: seq<string>)
    requires Greedy(fits, Open(done, cur)) && (done != [] ==> cur != [])
    requires Open(done, cur) != [] || chunks != []
    ensures Greedy(fits, GroupFrom(fits, done, cur, chunks))
    decreases |chunks|
  {
    if chunks == [] {
      CloseSpec(done, cur);
    } else {
      var next := Step(fits, done, cur, chunks[0]);
      StepFlatten(fits, done, cur, chunks[0]);
      StepGreedy(fits, done, cur, chunks[0]);
      GroupFromGreedy(fits, next.0, next.1, chunks[1..]);
    }
  }

  /** The pages of `Group`: never none; in order they hold exactly the chunks;
      with any chunk at all no page is empty, and otherwise there is one empty
      page; every page of two or more chunks fits, and each page ends where the
      next chunk would not have fitted. */
  lemma GroupSpec(fits: seq<string> -> bool, chunks: seq<string>)
    ensures var gs := Group(fits, chunks);
      gs != [] && Flatten(gs) == chunks
      && (chunks == [] ==> gs == [[]])
      && (chunks != [] ==> Greedy(fits, gs))
  {
    GroupFromFlatten(fits, [], [], chunks);
    GroupFromEmpty(fits, [], [], chunks);
    if chunks != [] {
      GroupFromGreedy(fits, [], [], chunks);
    }
  }

  // ---------- paginate_to_fit ----------

  /** The renderer of a page of this song: its number, the number of pages and
      its body chunks give its HTML. */
  function PageOf(css: string, song: Song, songFilename: string): (int, int, seq<string>) -> string {
    (n: int, total: int, body: seq<string>) => PageHtml(css, song, songFilename, n, total, body)
  }

  /** The first `k` pages rendered with their real numbers, out of `|gs|`. */
  function Numbered(page: (int, int, seq<string>) -> string, gs: seq<seq<string>>, k: nat): seq<string>
    requires k <= |gs|
  {
    if k == 0 then [] else Numbered(page, gs, k - 1) + [page(k, |gs|, gs[k - 1])]
  }

  /** Every page rendered, numbered 1 to the number of pages. */
  function Pages(css: string, song: Song, songFilename: string, gs: seq<seq<string>>): seq<string> {
    Numbered(PageOf(css, song, songFilename), gs, |gs|)
  }

  /** Page `i` of the first `k` is the `i`th body numbered `i + 1` of `|gs|`. */
  lemma {:induction false} NumberedAt(page: (int, int, seq<string>) -> string, gs: seq<seq<string>>, k: nat)
    requires k <= |gs|
    ensures var ps := Numbered(page, gs, k);
      |ps| == k && forall i :: 0 <= i < k ==> ps[i] == page(i + 1, |gs|, gs[i])
  {
    if k > 0 {
      NumberedAt(page, gs, k - 1);
    }
  }

  /** The pages `paginate_to_fit` returns, `measure` giving the height Qt lays a
      page out to at the page width. */
  function PaginateSpec(css: string, song: Song, songFilename: string, chunks: seq<string>,
                        measure: string -> int, heightPx: int, reserve: Option<int>): seq<string>
  {
    var usable := UsableHeight(heightPx, BottomReserve(reserve));
    Pages(css, song, songFilename, Group(WouldFit(css, song, songFilename, measure, usable), chunks))
  }

  /** The first loop of `paginate_to_fit`: the chunks grouped into pages. */
  method GroupChunks(fits: seq<string> -> bool, chunks: seq<string>) returns (groups: seq<seq<string>>)
    ensures groups == Group(fits, chunks)
  {
    groups := [];
    var current: seq<string> := [];
    var i := 0;
    while i < |chunks|
      invariant 0 <= i <= |chunks|
      invariant GroupFrom(fits, groups, current, chunks[i..]) == Group(fits, chunks)
    {
      var ch := chunks[i];
      assert chunks[i..][0] == ch && chunks[i..][1..] == chunks[i + 1..];
      if current == [] {
        current := [ch];
      } else {
        var test := current + [ch];
        if fits(test) {
          current := test;
        } else {
          groups := groups + [current];
          current := [ch];
        }
      }
      i := i + 1;
    }
    if current != [] {
      groups := groups + [current];
    }
    if groups == [] {
      groups := [[]];
    }
  }

  /** The second loop of `paginate_to_fit`: each page rendered with its number. */
  method RenderPages(css: string, song: Song, songFilename: string, groups: seq<seq<string>>) returns (pages: seq<string>)
    ensures pages == Pages(css, song, songFilename, groups)
  {
    var total := |groups|;
    pages := [];
    var k := 0;
    while k < total
      invariant 0 <= k <= total
      invariant pages == Numbered(PageOf(css, song, songFilename), groups, k)
    {
      pages := pages + [PageHtml(css, song, songFilename, k + 1, total, groups[k])];
      k := k + 1;
    }
  }

  /** `paginate_to_fit(cfg, song, song_filename, chunks, width_px, height_px)`,
      `css` standing for `stagepro_css(cfg)` and `reserve` for the configured
      bottom reserve. */
  method PaginateToFit(css: string, song: Song, songFilename: string, chunks: seq<string>,
                       measure: string -> int, heightPx: int, reserve: Option<int>) returns (pages: seq<string>)
    ensures pages == PaginateSpec(css, song, songFilename, chunks, measure, heightPx, reserve)
  {
    var bottomReserve := if reserve.Some? then reserve.value else DefaultBottomReserve;
    var usable := if heightPx - bottomReserve > 200 then heightPx - bottomReserve else 200;
    var groups := GroupChunks(WouldFit(css, song, songFilename, measure, usable), chunks);
    pages := RenderPages(css, song, songFilename, groups);
  }

  /** Pagination never yields no page; the pages are numbered 1 to their count,
      each ending with its footer, and their bodies in order are the chunks. */
  lemma PaginateResult(css: string, song: Song, songFilename: string, chunks: seq<string>,
                       measure: string -> int, heightPx: int, reserve: Option<int>)
    ensures var usable := UsableHeight(heightPx, BottomReserve(reserve));
      var gs := Group(WouldFit(css, song, songFilename, measure, usable), chunks);
      var pages := PaginateSpec(css, song, songFilename, chunks, measure, heightPx, reserve);
      |pages| == |gs| >= 1 && Flatten(gs) == chunks
      && forall i :: 0 <= i < |pages| ==>
           pages[i] == PageHtml(css, song, songFilename, i + 1, |pages|, gs[i])
  {
    var usable := UsableHeight(heightPx, BottomReserve(reserve));
    var fits := WouldFit(css, song, songFilename, measure, usable);
    var gs := Group(fits, chunks);
    assert gs != [] && Flatten(gs) == chunks by {
      GroupSpec(fits, chunks);
    }
    var page := PageOf(css, song, songFilename);
    var pages := Numbered(page, gs, |gs|);
    assert |pages| == |gs| && forall i :: 0 <= i < |gs| ==> pages[i] == page(i + 1, |gs|, gs[i]) by {
      NumberedAt(page, gs, |gs|);
    }
  }
}
