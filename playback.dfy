/** Page and song navigation in the viewer and the footer it pins to the
    bottom of each page (app/ui_playback.py). The viewer's size, the pages
    pagination produced and the colour settings are parameters; what the Qt
    callbacks would do is returned as effects. */
module Playback {
  import opened Wrappers
  import opened Strings
  import opened ChordPro

  // ---------- available_doc_size ----------

  function AtLeast200(n: int): (r: int)
    ensures r >= 200 && r >= n && (r == n || r == 200)
  {
    if n > 200 then n else 200
  }

  /** `available_doc_size(viewer)` for a viewer of `width` by `height` pixels. */
  function AvailableDocSize(width: int, height: int): (r: (int, int))
    ensures r.0 >= 200 && r.1 >= 200
    ensures r.0 >= width && (r.0 == width || r.0 == 200)
    ensures r.1 >= height && (r.1 == height || r.1 == 200)
  {
    (AtLeast200(width), AtLeast200(height))
  }

  // ---------- inject_pinned_footer ----------

  const BottomPad := 8
  const FooterBlockHeight := 58

  /** The offset of the pinned footer from the top of a page `heightPx` high:
      the page is at least 200 pixels, so the footer is always 66 above its end. */
  function FooterTop(heightPx: int): (r: int)
    ensures r == AtLeast200(heightPx) - 66 && r >= 134
  {
    var h := AtLeast200(heightPx);
    var top := h - FooterBlockHeight - BottomPad;
    if top > 0 then top else 0
  }

  /** The `<body>` tag that fixes the page height and hides overflow. */
  function BodyTag(h: int): string {
    "<body style='position:relative;height:" + IntToString(h) + "px;overflow:hidden;'>"
  }

  /** The pinned footer: page number and total on the left, the exit hint on the right. */
  function PinHtml(pageNum: int, pageTotal: int, top: int): string {
    "<div style='position:absolute;left:24px;right:24px;top:" + IntToString(top) + "px;"
    + "display:flex;justify-content:space-between;align-items:flex-end;"
    + "font-family:inherit;pointer-events:none;'>"
    + "<div style='opacity:0.75'>Page " + IntToString(pageNum) + " / " + IntToString(pageTotal) + "</div>"
    + "<div style='opacity:0.55'>PgUp/PgDn \U{2022} Hold PgUp+PgDn OR \U{2190}+\U{2192} to exit</div>"
    + "</div>"
  }

  /** The first `<body>` tag, if any, replaced by `tag`. */
  function StyleBody(html: string, tag: string): string {
    if Contains(html, "<body>") then ReplaceFirst(html, "<body>", tag) else html
  }

  /** `tag` for the first `<body>` and `pin` in front of every `</body>`, in a
      page that has a `</body>`. */
  function Inject(html: string, tag: string, pin: string): (r: string)
    ensures !Contains(html, "</body>") ==> r == html
  {
    if !Contains(html, "</body>") then html
    else ReplaceAll(StyleBody(html, tag), "</body>", pin + "</body>")
  }

  /** `inject_pinned_footer(html, page_num, page_total, height_px)`. */
  function InjectPinnedFooter(html: string, pageNum: int, pageTotal: int, heightPx: int): string {
    Inject(html, BodyTag(AtLeast200(heightPx)), PinHtml(pageNum, pageTotal, FooterTop(heightPx)))
  }

  /** `pat` occurs at `j` and nowhere before. */
  predicate FirstAt(s: string, pat: string, j: int) {
    OccursAt(s, pat, j) && forall k :: 0 <= k < j ==> !OccursAt(s, pat, k)
  }

  /** `s.replace(pat, rep, 1)` rewrites the first occurrence and nothing else. */
  lemma ReplaceFirstAt(s: string, pat: string, rep: string, j: nat)
    requires FirstAt(s, pat, j)
    ensures ReplaceFirst(s, pat, rep) == s[..j] + rep + s[j + |pat|..]
  {
    assert Contains(s, pat);
    var k := Find(s, pat).value;
    assert !(k < j) && !(j < k);
  }

  /** An occurrence one character further on. */
  lemma OccursShift(u: string, pat: string, k: nat)
    requires u != []
    ensures OccursAt(u[1..], pat, k) <==> OccursAt(u, pat, k + 1)
  {
    if k + |pat| <= |u| - 1 {
      assert u[1..][k..k + |pat|] == u[k + 1..k + 1 + |pat|];
    }
  }

  /** A character that differs from the pattern's rules out a match. */
  lemma NotOccurs(s: string, pat: string, k: nat, m: nat)
    requires m < |pat| && (k + m < |s| ==> s[k + m] != pat[m])
    ensures !OccursAt(s, pat, k)
  {
    if k + |pat| <= |s| {
      assert s[k..k + |pat|][m] == s[k + m];
    }
  }

  /** Two strings with the same first `n` characters have the same matches
      there. */
  lemma OccursInPrefix(s: string, t: string, pat: string, k: nat, n: nat)
    requires n <= |s| && n <= |t| && s[..n] == t[..n] && k + |pat| <= n
    ensures OccursAt(s, pat, k) <==> OccursAt(t, pat, k)
  {
    assert s[k..k + |pat|] == s[..n][k..k + |pat|];
    assert t[k..k + |pat|] == t[..n][k..k + |pat|];
  }

  /** Two strings with the same tail from `a` and `b` on have the same
      matches there. */
  lemma OccursInSuffix(s: string, t: string, pat: string, k: nat, a: nat, b: nat)
    requires a <= k && k + |pat| <= |s| && b <= |t| && s[a..] == t[b..]
    ensures OccursAt(s, pat, k) <==> OccursAt(t, pat, k - a + b)
  {
    assert |t| - b == |s[a..]| == |s| - a;
    var m := k - a + b;
    var x, y := s[k..k + |pat|], t[m..m + |pat|];
    forall q | 0 <= q < |pat|
      ensures x[q] == y[q]
    {
      assert s[k + q] == s[a..][k - a + q];
      assert t[m + q] == t[b..][k - a + q];
    }
    assert x == y;
  }

  /** `s.replace(pat, rep)` copies a prefix in which no match starts. */
  lemma {:induction false} ReplaceAllSkip(u: string, pat: string, rep: string, n: nat)
    requires pat != [] && n <= |u|
    requires forall k :: 0 <= k < n ==> !OccursAt(u, pat, k)
    ensures ReplaceAll(u, pat, rep) == u[..n] + ReplaceAll(u[n..], pat, rep)
    decreases n
  {
    if n == 0 {
      assert u[n..] == u;
    } else if |u| < |pat| {
      assert u[..n] + u[n..] == u;
    } else {
      var t := u[1..];
      var tail := ReplaceAll(u[n..], pat, rep);
      assert ReplaceAll(u, pat, rep) == [u[0]] + ReplaceAll(t, pat, rep) by {
        assert !OccursAt(u, pat, 0);
        assert u[0..|pat|] == u[..|pat|];
      }
      assert ReplaceAll(t, pat, rep) == t[..n - 1] + tail by {
        forall k | 0 <= k < n - 1
          ensures !OccursAt(t, pat, k)
        {
          OccursShift(u, pat, k);
        }
        ReplaceAllSkip(t, pat, rep, n - 1);
        assert t[n - 1..] == u[n..];
      }
      assert [u[0]] + t[..n - 1] == u[..n];
      assert [u[0]] + (t[..n - 1] + tail) == u[..n] + tail;
    }
  }

  /** `s.replace(pat, rep)` leaves everything before the first occurrence
      alone and rewrites that occurrence. */
  lemma ReplaceAllAt(s: string, pat: string, rep: string, j: nat)
    requires pat != [] && FirstAt(s, pat, j)
    ensures ReplaceAll(s, pat, rep) == s[..j] + rep + ReplaceAll(s[j + |pat|..], pat, rep)
  {
    var v := s[j..];
    var w := s[j + |pat|..];
    assert v[|pat|..] == w;
    var tail := ReplaceAll(w, pat, rep);
    assert ReplaceAll(v, pat, rep) == rep + tail by {
      assert |v| >= |pat|;
      assert v[..|pat|] == s[j..j + |pat|];
    }
    assert ReplaceAll(s, pat, rep) == s[..j] + (rep + tail) by {
      ReplaceAllSkip(s, pat, rep, j);
    }
    assert s[..j] + (rep + tail) == s[..j] + rep + tail;
  }

  /** After the `<body>` tag is replaced by one without `</` in it, the first
      `</body>` that followed it is still the first, shifted by the growth. */
  lemma FirstCloseAfterTag(html: string, i: nat, j: nat, tag: string)
    requires OccursAt(html, "<body>", i) && i + 6 <= j && FirstAt(html, "</body>", j)
    requires |tag| >= 2 && tag[0] == '<' && tag[1] != '/'
    requires forall k :: 1 <= k < |tag| ==> tag[k] != '<'
    ensures FirstAt(html[..i] + tag + html[i + 6..], "</body>", j - 6 + |tag|)
  {
    var pat := "</body>";
    var s := html[..i] + tag + html[i + 6..];
    var d := |tag| - 6;
    assert s[..i] == html[..i];
    assert s[i..i + |tag|] == tag;
    assert s[i + |tag|..] == html[i + 6..];
    assert s[j + d..j + d + 7] == html[j..j + 7];
    assert forall k :: i <= k < i + |tag| ==> s[k] == tag[k - i] by {
      forall k | i <= k < i + |tag|
        ensures s[k] == tag[k - i]
      {
        assert s[k] == s[i..i + |tag|][k - i];
      }
    }
    assert s[i] == '<' && s[i + 1] == tag[1];
    forall k | 0 <= k < j + d
      ensures !OccursAt(s, pat, k)
    {
      if k + 7 > |s| {
      } else if k + 7 <= i {
        OccursInPrefix(s, html, pat, k, i);
      } else if k < i {
        NotOccurs(s, pat, k, i - k);
      } else if k == i {
        NotOccurs(s, pat, k, 1);
      } else if k < i + |tag| {
        NotOccurs(s, pat, k, 0);
      } else {
        OccursInSuffix(s, html, pat, k, i + |tag|, i + 6);
      }
    }
  }

  lemma BodyTagShape(h: int)
    ensures |BodyTag(h)| >= 2 && BodyTag(h)[0] == '<' && BodyTag(h)[1] == 'b'
    ensures forall k :: 1 <= k < |BodyTag(h)| ==> BodyTag(h)[k] != '<'
  {
    var digits := IntToString(h);
    DigitsHaveNoTag(h);
    var a := "<body style='position:relative;height:";
    var b := "px;overflow:hidden;'>";
    assert BodyTag(h) == a + digits + b;
    assert forall k :: 1 <= k < |a| ==> a[k] != '<';
    assert forall k :: 0 <= k < |b| ==> b[k] != '<';
    forall k | 1 <= k < |BodyTag(h)|
      ensures BodyTag(h)[k] != '<'
    {
      if k < |a| {
        assert BodyTag(h)[k] == a[k];
      } else if k < |a| + |digits| {
        assert BodyTag(h)[k] == digits[k - |a|];
      } else {
        assert BodyTag(h)[k] == b[k - |a| - |digits|];
      }
    }
  }

  lemma DigitsHaveNoTag(h: int)
    ensures forall k :: 0 <= k < |IntToString(h)| ==> IntToString(h)[k] != '<'
  {
    if h < 0 {
      assert IntToString(h) == "-" + NatToString(-h);
    }
  }

  /** A page with a `<body>` tag before its first `</body>`: that tag is
      replaced by `tag`, and `pin` goes in front of that `</body>` (and of any
      later one); nothing else changes. */
  lemma InjectAt(html: string, tag: string, pin: string, i: nat, j: nat)
    requires FirstAt(html, "<body>", i) && i + 6 <= j && FirstAt(html, "</body>", j)
    requires |tag| >= 2 && tag[0] == '<' && tag[1] != '/'
    requires forall k :: 1 <= k < |tag| ==> tag[k] != '<'
    ensures Inject(html, tag, pin)
      == html[..i] + tag + html[i + 6..j] + (pin + "</body>") + ReplaceAll(html[j + 7..], "</body>", pin + "</body>")
  {
    var styled := html[..i] + tag + html[i + 6..];
    assert Inject(html, tag, pin) == ReplaceAll(StyleBody(html, tag), "</body>", pin + "</body>") by {
      assert OccursAt(html, "</body>", j);
    }
    assert StyleBody(html, tag) == styled by {
      assert OccursAt(html, "<body>", i);
      ReplaceFirstAt(html, "<body>", tag, i);
    }
    PinAfterStyledBody(html, tag, pin, i, j);
  }

  /** The pin in front of the first `</body>` of the page with its `<body>`
      tag replaced. */
  lemma PinAfterStyledBody(html: string, tag: string, pin: string, i: nat, j: nat)
    requires OccursAt(html, "<body>", i) && i + 6 <= j && FirstAt(html, "</body>", j)
    requires |tag| >= 2 && tag[0] == '<' && tag[1] != '/'
    requires forall k :: 1 <= k < |tag| ==> tag[k] != '<'
    ensures ReplaceAll(html[..i] + tag + html[i + 6..], "</body>", pin + "</body>")
      == html[..i] + tag + html[i + 6..j] + (pin + "</body>") + ReplaceAll(html[j + 7..], "</body>", pin + "</body>")
  {
    var styled := html[..i] + tag + html[i + 6..];
    var j2 := j - 6 + |tag|;
    assert FirstAt(styled, "</body>", j2) by {
      FirstCloseAfterTag(html, i, j, tag);
    }
    var front := html[..i] + tag + html[i + 6..j];
    assert styled[..j2] == front;
    assert styled[j2 + 7..] == html[j + 7..];
    ReplaceAllAtParts(styled, "</body>", pin + "</body>", j2, front, html[j + 7..]);
  }

  lemma ReplaceAllAtParts(s: string, pat: string, rep: string, j: nat, front: string, rest: string)
    requires pat != [] && FirstAt(s, pat, j) && s[..j] == front && s[j + |pat|..] == rest
    ensures ReplaceAll(s, pat, rep) == front + rep + ReplaceAll(rest, pat, rep)
  {
    ReplaceAllAt(s, pat, rep, j);
  }

  /** A page without a `<body>` tag gets only the pin, in front of its first
      `</body>`. */
  lemma InjectWithoutBodyTag(html: string, tag: string, pin: string, j: nat)
    requires !Contains(html, "<body>") && FirstAt(html, "</body>", j)
    ensures Inject(html, tag, pin)
      == html[..j] + (pin + "</body>") + ReplaceAll(html[j + 7..], "</body>", pin + "</body>")
  {
    var close := pin + "</body>";
    assert Inject(html, tag, pin) == ReplaceAll(html, "</body>", close) by {
      assert OccursAt(html, "</body>", j);
    }
    assert ReplaceAll(html, "</body>", close) == html[..j] + close + ReplaceAll(html[j + 7..], "</body>", close) by {
      ReplaceAllAt(html, "</body>", close, j);
    }
  }

  /** The sized `<body>` tag and the pin of page `pageNum` of `pageTotal` in a
      viewer `heightPx` high, placed as `InjectAt` says. */
  lemma InjectIntoPage(html: string, pageNum: int, pageTotal: int, heightPx: int, i: nat, j: nat)
    requires FirstAt(html, "<body>", i) && i + 6 <= j && FirstAt(html, "</body>", j)
    ensures var pin := PinHtml(pageNum, pageTotal, FooterTop(heightPx));
      InjectPinnedFooter(html, pageNum, pageTotal, heightPx)
      == html[..i] + BodyTag(AtLeast200(heightPx)) + html[i + 6..j] + (pin + "</body>")
         + ReplaceAll(html[j + 7..], "</body>", pin + "</body>")
  {
    BodyTagShape(AtLeast200(heightPx));
    InjectAt(html, BodyTag(AtLeast200(heightPx)), PinHtml(pageNum, pageTotal, FooterTop(heightPx)), i, j);
  }

  // ---------- repaginate_and_render ----------

  /** `max(0, min(page_index, len(pages) - 1))`. */
  function ClampPageIndex(pageIndex: int, numPages: nat): (r: int)
    ensures numPages == 0 ==> r == 0
    ensures numPages > 0 ==> 0 <= r < numPages
    ensures 0 <= pageIndex < numPages ==> r == pageIndex
    ensures pageIndex >= numPages > 0 ==> r == numPages - 1
    ensures pageIndex < 0 ==> r == 0
  {
    var m := if pageIndex < numPages - 1 then pageIndex else numPages - 1;
    if m > 0 then m else 0
  }

  /** `song_files[song_idx].name if song_files else "Untitled"`. */
  function SongLabelName(songFiles: seq<string>, songIdx: int): string
    requires songFiles != [] ==> 0 <= songIdx < |songFiles|
  {
    if songFiles != [] then songFiles[songIdx] else "Untitled"
  }

  /** `repaginate_and_render(song, song_files, song_idx, page_index, ...)`:
      `songFiles` holds the file names, and `paginate` stands for chunking the
      song and paginating it at the viewer's size under that file name. */
  function RepaginateAndRender(song: Option<Song>, songFiles: seq<string>, songIdx: int, pageIndex: int,
                               paginate: (Song, string) -> seq<string>): (r: (seq<string>, int))
    requires song.Some? && songFiles != [] ==> 0 <= songIdx < |songFiles|
    ensures song.None? ==> r == ([], pageIndex)
    ensures song.Some? ==> r.0 == paginate(song.value, SongLabelName(songFiles, songIdx))
    ensures song.Some? && r.0 != [] ==> 0 <= r.1 < |r.0|
    ensures song.Some? && r.0 == [] ==> r.1 == 0
    ensures song.Some? && 0 <= pageIndex < |r.0| ==> r.1 == pageIndex
  {
    if song.None? then ([], pageIndex)
    else
      var pages := paginate(song.value, SongLabelName(songFiles, songIdx));
      (pages, ClampPageIndex(pageIndex, |pages|))
  }

  // ---------- render_page ----------

  /** What `render_page` puts in the viewer, if anything; `PageIndexError` is
      the `IndexError` that `pages[page_index]` raises on an index off the list. */
  datatype Shown = Shown(html: string) | NothingShown | PageIndexError

  /** `bg = colors.get("background") or colors.get("bg") or "#000000"`. */
  function BlackoutColor(colors: map<string, string>): (r: string)
    ensures r != ""
    ensures "background" in colors && colors["background"] != "" ==> r == colors["background"]
  {
    if "background" in colors && colors["background"] != "" then colors["background"]
    else if "bg" in colors && colors["bg"] != "" then colors["bg"]
    else "#000000"
  }

  /** Python's `pages[i]`: a negative index counts from the end. */
  function PyIndex(pages: seq<string>, i: int): (r: Option<string>)
    ensures r.Some? <==> -|pages| <= i < |pages|
    ensures 0 <= i < |pages| ==> r == Some(pages[i])
  {
    if 0 <= i < |pages| then Some(pages[i])
    else if -|pages| <= i < 0 then Some(pages[|pages| + i])
    else None
  }

  /** `render_page(blackout, song, pages, page_index, ...)`: the welcome page
      and the viewer height are parameters. */
  function RenderPage(blackout: bool, hasSong: bool, pages: seq<string>, pageIndex: int,
                      colors: map<string, string>, welcomeHtml: string, viewerHeight: int): (r: Shown)
    ensures r.NothingShown? <==> !blackout && hasSong && pages == []
    ensures r.PageIndexError? <==> !blackout && hasSong && pages != [] && !(-|pages| <= pageIndex < |pages|)
    ensures !blackout && hasSong && 0 <= pageIndex < |pages| ==>
      r == Shown(InjectPinnedFooter(pages[pageIndex], pageIndex + 1, |pages|, AtLeast200(viewerHeight)))
  {
    if blackout then Shown("<html><body style='background:" + BlackoutColor(colors) + ";'></body></html>")
    else if !hasSong then Shown(welcomeHtml)
    else if pages == [] then NothingShown
    else match PyIndex(pages, pageIndex)
      case None => PageIndexError
      case Some(html) => Shown(InjectPinnedFooter(html, pageIndex + 1, |pages|, AvailableDocSize(0, viewerHeight).1))
  }

  // ---------- next_page, prev_page, next_song, prev_song ----------

  /** The callbacks a navigation step calls. */
  datatype Effect = RenderCurrent | NextSong | PrevSongToLastPage | LoadSong(index: int)

  /** `next_page(pages, page_index, ...)`: the new index and the callbacks called. */
  function NextPage(pages: seq<string>, pageIndex: int): (r: (int, seq<Effect>))
  {
    if pages == [] then (pageIndex, [])
    else if pageIndex < |pages| - 1 then (pageIndex + 1, [RenderCurrent])
    else (pageIndex, [NextSong])
  }

  /** `prev_page(pages, page_index, ...)`. */
  function PrevPage(pages: seq<string>, pageIndex: int): (r: (int, seq<Effect>))
  {
    if pages == [] then (pageIndex, [])
    else if pageIndex > 0 then (pageIndex - 1, [RenderCurrent])
    else (pageIndex, [PrevSongToLastPage])
  }

  /** Paging stays on the pages: from a page, the next and previous pages are
      pages too, and moving on the last (or back on the first) page hands over
      to the next (previous) song instead. */
  lemma PagingStaysInRange(pages: seq<string>, pageIndex: int)
    requires 0 <= pageIndex < |pages|
    ensures 0 <= NextPage(pages, pageIndex).0 < |pages|
    ensures 0 <= PrevPage(pages, pageIndex).0 < |pages|
    ensures NextPage(pages, pageIndex).1 == [NextSong] <==> pageIndex == |pages| - 1
    ensures PrevPage(pages, pageIndex).1 == [PrevSongToLastPage] <==> pageIndex == 0
  {
  }

  /** Turning a page forward and back, or back and forward, returns to it. */
  lemma NextPrevInverse(pages: seq<string>, pageIndex: int)
    ensures 0 <= pageIndex < |pages| - 1 ==> PrevPage(pages, NextPage(pages, pageIndex).0).0 == pageIndex
    ensures 0 < pageIndex < |pages| ==> NextPage(pages, PrevPage(pages, pageIndex).0).0 == pageIndex
    ensures pages == [] ==> NextPage(pages, pageIndex) == (pageIndex, []) == PrevPage(pages, pageIndex)
  {
  }

  /** `next_song(song_files, song_idx, ...)`: the callbacks called. */
  function NextSongEffects(numSongs: nat, songIdx: int): (r: seq<Effect>)
    ensures numSongs == 0 <==> r == []
    ensures numSongs > 0 && songIdx < numSongs - 1 ==> r == [LoadSong(songIdx + 1)]
  {
    if numSongs == 0 then []
    else if songIdx < numSongs - 1 then [LoadSong(songIdx + 1)]
    else [RenderCurrent]
  }

  /** `prev_song(song_files, song_idx, pages, ..., go_to_last_page)`: the page
      index it returns, if any, and the callbacks called. `pages` are the pages
      passed in: the main window passes the pages of the song shown before the
      move, not those of the song the move loads. */
  function PrevSong(numSongs: nat, songIdx: int, pages: seq<string>, goToLastPage: bool): (r: (Option<int>, seq<Effect>))
  {
    if numSongs == 0 then (None, [])
    else if songIdx > 0 then
      if goToLastPage && pages != [] then
        var last := |pages| - 1;
        (Some(if last > 0 then last else 0), [LoadSong(songIdx - 1), RenderCurrent])
      else (None, [LoadSong(songIdx - 1)])
    else (None, [RenderCurrent])
  }

  /** Going to the previous song loads it exactly when there is one before;
      a page index is returned only when asked for the last page, and it is
      the last of the pages passed in. */
  lemma PrevSongSpec(numSongs: nat, songIdx: int, pages: seq<string>, goToLastPage: bool)
    ensures var r := PrevSong(numSongs, songIdx, pages, goToLastPage);
      (r.1 != [] && r.1[0].LoadSong? <==> numSongs > 0 && songIdx > 0)
      && (r.1 != [] && r.1[0].LoadSong? ==> r.1[0].index == songIdx - 1)
      && (r.0.Some? <==> numSongs > 0 && songIdx > 0 && goToLastPage && pages != [])
      && (r.0.Some? ==> r.0.value == |pages| - 1)
  {
  }

  /** Going forward from the last song of a list and back from the first
      re-renders the current song instead of loading one. */
  lemma SongEnds(numSongs: nat, pages: seq<string>, goToLastPage: bool)
    requires numSongs > 0
    ensures NextSongEffects(numSongs, numSongs - 1) == [RenderCurrent]
    ensures PrevSong(numSongs, 0, pages, goToLastPage) == (None, [RenderCurrent])
  {
  }

  // ---------- the main window's paging (app/ui_main.py) ----------

  /** The paging state of the main window: the song shown, its pages, the page
      index, and the index of the page the viewer last rendered. */
  datatype Window = Window(songIdx: int, pages: seq<string>, pageIndex: int, showing: int)

  /** The window's `render()` with the blackout off and a song loaded: the page
      at the window's index is shown; `None` is the `IndexError` that escapes
      for an index off the pages. With no pages nothing new is shown. */
  function WindowRender(w: Window): (r: Option<Window>)
    ensures r.None? <==> w.pages != [] && !(-|w.pages| <= w.pageIndex < |w.pages|)
    ensures 0 <= w.pageIndex < |w.pages| ==> r == Some(w.(showing := w.pageIndex))
    ensures w.pages == [] ==> r == Some(w)
  {
    if w.pages == [] then Some(w)
    else if PyIndex(w.pages, w.pageIndex).Some? then Some(w.(showing := w.pageIndex))
    else None
  }

  /** The window's `load_song_by_index(idx)` on a list of `numSongs` songs whose
      pages `pagesOf` gives: the index is clamped, the page index reset to 0
      and the song rendered. */
  function WindowLoad(numSongs: nat, pagesOf: int -> seq<string>, w: Window, idx: int): (r: Window)
    requires numSongs > 0
    ensures 0 <= r.songIdx < numSongs && r.pages == pagesOf(r.songIdx) && r.pageIndex == 0
    ensures 0 <= idx < numSongs ==> r.songIdx == idx
    ensures r.pages != [] ==> r.showing == 0
  {
    var i := ClampPageIndex(idx, numSongs);
    WindowRender(Window(i, pagesOf(i), 0, w.showing)).value
  }

  /** The window's `next_song()`: the next song is loaded, or the last one
      rendered again. */
  function WindowNextSong(numSongs: nat, pagesOf: int -> seq<string>, w: Window): (r: Option<Window>)
  {
    var effects := NextSongEffects(numSongs, w.songIdx);
    if effects == [] then Some(w)
    else if effects[0].LoadSong? then Some(WindowLoad(numSongs, pagesOf, w, effects[0].index))
    else WindowRender(w)
  }

  /** The window's `prev_song(go_to_last_page)`: the callbacks `prev_song` calls
      run in order, then a returned index is stored. */
  function WindowPrevSong(numSongs: nat, pagesOf: int -> seq<string>, w: Window, goToLastPage: bool): (r: Option<Window>)
  {
    var (ret, effects) := PrevSong(numSongs, w.songIdx, w.pages, goToLastPage);
    var after :=
      if effects == [] then Some(w)
      else if effects[0].LoadSong? then
        var loaded := WindowLoad(numSongs, pagesOf, w, effects[0].index);
        if |effects| > 1 then WindowRender(loaded) else Some(loaded)
      else WindowRender(w);
    if after.Some? && ret.Some? then Some(after.value.(pageIndex := ret.value)) else after
  }

  /** The window's `next_page()`: `next_page` runs its callback, which reads the
      window's index before it is updated, and the window then stores the index
      `next_page` returns. */
  function WindowNextPage(numSongs: nat, pagesOf: int -> seq<string>, w: Window): (r: Option<Window>)
  {
    var (idx, effects) := NextPage(w.pages, w.pageIndex);
    var after :=
      if effects == [RenderCurrent] then WindowRender(w)
      else if effects == [NextSong] then WindowNextSong(numSongs, pagesOf, w)
      else Some(w);
    if after.Some? then Some(after.value.(pageIndex := idx)) else None
  }

  /** The window's `prev_page()`, in the same way. */
  function WindowPrevPage(numSongs: nat, pagesOf: int -> seq<string>, w: Window): (r: Option<Window>)
  {
    var (idx, effects) := PrevPage(w.pages, w.pageIndex);
    var after :=
      if effects == [RenderCurrent] then WindowRender(w)
      else if effects == [PrevSongToLastPage] then WindowPrevSong(numSongs, pagesOf, w, true)
      else Some(w);
    if after.Some? then Some(after.value.(pageIndex := idx)) else None
  }

  /** As written, a page turn renders the page at the index before the turn, and
      only then stores the new index: the viewer stays on the old page. */
  lemma PageTurnRendersOldPage(numSongs: nat, pagesOf: int -> seq<string>, w: Window)
    requires 0 <= w.pageIndex < |w.pages|
    ensures w.pageIndex < |w.pages| - 1 ==>
      WindowNextPage(numSongs, pagesOf, w) == Some(w.(showing := w.pageIndex, pageIndex := w.pageIndex + 1))
    ensures 0 < w.pageIndex ==>
      WindowPrevPage(numSongs, pagesOf, w) == Some(w.(showing := w.pageIndex, pageIndex := w.pageIndex - 1))
  {
  }

  /** As written, going back from the first page of a song loads the previous
      song and, although `prev_song` is asked for the last page, ends on its
      first: the index `prev_page` returns overwrites the one `prev_song` stored. */
  lemma BackFromFirstPageLandsOnFirstPage(numSongs: nat, pagesOf: int -> seq<string>, w: Window)
    requires 0 < w.songIdx < numSongs && w.pages != [] && w.pageIndex == 0 && pagesOf(w.songIdx - 1) != []
    ensures WindowPrevPage(numSongs, pagesOf, w) == Some(Window(w.songIdx - 1, pagesOf(w.songIdx - 1), 0, 0))
  {
  }

  /** As written, going forward from the last page of a song loads the next song
      at its first page but then stores the old index again. */
  lemma ForwardFromLastPageKeepsIndex(numSongs: nat, pagesOf: int -> seq<string>, w: Window)
    requires 0 <= w.songIdx < numSongs - 1 && w.pages != [] && w.pageIndex == |w.pages| - 1
    requires pagesOf(w.songIdx + 1) != []
    ensures WindowNextPage(numSongs, pagesOf, w) == Some(Window(w.songIdx + 1, pagesOf(w.songIdx + 1), |w.pages| - 1, 0))
  {
  }

  /** The pages of the example: a three-page song followed by a one-page song. */
  function ExamplePages(i: int): seq<string> {
    if i == 0 then ["a1", "a2", "a3"] else ["b1"]
  }

  /** The example: forward from the third page of the first song shows the
      one-page song with the index left at 2, and going back then raises
      `IndexError`. */
  lemma StaleIndexRaises()
    ensures WindowNextPage(2, ExamplePages, Window(0, ExamplePages(0), 2, 2)) == Some(Window(1, ["b1"], 2, 0))
    ensures WindowPrevPage(2, ExamplePages, Window(1, ["b1"], 2, 0)).None?
  {
    ForwardFromLastPageKeepsIndex(2, ExamplePages, Window(0, ExamplePages(0), 2, 2));
  }

  /** Paging as evidently intended: the new index is stored before the page is
      rendered, and a song change keeps the index the loaded song is given, its
      first page going forward and its last page going back. */
  function FixedNextPage(numSongs: nat, pagesOf: int -> seq<string>, w: Window): (r: Option<Window>)
  {
    if w.pages == [] then Some(w)
    else if w.pageIndex < |w.pages| - 1 then WindowRender(w.(pageIndex := w.pageIndex + 1))
    else WindowNextSong(numSongs, pagesOf, w)
  }

  function FixedPrevPage(numSongs: nat, pagesOf: int -> seq<string>, w: Window): (r: Option<Window>)
  {
    if w.pages == [] then Some(w)
    else if w.pageIndex > 0 then WindowRender(w.(pageIndex := w.pageIndex - 1))
    else if numSongs > 0 && w.songIdx > 0 then
      var loaded := WindowLoad(numSongs, pagesOf, w, w.songIdx - 1);
      WindowRender(loaded.(pageIndex := if loaded.pages != [] then |loaded.pages| - 1 else 0))
    else WindowRender(w)
  }

  /** The window is on a page of the current song and shows that page, every
      song having at least one page. */
  predicate Steady(numSongs: nat, pagesOf: int -> seq<string>, w: Window) {
    && 0 <= w.songIdx < numSongs && w.pages == pagesOf(w.songIdx)
    && 0 <= w.pageIndex < |w.pages| && w.showing == w.pageIndex
    && forall i | 0 <= i < numSongs :: pagesOf(i) != []
  }

  /** With the intended paging, every step from a steady window succeeds and
      shows the page the index names; forward from a last page goes to the
      next song's first page, back from a first page to the previous song's
      last page. */
  lemma FixedPagingSteady(numSongs: nat, pagesOf: int -> seq<string>, w: Window)
    requires Steady(numSongs, pagesOf, w)
    ensures FixedNextPage(numSongs, pagesOf, w).Some? && Steady(numSongs, pagesOf, FixedNextPage(numSongs, pagesOf, w).value)
    ensures FixedPrevPage(numSongs, pagesOf, w).Some? && Steady(numSongs, pagesOf, FixedPrevPage(numSongs, pagesOf, w).value)
    ensures w.pageIndex == |w.pages| - 1 && w.songIdx < numSongs - 1 ==>
      var r := FixedNextPage(numSongs, pagesOf, w).value;
      r.songIdx == w.songIdx + 1 && r.pageIndex == 0
    ensures w.pageIndex == 0 && w.songIdx > 0 ==>
      var r := FixedPrevPage(numSongs, pagesOf, w).value;
      r.songIdx == w.songIdx - 1 && r.pageIndex == |pagesOf(w.songIdx - 1)| - 1
  {
    if w.pageIndex == |w.pages| - 1 && w.songIdx < numSongs - 1 {
      assert pagesOf(w.songIdx + 1) != [];
    }
    if w.pageIndex == 0 && w.songIdx > 0 {
      assert pagesOf(w.songIdx - 1) != [];
    }
  }

  /** With the intended paging, a page forward and a page back within a song
      return to the same window. */
  lemma FixedNextPrevInverse(numSongs: nat, pagesOf: int -> seq<string>, w: Window)
    requires Steady(numSongs, pagesOf, w) && w.pageIndex < |w.pages| - 1
    ensures FixedPrevPage(numSongs, pagesOf, FixedNextPage(numSongs, pagesOf, w).value) == Some(w)
  {
  }

  /** As written, a steady window does not stay steady: the page turn leaves
      the viewer behind the index. */
  lemma WrittenPagingNotSteady(numSongs: nat, pagesOf: int -> seq<string>, w: Window)
    requires Steady(numSongs, pagesOf, w) && w.pageIndex < |w.pages| - 1
    ensures WindowNextPage(numSongs, pagesOf, w).Some?
    ensures !Steady(numSongs, pagesOf, WindowNextPage(numSongs, pagesOf, w).value)
  {
    PageTurnRendersOldPage(numSongs, pagesOf, w);
  }
}
