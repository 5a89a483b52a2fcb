/** The application's renderer (app/render.py): the stage renderer's chunks
    and pages, with each line marked by its semantic section (verse, chorus or
    bridge) and pages without the footer and hint, which the viewer pins on
    itself. The style sheet is a parameter. */
module AppRender {
  import opened Wrappers
  import opened Strings
  import opened ChordPro
  import opened RenderHtml

  /** `SEMANTIC_CONTENT_SECTIONS`. */
  const ContentSections: set<string> := {"verse", "chorus", "bridge"}

  /** The separator of the meta line as the file spells it: the UTF-8 bytes of
      a bullet read as Windows-1252, between spaces. */
  const MetaSeparator := " \U{00E2}\U{20AC}\U{00A2} "

  const CloseHtml := "</div></body></html>"

  /** `song_label_title(song, fallback)`. */
  function Label(song: Song, fallback: string): Label {
    LabelOf(song.meta, fallback, MetaSeparator)
  }

  // ---------- normalize_content_section_kind ----------

  /** `normalize_content_section_kind(block_kind)`; None and "" stand for a
      missing kind. */
  function NormalizeKind(blockKind: Option<string>): (r: string)
    ensures r in ContentSections
  {
    var kind := Lower(Strip(if blockKind.Some? && blockKind.value != "" then blockKind.value else "verse"));
    if kind in ContentSections then kind else "verse"
  }

  /** Each content section is its own normal form. */
  lemma NormalizeKnown(k: string)
    requires k in ContentSections
    ensures NormalizeKind(Some(k)) == k
  {
    assert 'a' <= k[0] <= 'z' && 'a' <= k[|k| - 1] <= 'z';
    assert forall i :: 0 <= i < |k| ==> 'a' <= k[i] <= 'z';
    LowerCharSpace(k[0]);
    LowerCharSpace(k[|k| - 1]);
    NormalizePlain(k);
  }

  /** A stripped kind without capitals is kept when it names a content section. */
  lemma NormalizePlain(s: string)
    requires s != "" && Stripped(s)
    requires forall i :: 0 <= i < |s| ==> !('A' <= s[i] <= 'Z')
    ensures NormalizeKind(Some(s)) == if s in ContentSections then s else "verse"
  {
    StrippedIsFixed(s);
    LowerWithoutCapitals(s);
  }

  lemma {:induction false} LowerWithoutCapitals(s: string)
    requires forall i :: 0 <= i < |s| ==> !('A' <= s[i] <= 'Z')
    ensures Lower(s) == s
  {
    if s != [] {
      LowerWithoutCapitals(s[1..]);
    }
  }

  /** A missing kind is a verse, and normalising twice changes nothing. */
  lemma NormalizeMissingAndIdempotent(blockKind: Option<string>)
    ensures NormalizeKind(None) == "verse" && NormalizeKind(Some("")) == "verse"
    ensures NormalizeKind(Some(NormalizeKind(blockKind))) == NormalizeKind(blockKind)
  {
    NormalizeKnown("verse");
    NormalizeKnown(NormalizeKind(blockKind));
  }

  /** Surrounding whitespace does not matter. */
  lemma NormalizeIgnoresSpace(pre: string, s: string, post: string)
    requires IsBlank(pre) && Stripped(s) && IsBlank(post)
    ensures NormalizeKind(Some(pre + s + post)) == NormalizeKind(Some(s))
  {
    StripOfStripped(pre, s, post);
    if s == "" {
      NormalizeKnown("verse");
    }
  }

  lemma {:induction false} LowerPrefix(s: string, n: nat)
    requires n <= |s|
    ensures Lower(s[..n]) == Lower(s)[..n]
  {
    forall i | 0 <= i < n
      ensures Lower(s[..n])[i] == Lower(s)[i]
    {
      LowerAt(s[..n], i);
      LowerAt(s, i);
    }
  }

  /** Lower-casing neither makes nor removes whitespace. */
  lemma LowerCharSpace(c: char)
    ensures LowerChar(c) in Whitespace <==> c in Whitespace
  {
    if 'A' <= c <= 'Z' {
      assert 'a' <= LowerChar(c) <= 'z';
    }
  }

  lemma {:induction false} LStripLower(s: string)
    ensures LStrip(Lower(s)) == Lower(LStrip(s))
  {
    if s != [] {
      var l := Lower(s);
      LowerAt(s, 0);
      LowerCharSpace(s[0]);
      assert l[1..] == Lower(s[1..]);
      if s[0] in Whitespace {
        assert LStrip(l) == LStrip(l[1..]);
        LStripLower(s[1..]);
      } else {
        assert LStrip(l) == l;
      }
    }
  }

  lemma {:induction false} RStripLower(s: string)
    ensures RStrip(Lower(s)) == Lower(RStrip(s))
    decreases |s|
  {
    if s != [] {
      var l := Lower(s);
      var n := |s| - 1;
      LowerAt(s, n);
      LowerCharSpace(s[n]);
      LowerPrefix(s, n);
      if s[n] in Whitespace {
        assert RStrip(l) == RStrip(l[..n]);
        RStripLower(s[..n]);
      } else {
        assert RStrip(l) == l;
      }
    }
  }

  /** Letter case does not matter. */
  lemma NormalizeIgnoresCase(s: string)
    ensures NormalizeKind(Some(Lower(s))) == NormalizeKind(Some(s))
  {
    if s != "" {
      LStripLower(s);
      RStripLower(LStrip(s));
      LowerIdempotent(Strip(s));
    }
  }

  // ---------- render_line_html ----------

  /** The classes of a line: `line`, its section, and `chorusline` for a chorus. */
  function ClassList(blockKind: string): (r: seq<string>)
    ensures |r| >= 2 && r[0] == "line" && r[1] == "section-" + NormalizeKind(Some(blockKind))
    ensures "chorusline" in r <==> NormalizeKind(Some(blockKind)) == "chorus"
  {
    var kind := NormalizeKind(Some(blockKind));
    assert "section-" + kind != "chorusline";
    ["line", "section-" + kind] + (if kind == "chorus" then ["chorusline"] else [])
  }

  function LineClass(blockKind: string): (r: string)
    ensures r != [] && r[0] == 'l'
  {
    var classes := ClassList(blockKind);
    assert Join(" ", classes) == classes[0] + " " + Join(" ", classes[1..]);
    Join(" ", classes)
  }

  /** `render_line_html(line, block_kind)`. */
  method RenderLine(line: Line, blockKind: string) returns (html: string)
    ensures html == LineHtml(LineClass(blockKind), line.tokens)
  {
    var kind := NormalizeKind(Some(blockKind));
    var classes := ["line", "section-" + kind];
    if kind == "chorus" {
      classes := classes + ["chorusline"];
    }
    assert classes == ClassList(blockKind);
    var klass := Join(" ", classes);
    html := RenderLineWithClass(klass, line.tokens);
  }

  // ---------- song_to_chunks ----------

  function CommentChunk(b: Block): string {
    "<div class='comment'>" + EscapeHtml(if b.text.Some? then b.text.value else "") + "</div>"
  }

  function LineChunks(b: Block): (r: seq<string>)
    ensures |r| == |b.lines|
  {
    seq(|b.lines|, k requires 0 <= k < |b.lines| => LineHtml(LineClass(b.kind), b.lines[k].tokens))
  }

  function BlockChunks(b: Block): seq<string> {
    if b.kind == "comment" then [CommentChunk(b)] else LineChunks(b) + [SpacerHtml]
  }

  function RawChunks(blocks: seq<Block>): seq<string> {
    if blocks == [] then [] else RawChunks(blocks[..|blocks| - 1]) + BlockChunks(blocks[|blocks| - 1])
  }

  /** `song_to_chunks(song)`. */
  function Chunks(song: Song): seq<string> {
    TrimSpacers(RawChunks(song.blocks))
  }

  method RenderBlockLines(b: Block) returns (cs: seq<string>)
    ensures cs == LineChunks(b)
  {
    cs := [];
    var li := 0;
    while li < |b.lines|
      invariant 0 <= li <= |b.lines|
      invariant cs == LineChunks(b)[..li]
    {
      var html := RenderLine(b.lines[li], b.kind);
      assert LineChunks(b)[..li + 1] == LineChunks(b)[..li] + [html];
      cs := cs + [html];
      li := li + 1;
    }
  }

  lemma RawChunksSnoc(blocks: seq<Block>, i: nat)
    requires i < |blocks|
    ensures RawChunks(blocks[..i + 1]) == RawChunks(blocks[..i]) + BlockChunks(blocks[i])
  {
    assert blocks[..i + 1][..i] == blocks[..i];
  }

  /** `song_to_chunks(song)`. */
  method SongToChunks(song: Song) returns (chunks: seq<string>)
    ensures chunks == Chunks(song)
  {
    var blocks := song.blocks;
    chunks := [];
    var bi := 0;
    while bi < |blocks|
      invariant 0 <= bi <= |blocks|
      invariant chunks == RawChunks(blocks[..bi])
    {
      var b := blocks[bi];
      RawChunksSnoc(blocks, bi);
      if b.kind == "comment" {
        chunks := chunks + [CommentChunk(b)];
      } else {
        var lines := RenderBlockLines(b);
        chunks := chunks + lines + [SpacerHtml];
      }
      bi := bi + 1;
    }
    assert blocks[..bi] == blocks;
    chunks := PopSpacers(chunks);
  }

  /** A block adds one chunk if it is a comment, and otherwise one chunk per line
      followed by a spacer; a line chunk is never mistaken for a spacer. */
  lemma BlockChunksShape(b: Block)
    ensures var cs := BlockChunks(b);
      (b.kind == "comment" ==> cs == [CommentChunk(b)] && !IsSpacer(cs[0]))
      && (b.kind != "comment" ==>
            |cs| == |b.lines| + 1 && IsSpacer(cs[|b.lines|])
            && forall k :: 0 <= k < |b.lines| ==> !IsSpacer(cs[k]))
  {
    if b.kind == "comment" {
      var head := "<div class='comment'>";
      assert head[12] == 'c';
      NotSpacer(CommentChunk(b), head);
    } else {
      var cs := BlockChunks(b);
      forall k | 0 <= k < |b.lines|
        ensures !IsSpacer(cs[k])
      {
        LineIsNotSpacer(LineClass(b.kind), b.lines[k].tokens);
      }
      assert Strip(SpacerHtml) == SpacerHtml by {
        StrippedIsFixed(SpacerHtml);
      }
    }
  }

  /** The chunks never end with a spacer, only spacers are dropped from the raw
      chunks, and every line and comment chunk is kept. */
  lemma ChunksSpec(song: Song)
    ensures var raw := RawChunks(song.blocks);
      var cs := Chunks(song);
      cs <= raw
      && (cs != [] ==> !IsSpacer(cs[|cs| - 1]))
      && (forall i :: |cs| <= i < |raw| ==> IsSpacer(raw[i]))
      && (forall i :: 0 <= i < |raw| && !IsSpacer(raw[i]) ==> i < |cs|)
  {
    TrimSpacersSpec(RawChunks(song.blocks));
  }

  // ---------- render_page_html ----------

  /** `render_page_html(cfg, song, song_filename, page_num, page_total, body_chunks)`,
      `css` standing for `stagepro_css(cfg)`; the page number and total are unused. */
  function PageHtml(css: string, song: Song, songFilename: string, pageNum: int, pageTotal: int, body: seq<string>): string {
    Join("", HeadParts(css, Label(song, songFilename)) + body + [CloseHtml])
  }

  /** A page is the head, the body chunks verbatim and in order, and the closing
      tags: no footer and no hint. */
  lemma PageLayout(css: string, song: Song, songFilename: string, pageNum: int, pageTotal: int, body: seq<string>)
    ensures PageHtml(css, song, songFilename, pageNum, pageTotal, body)
      == Join("", HeadParts(css, Label(song, songFilename))) + Join("", body) + CloseHtml
  {
    JoinThree(HeadParts(css, Label(song, songFilename)), body, [CloseHtml]);
  }
}
