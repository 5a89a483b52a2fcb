/** The stage renderer (stagepro/render.py): a parsed song becomes a list of
    HTML chunks, one per line or comment, that pagination may break between,
    and a page is the song's title block, a run of chunks, a footer with the
    page number and a hint line. The style sheet is a parameter. */
module StageRender {
  import opened Wrappers
  import opened Strings
  import opened ChordPro
  import opened RenderHtml

  /** The separator of the meta line, a bullet between spaces. */
  const MetaSeparator := " \U{2022} "

  const HintHtml := "<div class='hint'>PgUp/PgDn \U{2022} Hold PgUp+PgDn OR \U{2190}+\U{2192} to exit</div>"

  const CloseHtml := "</div></body></html>"

  /** `song_label_title(song, fallback)`. */
  function Label(song: Song, fallback: string): Label {
    LabelOf(song.meta, fallback, MetaSeparator)
  }

  // ---------- render_line_html ----------

  function LineClass(chorus: bool): (r: string)
    ensures r == "line chorusline" <==> chorus
    ensures "line" <= r
  {
    if chorus then "line chorusline" else "line"
  }

  /** `render_line_html(line, chorus)`. */
  method RenderLine(line: Line, chorus: bool) returns (html: string)
    ensures html == LineHtml(LineClass(chorus), line.tokens)
  {
    var klass := if chorus then "line chorusline" else "line";
    html := RenderLineWithClass(klass, line.tokens);
  }

  // ---------- song_to_chunks ----------

  /** A comment block's chunk; a missing text renders as empty. */
  function CommentChunk(b: Block): string {
    "<div class='comment'>" + EscapeHtml(if b.text.Some? then b.text.value else "") + "</div>"
  }

  function LineChunks(b: Block): (r: seq<string>)
    ensures |r| == |b.lines|
  {
    seq(|b.lines|, k requires 0 <= k < |b.lines| => LineHtml(LineClass(b.kind == "chorus"), b.lines[k].tokens))
  }

  /** The chunks one block adds: its comment, or its lines and a spacer. */
  function BlockChunks(b: Block): seq<string> {
    if b.kind == "comment" then [CommentChunk(b)] else LineChunks(b) + [SpacerHtml]
  }

  /** The chunks of `blocks` before the trailing spacers are trimmed. */
  function RawChunks(blocks: seq<Block>): seq<string> {
    if blocks == [] then [] else RawChunks(blocks[..|blocks| - 1]) + BlockChunks(blocks[|blocks| - 1])
  }

  /** `song_to_chunks(song)`. */
  function Chunks(song: Song): seq<string> {
    TrimSpacers(RawChunks(song.blocks))
  }

  /** The inner loop of `song_to_chunks`: the chunks of a block's lines. */
  method RenderBlockLines(b: Block) returns (cs: seq<string>)
    ensures cs == LineChunks(b)
  {
    var chorus := b.kind == "chorus";
    cs := [];
    var li := 0;
    while li < |b.lines|
      invariant 0 <= li <= |b.lines|
      invariant cs == LineChunks(b)[..li]
    {
      var html := RenderLine(b.lines[li], chorus);
      assert LineChunks(b)[..li + 1] == LineChunks(b)[..li] + [html];
      cs := cs + [html];
      li := li + 1;
    }
  }

  lemma RawChunksSnoc(blocks: seq<Block>, i: nat)
    requires i < |blocks|
    ensures RawChunks(blocks[..i + 1]) == RawChunks(blocks[..i]) + BlockChunks(blocks[i])
  {
    assert blocks[..i + 1][..i] == blocks[..i];
  }

  /** `song_to_chunks(song)`. */
  method SongToChunks(song: Song) returns (chunks: seq<string>)
    ensures chunks == Chunks(song)
  {
    var blocks := song.blocks;
    chunks := [];
    var bi := 0;
    while bi < |blocks|
      invariant 0 <= bi <= |blocks|
      invariant chunks == RawChunks(blocks[..bi])
    {
      var b := blocks[bi];
      RawChunksSnoc(blocks, bi);
      if b.kind == "comment" {
        chunks := chunks + [CommentChunk(b)];
      } else {
        var lines := RenderBlockLines(b);
        chunks := chunks + lines + [SpacerHtml];
      }
      bi := bi + 1;
    }
    assert blocks[..bi] == blocks;
    chunks := PopSpacers(chunks);
  }

  /** A block adds one chunk if it is a comment, and otherwise one chunk per line
      followed by a spacer; a line chunk is never mistaken for a spacer. */
  lemma BlockChunksShape(b: Block)
    ensures var cs := BlockChunks(b);
      (b.kind == "comment" ==> cs == [CommentChunk(b)] && !IsSpacer(cs[0]))
      && (b.kind != "comment" ==>
            |cs| == |b.lines| + 1 && IsSpacer(cs[|b.lines|])
            && forall k :: 0 <= k < |b.lines| ==> !IsSpacer(cs[k]))
  {
    if b.kind == "comment" {
      var head := "<div class='comment'>";
      assert head[12] == 'c';
      NotSpacer(CommentChunk(b), head);
    } else {
      var cs := BlockChunks(b);
      forall k | 0 <= k < |b.lines|
        ensures !IsSpacer(cs[k])
      {
        LineIsNotSpacer(LineClass(b.kind == "chorus"), b.lines[k].tokens);
      }
      assert Strip(SpacerHtml) == SpacerHtml by {
        StrippedIsFixed(SpacerHtml);
      }
    }
  }

  /** The chunks of a song are its raw chunks up to the trailing spacers: never
      a spacer last, only spacers dropped, and every line and comment chunk kept. */
  lemma ChunksSpec(song: Song)
    ensures var raw := RawChunks(song.blocks);
      var cs := Chunks(song);
      cs <= raw
      && (cs != [] ==> !IsSpacer(cs[|cs| - 1]))
      && (forall i :: |cs| <= i < |raw| ==> IsSpacer(raw[i]))
      && (forall i :: 0 <= i < |raw| && !IsSpacer(raw[i]) ==> i < |cs|)
  {
    TrimSpacersSpec(RawChunks(song.blocks));
  }

  // ---------- render_page_html ----------

  function FooterHtml(songFilename: string, pageNum: int, pageTotal: int): string {
    "<div class='footer'>" + EscapeHtml(songFilename) + " \U{2022} Page " + IntToString(pageNum)
    + " / " + IntToString(pageTotal) + "</div>"
  }

  /** The parts after the body: the footer, the hint and the closing tags. */
  function TailParts(songFilename: string, pageNum: int, pageTotal: int): seq<string> {
    [FooterHtml(songFilename, pageNum, pageTotal), HintHtml, CloseHtml]
  }

  /** `render_page_html(cfg, song, song_filename, page_num, page_total, body_chunks)`,
      `css` standing for `stagepro_css(cfg)`. */
  function PageHtml(css: string, song: Song, songFilename: string, pageNum: int, pageTotal: int, body: seq<string>): string {
    Join("", HeadParts(css, Label(song, songFilename)) + body + TailParts(songFilename, pageNum, pageTotal))
  }

  /** A page is the head, the body chunks verbatim and in order, then the footer
      with the page number, the hint line and the closing tags. */
  lemma PageLayout(css: string, song: Song, songFilename: string, pageNum: int, pageTotal: int, body: seq<string>)
    ensures PageHtml(css, song, songFilename, pageNum, pageTotal, body)
      == Join("", HeadParts(css, Label(song, songFilename))) + Join("", body)
         + (FooterHtml(songFilename, pageNum, pageTotal) + HintHtml + CloseHtml)
  {
    var head := HeadParts(css, Label(song, songFilename));
    var footer := FooterHtml(songFilename, pageNum, pageTotal);
    JoinThree(head, body, TailParts(songFilename, pageNum, pageTotal));
    JoinTriple(footer, HintHtml, CloseHtml);
  }
}
