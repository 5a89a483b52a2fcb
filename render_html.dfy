/** The HTML pieces both renderers build alike (stagepro/render.py and
    app/render.py hold the same code for them): escaping, the chord/lyric
    segments of a parsed line and their spans, trimming trailing spacers, and
    the title block at the head of a page. */
module RenderHtml {
  import opened Wrappers
  import opened Strings
  import opened ChordPro

  // ---------- escape_html ----------

  /** The characters `escape_html` rewrites. */
  const Specials: set<char> := {'&', '<', '>', '"'}

  function EscapeChar(c: char): string {
    if c == '&' then "&amp;"
    else if c == '<' then "&lt;"
    else if c == '>' then "&gt;"
    else if c == '"' then "&quot;"
    else [c]
  }

  /** `escape_html(s)`: four `str.replace` passes, `&` first. */
  function EscapeHtml(s: string): string {
    ReplaceAll(ReplaceAll(ReplaceAll(ReplaceAll(s, "&", "&amp;"), "<", "&lt;"), ">", "&gt;"), "\"", "&quot;")
  }

  /** The same passes undone in reverse order, `&amp;` last. */
  function UnescapeHtml(s: string): string {
    ReplaceAll(ReplaceAll(ReplaceAll(ReplaceAll(s, "&quot;", "\""), "&gt;", ">"), "&lt;", "<"), "&amp;", "&")
  }

  /** `c` as it stands once every special character outside `raw` is escaped. */
  function Piece(c: char, raw: set<char>): string {
    if c in raw then [c] else EscapeChar(c)
  }

  /** `s` with the special characters outside `raw` escaped one by one: the
      text between two passes of `escape_html` or of its reverse. */
  function Pieces(s: string, raw: set<char>): string {
    if s == [] then [] else Piece(s[0], raw) + Pieces(s[1..], raw)
  }

  lemma {:induction false} ReplaceCharSplit(a: string, b: string, d: char, rep: string)
    ensures ReplaceAll(a + b, [d], rep) == ReplaceAll(a, [d], rep) + ReplaceAll(b, [d], rep)
  {
    if a == [] {
      assert a + b == b;
    } else {
      assert (a + b)[1..] == a[1..] + b;
      ReplaceCharSplit(a[1..], b, d, rep);
    }
  }

  lemma {:induction false} ReplaceCharAbsent(p: string, d: char, rep: string)
    requires d !in p
    ensures ReplaceAll(p, [d], rep) == p
  {
    if p != [] {
      assert p[0] in p && p[..1] != [d];
      assert forall i :: 0 <= i < |p| - 1 ==> p[1..][i] == p[i + 1];
      ReplaceCharAbsent(p[1..], d, rep);
    }
  }

  /** One pass of `escape_html` escapes `d` and touches nothing else; `&` must
      go first, before any escape has put an `&` into the text. */
  lemma {:induction false} EscapePass(s: string, raw: set<char>, d: char)
    requires d in raw && d in Specials
    requires d == '&' ==> Specials <= raw
    ensures ReplaceAll(Pieces(s, raw), [d], EscapeChar(d)) == Pieces(s, raw - {d})
  {
    if s != [] {
      var c := s[0];
      ReplaceCharSplit(Piece(c, raw), Pieces(s[1..], raw), d, EscapeChar(d));
      EscapePass(s[1..], raw, d);
      if c == d {
        assert ReplaceAll([d], [d], EscapeChar(d)) == EscapeChar(d) + ReplaceAll([], [d], EscapeChar(d));
      } else if c in raw {
        ReplaceCharAbsent([c], d, EscapeChar(d));
      } else {
        ReplaceCharAbsent(EscapeChar(c), d, EscapeChar(d));
      }
    }
  }

  lemma {:induction false} PiecesAllRaw(s: string)
    ensures Pieces(s, Specials) == s
  {
    if s != [] {
      PiecesAllRaw(s[1..]);
    }
  }

  /** `escape_html` escapes each character on its own. */
  lemma EscapeIsPieces(s: string)
    ensures EscapeHtml(s) == Pieces(s, {})
  {
    PiecesAllRaw(s);
    EscapePass(s, Specials, '&');
    assert Specials - {'&'} == {'<', '>', '"'};
    EscapePass(s, {'<', '>', '"'}, '<');
    assert {'<', '>', '"'} - {'<'} == {'>', '"'};
    EscapePass(s, {'>', '"'}, '>');
    assert {'>', '"'} - {'>'} == {'"'};
    EscapePass(s, {'"'}, '"');
    assert {'"'} - {'"'} == {};
  }

  /** A piece that no match of an entity `pat` can start inside, except at its
      first character, where the second character already differs. */
  predicate Safe(p: string, pat: string) {
    |pat| >= 2
    && (forall i | 1 <= i < |p| :: p[i] != '&')
    && (p != [] && p[0] == '&' ==> |p| >= 2 && p[1] != pat[1])
  }

  lemma {:induction false} ReplaceAfterSafe(p: string, t: string, pat: string, rep: string)
    requires |pat| >= 2 && pat[0] == '&' && Safe(p, pat)
    ensures ReplaceAll(p + t, pat, rep) == p + ReplaceAll(t, pat, rep)
    decreases |p|
  {
    if p == [] {
      assert p + t == t;
    } else if |p + t| < |pat| {
      assert ReplaceAll(t, pat, rep) == t;
    } else {
      var u := p + t;
      assert u[0] == p[0];
      assert u[..|pat|] != pat by {
        if p[0] == '&' {
          assert u[1] == p[1];
        }
      }
      assert ReplaceAll(u, pat, rep) == [p[0]] + ReplaceAll(u[1..], pat, rep);
      assert u[1..] == p[1..] + t;
      assert Safe(p[1..], pat) by {
        assert forall i | 1 <= i < |p[1..]| :: p[1..][i] == p[i + 1];
      }
      ReplaceAfterSafe(p[1..], t, pat, rep);
      assert [p[0]] + p[1..] == p;
    }
  }

  lemma PieceSafe(c: char, raw: set<char>, d: char)
    requires c != d && d in Specials && d !in raw && '&' !in raw
    ensures Safe(Piece(c, raw), EscapeChar(d))
  {
    var p := Piece(c, raw);
    var pat := EscapeChar(d);
    if c in Specials && c !in raw {
      assert p == EscapeChar(c);
      assert p[1] != pat[1];
      assert forall i | 1 <= i < |p| :: p[i] != '&';
    } else {
      assert p == [c];
    }
  }

  /** One pass of the reverse turns the escapes of `d` back into `d`; `&amp;`
      must go last, while no bare `&` is in the text. */
  lemma {:induction false} UnescapePass(s: string, raw: set<char>, d: char)
    requires d in Specials && d !in raw && '&' !in raw
    ensures ReplaceAll(Pieces(s, raw), EscapeChar(d), [d]) == Pieces(s, raw + {d})
  {
    if s != [] {
      var c := s[0];
      var pat := EscapeChar(d);
      UnescapePass(s[1..], raw, d);
      var rest := Pieces(s[1..], raw);
      assert Pieces(s, raw) == Piece(c, raw) + rest;
      if c == d {
        assert Piece(c, raw) == pat;
        assert (pat + rest)[..|pat|] == pat;
        assert (pat + rest)[|pat|..] == rest;
        assert ReplaceAll(pat + rest, pat, [d]) == [d] + ReplaceAll(rest, pat, [d]);
      } else {
        PieceSafe(c, raw, d);
        ReplaceAfterSafe(Piece(c, raw), rest, pat, [d]);
      }
    }
  }

  /** Undoing the passes in reverse order gives back the original text. */
  lemma UnescapeEscape(s: string)
    ensures UnescapeHtml(EscapeHtml(s)) == s
  {
    EscapeIsPieces(s);
    UnescapePass(s, {}, '"');
    assert {} + {'"'} == {'"'};
    UnescapePass(s, {'"'}, '>');
    assert {'"'} + {'>'} == {'"', '>'};
    UnescapePass(s, {'"', '>'}, '<');
    assert {'"', '>'} + {'<'} == {'"', '>', '<'};
    UnescapePass(s, {'"', '>', '<'}, '&');
    assert {'"', '>', '<'} + {'&'} == Specials;
    PiecesAllRaw(s);
  }

  lemma {:induction false} PiecesNoMarkup(s: string)
    ensures forall i :: 0 <= i < |Pieces(s, {})| ==> Pieces(s, {})[i] !in {'<', '>', '"'}
  {
    if s != [] {
      PiecesNoMarkup(s[1..]);
      var p := Piece(s[0], {});
      assert forall i :: 0 <= i < |p| ==> p[i] !in {'<', '>', '"'};
    }
  }

  /** Escaped text holds no `<`, `>` or `"`. */
  lemma EscapeNoMarkup(s: string)
    ensures forall i :: 0 <= i < |EscapeHtml(s)| ==> EscapeHtml(s)[i] !in {'<', '>', '"'}
  {
    EscapeIsPieces(s);
    PiecesNoMarkup(s);
  }

  lemma {:induction false} PiecesLength(s: string)
    ensures |Pieces(s, {})| >= |s|
    ensures |Pieces(s, {})| == |s| <==> forall i :: 0 <= i < |s| ==> s[i] !in Specials
    ensures (forall i :: 0 <= i < |s| ==> s[i] !in Specials) ==> Pieces(s, {}) == s
  {
    if s != [] {
      PiecesLength(s[1..]);
      assert forall i :: 1 <= i < |s| ==> s[i] == s[1..][i - 1];
    }
  }

  /** Escaping leaves a text alone exactly when it holds none of `& < > "`. */
  lemma EscapeFixedIff(s: string)
    ensures EscapeHtml(s) == s <==> forall i :: 0 <= i < |s| ==> s[i] !in Specials
  {
    EscapeIsPieces(s);
    PiecesLength(s);
  }

  // ---------- tokens_to_segments ----------

  /** A lyric run and the chord above it; a chord may be present but empty. */
  datatype Segment = Segment(chord: Option<string>, lyric: string)

  /** A pending chord that renders: `if pending_chord:` in Python. */
  predicate Renders(chord: Option<string>) {
    chord.Some? && chord.value != ""
  }

  /** The segments of `ts` when `pending` is the chord waiting for a lyric. */
  function SegmentsFrom(ts: seq<Token>, pending: Option<string>): seq<Segment> {
    if ts == [] then (if Renders(pending) then [Segment(pending, " ")] else [])
    else match ts[0]
      case Chord(t) => SegmentsFrom(ts[1..], Some(Strip(t)))
      case Lyric(t) => [Segment(pending, t)] + SegmentsFrom(ts[1..], None)
  }

  /** `tokens_to_segments(tokens)`. */
  function LineSegments(ts: seq<Token>): seq<Segment> {
    SegmentsFrom(ts, None)
  }

  /** `tokens_to_segments(tokens)`. */
  method TokensToSegments(tokens: seq<Token>) returns (segs: seq<Segment>)
    ensures segs == LineSegments(tokens)
  {
    segs := [];
    var pending: Option<string> := None;
    var i := 0;
    while i < |tokens|
      invariant 0 <= i <= |tokens|
      invariant segs + SegmentsFrom(tokens[i..], pending) == LineSegments(tokens)
    {
      assert tokens[i..][1..] == tokens[i + 1..];
      match tokens[i] {
        case Chord(t) =>
          pending := Some(Strip(t));
        case Lyric(t) =>
          segs := segs + [Segment(pending, t)];
          pending := None;
      }
      i := i + 1;
    }
    if Renders(pending) {
      segs := segs + [Segment(pending, " ")];
    }
  }

  function LyricCount(ts: seq<Token>): nat {
    if ts == [] then 0 else (if ts[0].Lyric? then 1 else 0) + LyricCount(ts[1..])
  }

  /** The chord pending after `ts`: the stripped text of a final chord token,
      none after a lyric, `pending` itself when `ts` is empty. */
  function PendingAfter(ts: seq<Token>, pending: Option<string>): Option<string> {
    if ts == [] then pending
    else if ts[|ts| - 1].Chord? then Some(Strip(ts[|ts| - 1].text))
    else None
  }

  /** One segment per lyric token, and one more when a chord that renders is
      left pending at the end, over the text " ". */
  lemma {:induction false} SegmentsCount(ts: seq<Token>, pending: Option<string>)
    ensures var segs := SegmentsFrom(ts, pending);
      var extra := Renders(PendingAfter(ts, pending));
      |segs| == LyricCount(ts) + (if extra then 1 else 0)
      && (extra ==> segs[|segs| - 1] == Segment(PendingAfter(ts, pending), " "))
  {
    if ts != [] {
      var next := if ts[0].Chord? then Some(Strip(ts[0].text)) else None;
      SegmentsCount(ts[1..], next);
      assert PendingAfter(ts[1..], next) == PendingAfter(ts, pending) by {
        if |ts| > 1 {
          assert ts[1..][|ts| - 2] == ts[|ts| - 1];
        }
      }
    }
  }

  /** The lyric token at `p` gets the segment numbered by the lyric tokens before
      it, under the chord that is pending there: the chord of the token just
      before it, if that is a chord. So a chord goes to the next lyric only, and
      of several chords in a row only the last one stays. */
  lemma {:induction false} SegmentOfLyric(ts: seq<Token>, pending: Option<string>, p: nat)
    requires p < |ts| && ts[p].Lyric?
    ensures LyricCount(ts[..p]) < |SegmentsFrom(ts, pending)|
    ensures SegmentsFrom(ts, pending)[LyricCount(ts[..p])] == Segment(PendingAfter(ts[..p], pending), ts[p].text)
  {
    SegmentsCount(ts, pending);
    LyricCountSplit(ts, p);
    if p > 0 {
      var next := if ts[0].Chord? then Some(Strip(ts[0].text)) else None;
      SegmentOfLyric(ts[1..], next, p - 1);
      assert ts[..p][1..] == ts[1..][..p - 1];
      assert PendingAfter(ts[1..][..p - 1], next) == PendingAfter(ts[..p], pending) by {
        if p > 1 {
          assert ts[1..][..p - 1][p - 2] == ts[p - 1];
        }
      }
    }
  }

  lemma {:induction false} LyricCountSplit(ts: seq<Token>, p: nat)
    requires p < |ts| && ts[p].Lyric?
    ensures LyricCount(ts[..p]) < LyricCount(ts)
  {
    if p > 0 {
      LyricCountSplit(ts[1..], p - 1);
      assert ts[..p][1..] == ts[1..][..p - 1];
    }
  }

  // ---------- spans and line html ----------

  /** The span of one segment; a chord that does not render leaves no `data-chord`. */
  function SpanHtml(seg: Segment): string {
    var lyric := EscapeHtml(seg.lyric);
    if Renders(seg.chord) then "<span class='seg' data-chord='" + EscapeHtml(seg.chord.value) + "'>" + lyric + "</span>"
    else "<span class='seg'>" + lyric + "</span>"
  }

  function Spans(segs: seq<Segment>): (r: seq<string>)
    ensures |r| == |segs|
  {
    seq(|segs|, k requires 0 <= k < |segs| => SpanHtml(segs[k]))
  }

  function OpenDiv(klass: string): string {
    "<div class='" + klass + "'>"
  }

  /** The parts `render_line_html` joins: the opening div, one span per segment, the closing div. */
  function LineParts(klass: string, tokens: seq<Token>): seq<string> {
    [OpenDiv(klass)] + Spans(LineSegments(tokens)) + ["</div>"]
  }

  /** `"".join(parts)` for the parts of a line with class `klass`. */
  function LineHtml(klass: string, tokens: seq<Token>): string {
    Join("", LineParts(klass, tokens))
  }

  /** The loop of `render_line_html`, once the class is chosen. */
  method RenderLineWithClass(klass: string, tokens: seq<Token>) returns (html: string)
    ensures html == LineHtml(klass, tokens)
  {
    var segs := TokensToSegments(tokens);
    var parts := [OpenDiv(klass)];
    var i := 0;
    while i < |segs|
      invariant 0 <= i <= |segs|
      invariant parts == [OpenDiv(klass)] + Spans(segs)[..i]
    {
      var lyricHtml := EscapeHtml(segs[i].lyric);
      var span;
      if Renders(segs[i].chord) {
        span := "<span class='seg' data-chord='" + EscapeHtml(segs[i].chord.value) + "'>" + lyricHtml + "</span>";
      } else {
        span := "<span class='seg'>" + lyricHtml + "</span>";
      }
      assert span == SpanHtml(segs[i]);
      assert Spans(segs)[..i + 1] == Spans(segs)[..i] + [span];
      parts := parts + [span];
      i := i + 1;
    }
    assert Spans(segs)[..i] == Spans(segs);
    parts := parts + ["</div>"];
    html := Join("", parts);
  }

  lemma {:induction false} JoinConcat(a: seq<string>, b: seq<string>)
    ensures Join("", a + b) == Join("", a) + Join("", b)
  {
    if a == [] {
      assert a + b == b;
    } else if b == [] {
      assert a + b == a;
    } else if |a| == 1 {
      assert (a + b)[1..] == b;
    } else {
      assert (a + b)[1..] == a[1..] + b;
      JoinConcat(a[1..], b);
    }
  }

  /** The text of parts joined in three runs. */
  lemma JoinThree(head: seq<string>, body: seq<string>, tail: seq<string>)
    ensures Join("", head + body + tail) == Join("", head) + Join("", body) + Join("", tail)
  {
    JoinConcat(head + body, tail);
    JoinConcat(head, body);
  }

  lemma JoinTriple(a: string, b: string, c: string)
    ensures Join("", [a, b, c]) == a + b + c
  {
    assert [b, c][1..] == [c];
    assert Join("", [b, c]) == b + "" + c;
    assert b + "" + c == b + c;
    assert [a, b, c][1..] == [b, c];
    assert Join("", [a, b, c]) == a + "" + (b + c);
    assert a + "" + (b + c) == a + b + c;
  }

  /** A line is its opening div, then one span per lyric token (and one for a
      chord left at the end), then the closing div. */
  lemma LineLayout(klass: string, tokens: seq<Token>)
    ensures LineHtml(klass, tokens) == OpenDiv(klass) + Join("", Spans(LineSegments(tokens))) + "</div>"
    ensures |Spans(LineSegments(tokens))|
      == LyricCount(tokens) + (if Renders(PendingAfter(tokens, None)) then 1 else 0)
  {
    var spans := Spans(LineSegments(tokens));
    JoinConcat([OpenDiv(klass)] + spans, ["</div>"]);
    JoinConcat([OpenDiv(klass)], spans);
    SegmentsCount(tokens, None);
  }

  // ---------- chunks ----------

  const SpacerHtml := "<div class='spacer'></div>"

  predicate IsSpacer(chunk: string) {
    Strip(chunk) == SpacerHtml
  }

  /** The trailing-spacer trim at the end of `song_to_chunks`. */
  function TrimSpacers(cs: seq<string>): seq<string> {
    if cs != [] && IsSpacer(cs[|cs| - 1]) then TrimSpacers(cs[..|cs| - 1]) else cs
  }

  /** `while chunks and chunks[-1].strip() == spacer: chunks.pop()`. */
  method PopSpacers(cs: seq<string>) returns (r: seq<string>)
    ensures r == TrimSpacers(cs)
  {
    r := cs;
    while r != [] && IsSpacer(r[|r| - 1])
      invariant TrimSpacers(r) == TrimSpacers(cs)
      decreases |r|
    {
      r := r[..|r| - 1];
    }
  }

  /** The trim keeps a prefix, drops only spacers, and leaves no spacer last. */
  lemma {:induction false} TrimSpacersSpec(cs: seq<string>)
    ensures var r := TrimSpacers(cs);
      r <= cs
      && (r != [] ==> !IsSpacer(r[|r| - 1]))
      && forall i :: |r| <= i < |cs| ==> IsSpacer(cs[i])
    decreases |cs|
  {
    if cs != [] && IsSpacer(cs[|cs| - 1]) {
      TrimSpacersSpec(cs[..|cs| - 1]);
    }
  }

  /** A chunk that begins with a tag other than the spacer's is never taken for one. */
  lemma NotSpacer(chunk: string, head: string)
    requires |head| >= 13 && head <= chunk && head[..13] != SpacerHtml[..13]
    requires head[0] == '<'
    ensures !IsSpacer(chunk)
  {
    StripCharsSlice(chunk, Whitespace);
    var a := |chunk| - |LStrip(chunk)|;
    var r := Strip(chunk);
    assert chunk[0] !in Whitespace;
    assert a == 0;
    if |r| >= 13 {
      assert r[..13] == head[..13];
    }
  }

  lemma LineIsNotSpacer(klass: string, tokens: seq<Token>)
    requires klass != [] && klass[0] == 'l'
    ensures !IsSpacer(LineHtml(klass, tokens))
  {
    LineLayout(klass, tokens);
    var head := OpenDiv(klass);
    assert head[12] == 'l';
    NotSpacer(LineHtml(klass, tokens), head);
  }

  // ---------- song_label_title and the page head ----------

  datatype Label = Label(title: string, subtitle: string, metaLine: string)

  function MetaBits(meta: map<string, string>): seq<string> {
    (if "key" in meta && meta["key"] != "" then ["Key: " + EscapeHtml(meta["key"])] else [])
    + (if "tempo" in meta && meta["tempo"] != "" then ["Tempo: " + EscapeHtml(meta["tempo"])] else [])
  }

  /** `song_label_title(song, fallback)`; the two renderers differ only in the
      separator of the meta line. */
  function LabelOf(meta: map<string, string>, fallback: string, sep: string): (r: Label)
    ensures "title" in meta ==> r.title == meta["title"]
    ensures "title" !in meta ==> r.title != "" && (fallback != "" ==> r.title == fallback)
    ensures r.subtitle == (if "subtitle" in meta then meta["subtitle"] else "")
  {
    Label(
      if "title" in meta then meta["title"] else if fallback != "" then fallback else "Untitled",
      if "subtitle" in meta then meta["subtitle"] else "",
      Join(sep, MetaBits(meta)))
  }

  /** The meta line is empty exactly when the song sets neither a key nor a
      tempo; with both, the key comes first. */
  lemma MetaLineSpec(meta: map<string, string>, fallback: string, sep: string)
    ensures var line := LabelOf(meta, fallback, sep).metaLine;
      var hasKey := "key" in meta && meta["key"] != "";
      var hasTempo := "tempo" in meta && meta["tempo"] != "";
      (line == "" <==> !hasKey && !hasTempo)
      && (hasKey && hasTempo ==> line == "Key: " + EscapeHtml(meta["key"]) + sep + "Tempo: " + EscapeHtml(meta["tempo"]))
      && (hasKey && !hasTempo ==> line == "Key: " + EscapeHtml(meta["key"]))
      && (!hasKey && hasTempo ==> line == "Tempo: " + EscapeHtml(meta["tempo"]))
  {
    var bits := MetaBits(meta);
    if "key" in meta && meta["key"] != "" && "tempo" in meta && meta["tempo"] != "" {
      var k := "Key: " + EscapeHtml(meta["key"]);
      var t := "Tempo: " + EscapeHtml(meta["tempo"]);
      assert bits == [k, t];
      assert bits[1..] == [t];
      assert Join(sep, bits) == k + sep + Join(sep, [t]);
    }
  }

  /** The head of a page, up to the body chunks. */
  function HeadParts(css: string, lab: Label): seq<string> {
    ["<html><head><style>" + css + "</style></head><body>",
     "<div class='wrap'>",
     "<div class='title'>" + EscapeHtml(lab.title) + "</div>"]
    + (if lab.subtitle != "" then ["<div class='subtitle'>" + EscapeHtml(lab.subtitle) + "</div>"] else [])
    + (if lab.metaLine != "" then ["<div class='meta'>" + lab.metaLine + "</div>"] else [])
  }
}
