/** The ChordPro line parser (stagepro/chordpro.py): lyric lines become token
    lists, blank lines and chorus markers delimit verse and chorus blocks,
    `{comment: ...}` lines become comment blocks and `{key: value}` lines fill the
    song's metadata. */
module ChordPro {
  import opened Wrappers
  import opened Strings
  import opened Directives

  datatype Token = Lyric(text: string) | Chord(text: string)

  datatype Line = Line(tokens: seq<Token>)

  /** A block of kind "verse", "chorus" or "comment"; only a comment has a text. */
  datatype Block = Block(kind: string, lines: seq<Line>, text: Option<string>)

  datatype Song = Song(meta: map<string, string>, blocks: seq<Block>)

  // ---------- chord tokens within a line ----------

  /** The first `]` at or after index `i`. */
  function CloseAfter(s: string, i: nat): (r: Option<nat>)
    requires i <= |s|
    ensures r.Some? ==>
      (i <= r.value < |s| && s[r.value] == ']' && forall m | i <= m < r.value :: s[m] != ']')
    ensures r.None? ==> forall m | i <= m < |s| :: s[m] != ']'
    decreases |s| - i
  {
    if i == |s| then None else if s[i] == ']' then Some(i) else CloseAfter(s, i + 1)
  }

  /** `CHORD_TOKEN_RE` matches at `k`: a `[`, at least one character that is not
      `]`, then a `]`. */
  predicate ChordAt(s: string, k: nat) {
    k + 1 < |s| && s[k] == '[' && s[k + 1] != ']' && CloseAfter(s, k + 1).Some?
  }

  /** The index just past the `]` that closes the match at `k`. */
  function ChordEnd(s: string, k: nat): (e: nat)
    requires ChordAt(s, k)
    ensures k + 2 < e <= |s| && s[e - 1] == ']' && forall m | k + 1 <= m < e - 1 :: s[m] != ']'
  {
    CloseAfter(s, k + 1).value + 1
  }

  /** The next match of `CHORD_TOKEN_RE` at or after `from`, as `finditer` finds it. */
  function NextChord(s: string, from: nat): (r: Option<(nat, nat)>)
    requires from <= |s|
    ensures r.Some? ==> from <= r.value.0 && ChordAt(s, r.value.0) && r.value.1 == ChordEnd(s, r.value.0)
    ensures r.Some? ==> s[r.value.0] == '[' && r.value.0 + 2 < r.value.1 <= |s| && s[r.value.1 - 1] == ']'
    decreases |s| - from
  {
    if from == |s| then None
    else if ChordAt(s, from) then Some((from, ChordEnd(s, from)))
    else NextChord(s, from + 1)
  }

  /** `finditer` finds the leftmost match: none starts between `from` and the one found. */
  lemma {:induction false} NextChordIsFirst(s: string, from: nat)
    requires from <= |s|
    ensures NextChord(s, from).Some? ==> forall k | from <= k < NextChord(s, from).value.0 :: !ChordAt(s, k)
    ensures NextChord(s, from).None? ==> forall k | from <= k < |s| :: !ChordAt(s, k)
    decreases |s| - from
  {
    if from < |s| && !ChordAt(s, from) {
      NextChordIsFirst(s, from + 1);
    }
  }

  /** The lyric token for the text between `last` and a match at `a`, if any. */
  function LyricBefore(s: string, last: nat, a: nat): seq<Token>
    requires last <= a <= |s|
  {
    if a > last then [Lyric(s[last..a])] else []
  }

  /** The tokens of `s[last..]`: the text between matches as lyrics, each match's
      group as a chord. */
  function TokenizeFrom(s: string, last: nat): (r: seq<Token>)
    requires last <= |s|
    decreases |s| - last
  {
    match NextChord(s, last)
    case None => if last < |s| then [Lyric(s[last..])] else []
    case Some((a, b)) => LyricBefore(s, last, a) + [Chord(s[a + 1..b - 1])] + TokenizeFrom(s, b)
  }

  function Tokenize(line: string): seq<Token> {
    TokenizeFrom(line, 0)
  }

  /** The text a token stands for in the line. */
  function TokenText(t: Token): string {
    match t
    case Lyric(x) => x
    case Chord(x) => "[" + x + "]"
  }

  function Render(tokens: seq<Token>): string {
    if tokens == [] then "" else TokenText(tokens[0]) + Render(tokens[1..])
  }

  lemma {:induction false} RenderAppend(x: seq<Token>, y: seq<Token>)
    ensures Render(x + y) == Render(x) + Render(y)
    decreases |x|
  {
    if x == [] {
      assert x + y == y;
    } else {
      assert (x + y)[1..] == x[1..] + y;
      RenderAppend(x[1..], y);
    }
  }

  lemma RenderOne(t: Token)
    ensures Render([t]) == TokenText(t)
  {
    assert [t][1..] == [];
  }

  lemma TokenizeFromStep(s: string, last: nat, a: nat, b: nat)
    requires last <= |s| && NextChord(s, last) == Some((a, b))
    ensures last <= a && a + 2 < b <= |s| && s[a] == '[' && s[b - 1] == ']'
    ensures forall m | a + 1 <= m < b - 1 :: s[m] != ']'
    ensures TokenizeFrom(s, last) == LyricBefore(s, last, a) + [Chord(s[a + 1..b - 1])] + TokenizeFrom(s, b)
  {
    assert ChordAt(s, a) && b == ChordEnd(s, a);
  }

  /** Rendering the tokens of a line gives the line back. */
  lemma {:induction false} TokenizeRoundTrip(s: string, last: nat)
    requires last <= |s|
    ensures Render(TokenizeFrom(s, last)) == s[last..]
    decreases |s| - last
  {
    match NextChord(s, last)
    case None =>
      if last < |s| {
        RenderOne(Lyric(s[last..]));
      }
    case Some((a, b)) =>
      TokenizeFromStep(s, last, a, b);
      var pre := LyricBefore(s, last, a);
      var chord := Chord(s[a + 1..b - 1]);
      var rest := TokenizeFrom(s, b);
      TokenizeRoundTrip(s, b);
      RenderAppend(pre + [chord], rest);
      RenderAppend(pre, [chord]);
      RenderOne(chord);
      assert Render(pre) == s[last..a] by {
        if a > last {
          RenderOne(Lyric(s[last..a]));
        }
      }
      BracketSlice(s, a, b);
      SliceThree(s, last, a, b);
      calc {
        Render(TokenizeFrom(s, last));
        Render(pre + [chord] + rest);
        Render(pre + [chord]) + Render(rest);
        Render(pre) + Render([chord]) + Render(rest);
        s[last..a] + s[a..b] + s[b..];
        s[last..];
      }
  }

  lemma SliceThree(s: string, l: nat, a: nat, b: nat)
    requires l <= a <= b <= |s|
    ensures s[l..] == s[l..a] + s[a..b] + s[b..]
  {
  }

  lemma BracketSlice(s: string, a: nat, b: nat)
    requires a + 2 <= b <= |s| && s[a] == '[' && s[b - 1] == ']'
    ensures s[a..b] == "[" + s[a + 1..b - 1] + "]"
  {
  }

  /** Every token holds text, and a chord holds no `]`. */
  lemma {:induction false} TokensNonEmpty(s: string, last: nat)
    requires last <= |s|
    ensures forall t | t in TokenizeFrom(s, last) :: t.text != [] && (t.Chord? ==> ']' !in t.text)
    decreases |s| - last
  {
    match NextChord(s, last)
    case None =>
    case Some((a, b)) =>
      TokenizeFromStep(s, last, a, b);
      TokensNonEmpty(s, b);
      var chord := Chord(s[a + 1..b - 1]);
      assert ']' !in chord.text && chord.text != [];
  }

  /** Two lyric tokens never follow each other: the text between two matches is
      one token. */
  lemma {:induction false} NoAdjacentLyrics(s: string, last: nat)
    requires last <= |s|
    ensures var r := TokenizeFrom(s, last);
      forall k | 0 <= k < |r| - 1 :: !(r[k].Lyric? && r[k + 1].Lyric?)
    decreases |s| - last
  {
    match NextChord(s, last)
    case None =>
    case Some((a, b)) =>
      TokenizeFromStep(s, last, a, b);
      NoAdjacentLyrics(s, b);
      var pre := LyricBefore(s, last, a);
      var rest := TokenizeFrom(s, b);
      var r := pre + [Chord(s[a + 1..b - 1])] + rest;
      forall k | 0 <= k < |r| - 1
        ensures !(r[k].Lyric? && r[k + 1].Lyric?)
      {
        if k > |pre| {
          assert r[k] == rest[k - |pre| - 1] && r[k + 1] == rest[k - |pre|];
        } else if k == |pre| {
          assert r[k].Chord?;
        } else {
          assert r[k + 1].Chord?;
        }
      }
  }

  lemma TokenizeStepKeeps(s: string, last: nat, a: nat, b: nat, done: seq<Token>)
    requires last <= |s| && NextChord(s, last) == Some((a, b))
    ensures last <= a && a + 2 < b <= |s|
    ensures done + TokenizeFrom(s, last) == done + LyricBefore(s, last, a) + [Chord(s[a + 1..b - 1])] + TokenizeFrom(s, b)
  {
    TokenizeFromStep(s, last, a, b);
  }

  /** `for m in CHORD_TOKEN_RE.finditer(line)`: the token list of one lyric line. */
  method TokenizeLine(line: string) returns (tokens: seq<Token>)
    ensures tokens == Tokenize(line)
  {
    tokens := [];
    var last := 0;
    var m := NextChord(line, last);
    while m.Some?
      invariant last <= |line|
      invariant m == NextChord(line, last)
      invariant tokens + TokenizeFrom(line, last) == Tokenize(line)
      decreases |line| - last
    {
      var a, b := m.value.0, m.value.1;
      ghost var old_tokens := tokens;
      if a > last {
        tokens := tokens + [Lyric(line[last..a])];
      }
      tokens := tokens + [Chord(line[a + 1..b - 1])];
      assert tokens == old_tokens + LyricBefore(line, last, a) + [Chord(line[a + 1..b - 1])];
      TokenizeStepKeeps(line, last, a, b, old_tokens);
      last := b;
      m := NextChord(line, last);
    }
    if last < |line| {
      tokens := tokens + [Lyric(line[last..])];
    }
  }

  // ---------- classifying a line ----------

  /** What a line of a ChordPro text is, tested in the parser's order. */
  datatype LineKind =
    | BlankLine
    | StartChorus
    | EndChorus
    | CommentLine(text: string)
    | MetaLine(key: string, value: string)
    | LyricLine

  /** `SOC_RE.match(line)`. */
  predicate IsStartChorus(line: string) {
    var u := Lower(Strip(line));
    u == "{soc}" || u == "{start_of_chorus}"
  }

  /** `EOC_RE.match(line)`. */
  predicate IsEndChorus(line: string) {
    var u := Lower(Strip(line));
    u == "{eoc}" || u == "{end_of_chorus}"
  }

  const CommentKeys: set<string> := {"comment", "c"}

  /** `COMMENT_RE.match(line)`: a directive whose key, written right after the `{`,
      is `comment` or `c` in any case; its stripped value. */
  function CommentMatch(line: string): Option<string> {
    var u := Strip(line);
    match KvMatch(u)
    case Some(kv) =>
      if Lower(kv.0) in CommentKeys && !IsSpace(Inner(u)[0]) then Some(kv.1) else None
    case None => None
  }

  function Classify(line: string): LineKind {
    if IsBlank(line) then BlankLine
    else if IsStartChorus(line) then StartChorus
    else if IsEndChorus(line) then EndChorus
    else if CommentMatch(line).Some? then CommentLine(CommentMatch(line).value)
    else if MetaMatch(line).Some? then MetaLine(MetaMatch(line).value.0, MetaMatch(line).value.1)
    else LyricLine
  }

  // ---------- the parser as a function of the lines read so far ----------

  /** The parser's variables: the song being built, the open block and the chorus flag. */
  datatype Parser = Parser(meta: map<string, string>, blocks: seq<Block>, current: Block, inChorus: bool)

  function KindFor(inChorus: bool): string {
    if inChorus then "chorus" else "verse"
  }

  function EmptyBlock(kind: string): Block {
    Block(kind, [], None)
  }

  /** The blocks after `flush_block()`: the open block is kept only if it has lines. */
  function FlushedBlocks(blocks: seq<Block>, current: Block): seq<Block> {
    if current.lines != [] then blocks + [current] else blocks
  }

  function Flush(p: Parser): Parser {
    p.(blocks := FlushedBlocks(p.blocks, p.current), current := EmptyBlock(KindFor(p.inChorus)))
  }

  /** One pass of the loop of `parse_chordpro` over a line. */
  function Step(p: Parser, line: string): Parser {
    Apply(p, Classify(line), line)
  }

  /** The effect of a line of kind `k` on the parser. */
  function Apply(p: Parser, k: LineKind, line: string): Parser {
    match k
    case BlankLine => Flush(p)
    case StartChorus => Flush(p).(inChorus := true, current := EmptyBlock("chorus"))
    case EndChorus => Flush(p).(inChorus := false, current := EmptyBlock("verse"))
    case CommentLine(t) =>
      var f := Flush(p);
      f.(blocks := f.blocks + [Block("comment", [], Some(t))])
    case MetaLine(k, v) => p.(meta := p.meta[k := v])
    case LyricLine => p.(current := p.current.(lines := p.current.lines + [Line(Tokenize(line))]))
  }

  const Start := Parser(map[], [], EmptyBlock("verse"), false)

  /** The parser after the given lines. */
  function Run(lines: seq<string>): Parser {
    if lines == [] then Start else Step(Run(lines[..|lines| - 1]), lines[|lines| - 1])
  }

  /** `parse_chordpro(text)`. */
  function Parse(text: string): Song {
    var p := Flush(Run(SplitLines(text)));
    Song(p.meta, p.blocks)
  }

  /** `parse_chordpro(text)`, line by line. */
  method ParseChordpro(text: string) returns (song: Song)
    ensures song == Parse(text)
  {
    var meta: map<string, string> := map[];
    var blocks: seq<Block> := [];
    var inChorus := false;
    var current := EmptyBlock("verse");
    var lines := SplitLines(text);
    var i := 0;
    while i < |lines|
      invariant 0 <= i <= |lines|
      invariant Parser(meta, blocks, current, inChorus) == Run(lines[..i])
    {
      assert lines[..i + 1][..i] == lines[..i];
      meta, blocks, current, inChorus := ParseLine(meta, blocks, current, inChorus, lines[i]);
      i := i + 1;
    }
    assert lines[..i] == lines;
    blocks := FlushedBlocks(blocks, current);
    song := Song(meta, blocks);
  }

  /** One pass of the loop of `parse_chordpro`: the line is tested against the
      patterns in order and updates the parser's variables. */
  method ParseLine(meta: map<string, string>, blocks: seq<Block>, current: Block, inChorus: bool, line: string)
    returns (meta': map<string, string>, blocks': seq<Block>, current': Block, inChorus': bool)
    ensures Parser(meta', blocks', current', inChorus') == Step(Parser(meta, blocks, current, inChorus), line)
  {
    meta', blocks', current', inChorus' := meta, blocks, current, inChorus;
    if IsBlank(line) {
      assert Classify(line) == BlankLine;
      blocks', current' := FlushedBlocks(blocks, current), EmptyBlock(KindFor(inChorus));
    } else if IsStartChorus(line) {
      assert Classify(line) == StartChorus;
      blocks' := FlushedBlocks(blocks, current);
      inChorus' := true;
      current' := EmptyBlock("chorus");
    } else if IsEndChorus(line) {
      assert Classify(line) == EndChorus;
      blocks' := FlushedBlocks(blocks, current);
      inChorus' := false;
      current' := EmptyBlock("verse");
    } else {
      meta', blocks', current' := ParseBodyLine(meta, blocks, current, inChorus, line);
    }
  }

  /** The branches of the loop for a line that is neither blank nor a chorus marker. */
  method ParseBodyLine(meta: map<string, string>, blocks: seq<Block>, current: Block, inChorus: bool, line: string)
    returns (meta': map<string, string>, blocks': seq<Block>, current': Block)
    requires !IsBlank(line) && !IsStartChorus(line) && !IsEndChorus(line)
    ensures Parser(meta', blocks', current', inChorus) == Step(Parser(meta, blocks, current, inChorus), line)
  {
    meta', blocks', current' := meta, blocks, current;
    var comment := CommentMatch(line);
    if comment.Some? {
      assert Classify(line) == CommentLine(comment.value);
      blocks' := FlushedBlocks(blocks, current);
      current' := EmptyBlock(KindFor(inChorus));
      blocks' := blocks' + [Block("comment", [], Some(comment.value))];
    } else {
      var kv := MetaMatch(line);
      if kv.Some? {
        assert Classify(line) == MetaLine(kv.value.0, kv.value.1);
        meta' := meta[kv.value.0 := kv.value.1];
      } else {
        assert Classify(line) == LyricLine;
        var tokens := TokenizeLine(line);
        current' := current.(lines := current.lines + [Line(tokens)]);
      }
    }
  }

  // ---------- what the parser guarantees ----------

  /** The kind of each line, in order. */
  function Kinds(lines: seq<string>): (ks: seq<LineKind>)
    ensures |ks| == |lines|
  {
    if lines == [] then [] else Kinds(lines[..|lines| - 1]) + [Classify(lines[|lines| - 1])]
  }

  lemma {:induction false} KindsAt(lines: seq<string>, i: nat)
    requires i < |lines|
    ensures Kinds(lines)[i] == Classify(lines[i])
  {
    var n := |lines| - 1;
    if i < n {
      KindsAt(lines[..n], i);
    }
  }

  /** The parser after lines whose kinds are already known. */
  function Replay(ks: seq<LineKind>, lines: seq<string>): Parser
    requires |ks| == |lines|
  {
    if lines == [] then Start
    else
      var n := |lines| - 1;
      Apply(Replay(ks[..n], lines[..n]), ks[n], lines[n])
  }

  lemma {:induction false} RunIsReplay(lines: seq<string>)
    ensures Run(lines) == Replay(Kinds(lines), lines)
  {
    if lines != [] {
      var n := |lines| - 1;
      RunIsReplay(lines[..n]);
      assert Kinds(lines)[..n] == Kinds(lines[..n]);
    }
  }

  /** A block as the parser leaves it: a comment holds a text and no lines, a
      verse or chorus holds lines and no text. */
  predicate GoodBlock(b: Block) {
    (b.kind == "comment" && b.lines == [] && b.text.Some?)
    || ((b.kind == "verse" || b.kind == "chorus") && b.lines != [] && b.text.None?)
  }

  predicate Invariant(p: Parser) {
    (forall k :: 0 <= k < |p.blocks| ==> GoodBlock(p.blocks[k]))
    && p.current.kind == KindFor(p.inChorus) && p.current.text.None?
  }

  lemma ApplyKeepsInvariant(p: Parser, k: LineKind, line: string)
    requires Invariant(p)
    ensures Invariant(Apply(p, k, line))
  {
    assert Invariant(Flush(p));
  }

  lemma {:induction false} ReplayKeepsInvariant(ks: seq<LineKind>, lines: seq<string>)
    requires |ks| == |lines|
    ensures Invariant(Replay(ks, lines))
  {
    if lines != [] {
      var n := |lines| - 1;
      ReplayKeepsInvariant(ks[..n], lines[..n]);
      ApplyKeepsInvariant(Replay(ks[..n], lines[..n]), ks[n], lines[n]);
    }
  }

  lemma RunKeepsInvariant(lines: seq<string>)
    ensures Invariant(Run(lines))
  {
    RunIsReplay(lines);
    ReplayKeepsInvariant(Kinds(lines), lines);
  }

  /** Every block of a parsed song is a comment with a text, or a verse or chorus
      with at least one line: empty blocks are never kept. */
  lemma ParsedBlocksWellFormed(text: string)
    ensures forall b | b in Parse(text).blocks :: GoodBlock(b)
  {
    RunKeepsInvariant(SplitLines(text));
    assert Invariant(Flush(Run(SplitLines(text))));
  }

  predicate IsMarker(k: LineKind) {
    k.StartChorus? || k.EndChorus?
  }

  /** `ks[i]` is a start marker and no marker follows it. */
  predicate OpenAt(ks: seq<LineKind>, i: nat) {
    i < |ks| && ks[i] == StartChorus && forall j | i < j < |ks| :: !IsMarker(ks[j])
  }

  /** The last chorus marker among the kinds is a start marker. */
  predicate ChorusOpen(ks: seq<LineKind>) {
    exists i | 0 <= i < |ks| :: OpenAt(ks, i)
  }

  lemma ApplyFlag(p: Parser, k: LineKind, line: string)
    ensures Apply(p, k, line).inChorus == if k.StartChorus? then true else if k.EndChorus? then false else p.inChorus
  {
  }

  /** A kind that is no marker keeps the chorus open or closed. */
  lemma OpenAtExtends(ks: seq<LineKind>)
    requires ks != [] && !IsMarker(ks[|ks| - 1])
    ensures ChorusOpen(ks) == ChorusOpen(ks[..|ks| - 1])
  {
    var n := |ks| - 1;
    var init := ks[..n];
    if ChorusOpen(init) {
      var i :| 0 <= i < n && OpenAt(init, i);
      forall j | i < j < |ks|
        ensures !IsMarker(ks[j])
      {
        if j < n {
          assert ks[j] == init[j];
        }
      }
      assert OpenAt(ks, i);
    }
    if ChorusOpen(ks) {
      var i :| 0 <= i < |ks| && OpenAt(ks, i);
      assert i < n;
      forall j | i < j < n
        ensures !IsMarker(init[j])
      {
        assert ks[j] == init[j];
      }
      assert OpenAt(init, i);
    }
  }

  lemma ClosedByLast(ks: seq<LineKind>)
    requires ks != [] && ks[|ks| - 1] == EndChorus
    ensures !ChorusOpen(ks)
  {
    var n := |ks| - 1;
    forall i | 0 <= i < |ks|
      ensures !OpenAt(ks, i)
    {
      if i < n {
        assert IsMarker(ks[n]);
      }
    }
  }

  lemma {:induction false} ReplayChorusFlag(ks: seq<LineKind>, lines: seq<string>)
    requires |ks| == |lines|
    ensures Replay(ks, lines).inChorus == ChorusOpen(ks)
  {
    if lines != [] {
      var n := |lines| - 1;
      ReplayChorusFlag(ks[..n], lines[..n]);
      ApplyFlag(Replay(ks[..n], lines[..n]), ks[n], lines[n]);
      if ks[n] == StartChorus {
        assert OpenAt(ks, n);
      } else if ks[n] == EndChorus {
        ClosedByLast(ks);
      } else {
        OpenAtExtends(ks);
      }
    }
  }

  /** The chorus flag is set exactly when the last marker read was `{soc}`. */
  lemma ChorusFlag(lines: seq<string>)
    ensures Run(lines).inChorus == ChorusOpen(Kinds(lines))
  {
    RunIsReplay(lines);
    ReplayChorusFlag(Kinds(lines), lines);
  }

  /** A lyric line joins the open block, which is a chorus block exactly when a
      `{soc}` is the last marker before it. */
  lemma LyricLineJoinsOpenBlock(lines: seq<string>, i: nat)
    requires i < |lines| && Classify(lines[i]) == LyricLine
    ensures var p := Run(lines[..i + 1]);
      p.current.kind == (if ChorusOpen(Kinds(lines[..i])) then "chorus" else "verse")
      && p.current.lines != [] && p.current.lines[|p.current.lines| - 1] == Line(Tokenize(lines[i]))
  {
    assert lines[..i + 1][..i] == lines[..i];
    RunKeepsInvariant(lines[..i]);
    ChorusFlag(lines[..i]);
  }

  /** The texts of the comment blocks, in order. */
  function CommentTexts(blocks: seq<Block>): seq<string> {
    if blocks == [] then []
    else
      var b := blocks[|blocks| - 1];
      CommentTexts(blocks[..|blocks| - 1]) + (if b.kind == "comment" then [b.text.GetOr("")] else [])
  }

  /** The values of the comment lines, in order. */
  function CommentValues(ks: seq<LineKind>): seq<string> {
    if ks == [] then []
    else
      var k := ks[|ks| - 1];
      CommentValues(ks[..|ks| - 1]) + (if k.CommentLine? then [k.text] else [])
  }

  lemma FlushKeepsComments(blocks: seq<Block>, current: Block)
    requires current.kind != "comment"
    ensures CommentTexts(FlushedBlocks(blocks, current)) == CommentTexts(blocks)
  {
    if current.lines != [] {
      assert (blocks + [current])[..|blocks|] == blocks;
    }
  }

  lemma FlushComments(p: Parser)
    requires p.current.kind != "comment"
    ensures CommentTexts(Flush(p).blocks) == CommentTexts(p.blocks)
  {
    FlushKeepsComments(p.blocks, p.current);
  }

  lemma ApplyKeepsComments(p: Parser, k: LineKind, line: string)
    requires p.current.kind != "comment"
    ensures CommentTexts(Apply(p, k, line).blocks) == CommentTexts(p.blocks) + (if k.CommentLine? then [k.text] else [])
  {
    match k
    case CommentLine(t) =>
      FlushComments(p);
      var fb := Flush(p).blocks;
      var b := Block("comment", [], Some(t));
      assert (fb + [b])[..|fb|] == fb;
    case MetaLine(_, _) =>
    case LyricLine =>
    case _ =>
      FlushComments(p);
  }

  lemma {:induction false} ReplayKeepsComments(ks: seq<LineKind>, lines: seq<string>)
    requires |ks| == |lines|
    ensures CommentTexts(Replay(ks, lines).blocks) == CommentValues(ks)
  {
    if lines != [] {
      var n := |lines| - 1;
      ReplayKeepsComments(ks[..n], lines[..n]);
      ReplayKeepsInvariant(ks[..n], lines[..n]);
      ApplyKeepsComments(Replay(ks[..n], lines[..n]), ks[n], lines[n]);
    }
  }

  /** Each comment line gives one comment block, in the order of the lines. */
  lemma CommentsKeptInOrder(lines: seq<string>)
    ensures CommentTexts(Run(lines).blocks) == CommentValues(Kinds(lines))
  {
    RunIsReplay(lines);
    ReplayKeepsComments(Kinds(lines), lines);
  }

  /** All lines of the blocks, in order. */
  function AllLines(blocks: seq<Block>): seq<Line> {
    if blocks == [] then [] else AllLines(blocks[..|blocks| - 1]) + blocks[|blocks| - 1].lines
  }

  /** The token lines of the lyric lines, in order. */
  function LyricLinesOf(ks: seq<LineKind>, lines: seq<string>): seq<Line>
    requires |ks| == |lines|
  {
    if lines == [] then []
    else
      var n := |lines| - 1;
      LyricLinesOf(ks[..n], lines[..n]) + (if ks[n] == LyricLine then [Line(Tokenize(lines[n]))] else [])
  }

  lemma FlushKeepsLines(blocks: seq<Block>, current: Block)
    ensures AllLines(FlushedBlocks(blocks, current)) == AllLines(blocks) + current.lines
  {
    if current.lines != [] {
      assert (blocks + [current])[..|blocks|] == blocks;
    } else {
      assert AllLines(blocks) + current.lines == AllLines(blocks);
    }
  }

  /** The lines a parser holds: those of its closed blocks, then those of the open one. */
  function HeldLines(p: Parser): seq<Line> {
    AllLines(p.blocks) + p.current.lines
  }

  /** Flushing moves the open block's lines to the closed blocks. */
  lemma FlushHeld(p: Parser)
    ensures HeldLines(Flush(p)) == HeldLines(p) && Flush(p).current.lines == []
  {
    FlushKeepsLines(p.blocks, p.current);
    assert AllLines(FlushedBlocks(p.blocks, p.current)) + [] == AllLines(FlushedBlocks(p.blocks, p.current));
  }

  lemma ApplyKeepsLines(p: Parser, k: LineKind, line: string)
    ensures HeldLines(Apply(p, k, line)) == HeldLines(p) + (if k == LyricLine then [Line(Tokenize(line))] else [])
  {
    match k
    case CommentLine(t) =>
      FlushHeld(p);
      var fb := Flush(p).blocks;
      var b := Block("comment", [], Some(t));
      assert (fb + [b])[..|fb|] == fb;
      assert AllLines(fb + [b]) == AllLines(fb) + [];
    case LyricLine =>
      var l := Line(Tokenize(line));
      assert AllLines(p.blocks) + (p.current.lines + [l]) == AllLines(p.blocks) + p.current.lines + [l];
    case MetaLine(_, _) =>
    case _ =>
      FlushHeld(p);
  }

  lemma {:induction false} ReplayKeepsLines(ks: seq<LineKind>, lines: seq<string>)
    requires |ks| == |lines|
    ensures HeldLines(Replay(ks, lines)) == LyricLinesOf(ks, lines)
  {
    if lines != [] {
      var n := |lines| - 1;
      ReplayKeepsLines(ks[..n], lines[..n]);
      ApplyKeepsLines(Replay(ks[..n], lines[..n]), ks[n], lines[n]);
    }
  }

  /** The parsed song's blocks hold every lyric line's tokens, in order: no lyric
      line is lost, duplicated or reordered. */
  lemma ParseKeepsEveryLyricLine(text: string)
    ensures var lines := SplitLines(text);
      AllLines(Parse(text).blocks) == LyricLinesOf(Kinds(lines), lines)
  {
    var lines := SplitLines(text);
    var p := Run(lines);
    RunIsReplay(lines);
    ReplayKeepsLines(Kinds(lines), lines);
    FlushKeepsLines(p.blocks, p.current);
  }

  /** A blank line closes the open block: its lines move to the blocks. */
  lemma BlankLineClosesBlock(p: Parser, line: string)
    requires IsBlank(line)
    ensures Step(p, line).current.lines == []
    ensures AllLines(Step(p, line).blocks) == AllLines(p.blocks) + p.current.lines
  {
    FlushKeepsLines(p.blocks, p.current);
  }

  predicate SetsKey(k: LineKind, key: string) {
    k.MetaLine? && k.key == key
  }

  lemma ApplyMeta(p: Parser, k: LineKind, line: string)
    ensures Apply(p, k, line).meta == if k.MetaLine? then p.meta[k.key := k.value] else p.meta
  {
  }

  /** Some kind among `ks` sets `key`. */
  predicate AnySets(ks: seq<LineKind>, key: string) {
    exists i | 0 <= i < |ks| :: SetsKey(ks[i], key)
  }

  lemma AnySetsSnoc(ks: seq<LineKind>, key: string)
    requires ks != []
    ensures AnySets(ks, key) <==> AnySets(ks[..|ks| - 1], key) || SetsKey(ks[|ks| - 1], key)
  {
    var n := |ks| - 1;
    if AnySets(ks, key) {
      var i :| 0 <= i < |ks| && SetsKey(ks[i], key);
      if i < n {
        assert SetsKey(ks[..n][i], key);
      }
    }
    if AnySets(ks[..n], key) {
      var i :| 0 <= i < n && SetsKey(ks[..n][i], key);
      assert SetsKey(ks[i], key);
    }
  }

  lemma {:induction false} ReplayMetaKeys(ks: seq<LineKind>, lines: seq<string>, key: string)
    requires |ks| == |lines|
    ensures key in Replay(ks, lines).meta <==> AnySets(ks, key)
  {
    if lines != [] {
      var n := |lines| - 1;
      ReplayMetaKeys(ks[..n], lines[..n], key);
      ApplyMeta(Replay(ks[..n], lines[..n]), ks[n], lines[n]);
      AnySetsSnoc(ks, key);
    }
  }

  /** `ks[i]` sets `key` to `v` and no later kind sets `key`. */
  predicate LastSetting(ks: seq<LineKind>, i: nat, key: string, v: string) {
    i < |ks| && ks[i] == MetaLine(key, v) && forall j | i < j < |ks| :: !SetsKey(ks[j], key)
  }

  lemma LastSettingExtends(ks: seq<LineKind>, i: nat, key: string, v: string)
    requires ks != [] && LastSetting(ks[..|ks| - 1], i, key, v) && !SetsKey(ks[|ks| - 1], key)
    ensures LastSetting(ks, i, key, v)
  {
    var n := |ks| - 1;
    forall j | i < j < |ks|
      ensures !SetsKey(ks[j], key)
    {
      if j < n {
        assert ks[j] == ks[..n][j];
      }
    }
  }

  lemma {:induction false} ReplayMetaLast(ks: seq<LineKind>, lines: seq<string>, key: string)
    requires |ks| == |lines|
    ensures key in Replay(ks, lines).meta ==> exists i :: LastSetting(ks, i, key, Replay(ks, lines).meta[key])
  {
    if lines != [] {
      var n := |lines| - 1;
      var init := ks[..n];
      var p0 := Replay(init, lines[..n]);
      ReplayMetaLast(init, lines[..n], key);
      ApplyMeta(p0, ks[n], lines[n]);
      var m := Replay(ks, lines).meta;
      if SetsKey(ks[n], key) {
        assert LastSetting(ks, n, key, m[key]);
      } else if key in m {
        var i :| LastSetting(init, i, key, p0.meta[key]);
        LastSettingExtends(ks, i, key, m[key]);
      }
    }
  }

  /** The metadata holds a key exactly when some directive line sets it, and its
      value is the one of the last such line. */
  lemma MetaIsLastDirective(text: string, key: string)
    ensures key in Parse(text).meta <==> AnySets(Kinds(SplitLines(text)), key)
    ensures key in Parse(text).meta ==> exists i :: LastSetting(Kinds(SplitLines(text)), i, key, Parse(text).meta[key])
  {
    var lines := SplitLines(text);
    RunIsReplay(lines);
    ReplayMetaKeys(Kinds(lines), lines, key);
    ReplayMetaLast(Kinds(lines), lines, key);
  }
}
