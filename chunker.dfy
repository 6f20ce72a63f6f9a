/**
 * Size check and boundary-aligned splitting of a Ruby file before it is sent to
 * the provider (`should_chunk_file` and `chunk_ruby_file` in generate_docs.py).
 */
module Chunker {
  import opened Text

  /** A file with more `'\n'`-separated segments than this is processed in chunks. */
  const ChunkThreshold: nat := 500

  /** Default target number of lines per chunk. */
  const DefaultChunkSize: int := 400

  /** `should_chunk_file`: more than 500 segments, that is at least 500 newlines. */
  function ShouldChunkFile(content: string): (r: bool)
    ensures r <==> CountChar(content, '\n') >= ChunkThreshold
  {
    |SplitNl(content)| > ChunkThreshold
  }

  /** The line boundaries of `str.splitlines()` other than `'\n'`. */
  predicate IsOtherLineBreak(c: char) {
    c == '\r' || c == '\U{0B}' || c == '\U{0C}' || c == '\U{1C}' || c == '\U{1D}' || c == '\U{1E}'
    || c == '\U{85}' || c == '\U{2028}' || c == '\U{2029}'
  }

  predicate IsLineBreak(c: char) {
    c == '\n' || IsOtherLineBreak(c)
  }

  predicate OnlyNewlineBreaks(content: string) {
    forall i :: 0 <= i < |content| ==> !IsOtherLineBreak(content[i])
  }

  function TrailingNewline(content: string): string {
    if content != [] && content[|content| - 1] == '\n' then "\n" else ""
  }

  /** Index of the first line boundary at or after `i`, or `|s|`. */
  function LineEnd(s: string, i: nat): (e: nat)
    requires i <= |s|
    ensures i <= e <= |s|
    ensures forall j :: i <= j < e ==> !IsLineBreak(s[j])
    ensures e < |s| ==> IsLineBreak(s[e])
    decreases |s| - i
  {
    if i == |s| || IsLineBreak(s[i]) then i else LineEnd(s, i + 1)
  }

  /** Index just past the boundary at `e`: `"\r\n"` is one boundary. */
  function BreakEnd(s: string, e: nat): (next: nat)
    requires e < |s|
    ensures e < next <= |s|
  {
    if s[e] == '\r' && e + 1 < |s| && s[e + 1] == '\n' then e + 2 else e + 1
  }

  /** The lines of `s[i..]`, without their boundaries and with no empty line after a final boundary. */
  function LinesFrom(s: string, i: nat): (lines: seq<string>)
    requires i <= |s|
    ensures lines == [] <==> i == |s|
    decreases |s| - i
  {
    if i == |s| then []
    else
      var e := LineEnd(s, i);
      if e == |s| then [s[i..]] else [s[i..e]] + LinesFrom(s, BreakEnd(s, e))
  }

  /** `content.splitlines()`. */
  function SplitLines(content: string): (lines: seq<string>)
    ensures lines == [] <==> content == []
  {
    LinesFrom(content, 0)
  }

  /** No line contains a boundary. */
  lemma {:induction false} LinesFromNoBreak(s: string, i: nat, k: nat, j: nat)
    requires i <= |s|
    requires k < |LinesFrom(s, i)| && j < |LinesFrom(s, i)[k]|
    ensures !IsLineBreak(LinesFrom(s, i)[k][j])
    decreases |s| - i
  {
    var e := LineEnd(s, i);
    if e < |s| && k > 0 {
      LinesFromNoBreak(s, BreakEnd(s, e), k - 1, j);
    } else {
      assert LinesFrom(s, i)[k][j] == s[i + j];
    }
  }

  /**
   * With `'\n'` as the only boundary, joining the lines with `'\n'` gives the
   * text back, up to one final newline.
   */
  lemma {:induction false} LinesFromRejoin(s: string, i: nat)
    requires i <= |s|
    requires forall j :: i <= j < |s| ==> !IsOtherLineBreak(s[j])
    ensures JoinNl(LinesFrom(s, i)) + TrailingNewline(s[i..]) == s[i..]
    decreases |s| - i
  {
    if i < |s| {
      var e := LineEnd(s, i);
      if e == |s| {
        assert !IsLineBreak(s[|s| - 1]);
      } else {
        assert s[e] == '\n';
        assert BreakEnd(s, e) == e + 1;
        var rest := LinesFrom(s, e + 1);
        assert LinesFrom(s, i) == [s[i..e]] + rest;
        if rest == [] {
          assert s[i..] == s[i..e] + "\n";
        } else {
          LinesFromRejoin(s, e + 1);
          RejoinStep(s, i, e, rest);
        }
      }
    }
  }

  lemma RejoinStep(s: string, i: nat, e: nat, rest: seq<string>)
    requires i <= e && e + 1 < |s| && s[e] == '\n' && rest != []
    requires JoinNl(rest) + TrailingNewline(s[e + 1..]) == s[e + 1..]
    ensures JoinNl([s[i..e]] + rest) + TrailingNewline(s[i..]) == s[i..]
  {
    JoinNlAppend([s[i..e]], rest);
    assert TrailingNewline(s[i..]) == TrailingNewline(s[e + 1..]);
    assert s[i..] == s[i..e] + "\n" + s[e + 1..];
  }

  /** `splitlines` of a text with only `'\n'` boundaries, joined with `'\n'`, is the text up to a final newline. */
  lemma SplitLinesRejoin(content: string)
    requires OnlyNewlineBreaks(content)
    ensures JoinNl(SplitLines(content)) + TrailingNewline(content) == content
  {
    LinesFromRejoin(content, 0);
    assert content[0..] == content;
  }

  /** `^\s*(class|module|def)\b`: the line's first word is one of the three keywords. */
  predicate OpensBlock(line: string) {
    var w := FirstWord(line);
    w == "class" || w == "module" || w == "def"
  }

  /** `^\s*end\b`: the line's first word is `end`. */
  predicate ClosesBlock(line: string) {
    FirstWord(line) == "end"
  }


  /** How the block counter sees a line. */
  datatype LineKind = Opener | Closer | Plain

  /** The opening test comes first, as in the source's `if`/`elif`. */
  function Kind(line: string): LineKind {
    if OpensBlock(line) then Opener else if ClosesBlock(line) then Closer else Plain
  }

  function Kinds(lines: seq<string>): (ks: seq<LineKind>)
    ensures |ks| == |lines|
  {
    if lines == [] then [] else Kinds(lines[..|lines| - 1]) + [Kind(lines[|lines| - 1])]
  }

  lemma {:induction false} KindsAt(lines: seq<string>, i: nat)
    requires i < |lines|
    ensures Kinds(lines)[i] == Kind(lines[i])
    ensures Kinds(lines)[i] == Opener <==> OpensBlock(lines[i])
    ensures Kinds(lines)[i] == Closer <==> ClosesBlock(lines[i])
  {
    if i < |lines| - 1 {
      KindsAt(lines[..|lines| - 1], i);
    }
  }

  /** The nesting counter after the first `n` lines: +1 per opening line, -1 per `end` line. */
  function Nesting(ks: seq<LineKind>, n: nat): int
    requires n <= |ks|
  {
    if n == 0 then 0
    else Nesting(ks, n - 1) + (match ks[n - 1] case Opener => 1 case Closer => -1 case Plain => 0)
  }

  /** Some line among the first `n` opens a class, module or def (`at_start` is false). */
  predicate SeenOpen(ks: seq<LineKind>, n: nat)
    requires n <= |ks|
  {
    n > 0 && (SeenOpen(ks, n - 1) || ks[n - 1] == Opener)
  }

  /**
   * After line `i` the counter is at most 1, a declaration has been seen, and
   * line `i` is an `end` or line `i + 1` starts a def, class or module.
   */
  predicate CleanBoundary(ks: seq<LineKind>, i: nat)
    requires i < |ks|
  {
    && Nesting(ks, i + 1) <= 1
    && SeenOpen(ks, i + 1)
    && (ks[i] == Closer || (i + 1 < |ks| && ks[i + 1] == Opener))
  }

  /** Whether each line ends at a clean boundary. */
  function CleanFlags(ks: seq<LineKind>): (clean: seq<bool>)
    ensures |clean| == |ks|
  {
    CleanFrom(ks, 0)
  }

  function CleanFrom(ks: seq<LineKind>, i: nat): (clean: seq<bool>)
    requires i <= |ks|
    ensures |clean| == |ks| - i
    decreases |ks| - i
  {
    if i == |ks| then [] else [CleanBoundary(ks, i)] + CleanFrom(ks, i + 1)
  }

  lemma {:induction false} CleanFromAt(ks: seq<LineKind>, i: nat, j: nat)
    requires i <= j < |ks|
    ensures CleanFrom(ks, i)[j - i] == CleanBoundary(ks, j)
    decreases j - i
  {
    if i < j {
      CleanFromAt(ks, i + 1, j);
    }
  }

  lemma CleanFlagsAt(ks: seq<LineKind>, i: nat)
    requires i < |ks|
    ensures CleanFlags(ks)[i] == CleanBoundary(ks, i)
  {
    CleanFromAt(ks, 0, i);
  }

  /**
   * The chunker cuts after line `i` of a chunk that began at line `start`:
   * the chunk has reached `chunkSize` lines and line `i` ends at a clean boundary.
   */
  predicate SplitsAfter(clean: seq<bool>, chunkSize: int, start: nat, i: nat)
    requires start <= i < |clean|
  {
    i + 1 - start >= chunkSize && clean[i]
  }

  /** The first line at or after `i` after which a chunk begun at `start` is cut, or `|clean|`. */
  function NextCut(clean: seq<bool>, chunkSize: int, start: nat, i: nat): (c: nat)
    requires start <= i <= |clean|
    ensures i <= c <= |clean|
    ensures c < |clean| ==> SplitsAfter(clean, chunkSize, start, c)
    ensures forall j :: i <= j < c ==> !SplitsAfter(clean, chunkSize, start, j)
    decreases |clean| - i
  {
    if i == |clean| || SplitsAfter(clean, chunkSize, start, i) then i else NextCut(clean, chunkSize, start, i + 1)
  }

  /** The lines `lo` up to (not including) `hi` that form one chunk. */
  datatype Span = Span(lo: nat, hi: nat)

  /** The spans cover `a` up to `b` in order, each non-empty, with no gap and no overlap. */
  predicate Tiles(sp: seq<Span>, a: nat, b: nat)
    decreases |sp|
  {
    if sp == [] then a == b
    else sp[0].lo == a && sp[0].lo < sp[0].hi && Tiles(sp[1..], sp[0].hi, b)
  }

  /** Every span lies within the first `n` lines. */
  predicate Within(sp: seq<Span>, n: nat) {
    forall k :: 0 <= k < |sp| ==> sp[k].lo <= sp[k].hi <= n
  }

  /**
   * The chunks from line `start` on: each runs from its first line to the
   * first line after which the chunker cuts, the last one to the end.
   */
  function Spans(clean: seq<bool>, chunkSize: int, start: nat): seq<Span>
    requires start <= |clean|
    decreases |clean| - start
  {
    if start == |clean| then []
    else
      var c := NextCut(clean, chunkSize, start, start);
      if c == |clean| then [Span(start, |clean|)]
      else [Span(start, c + 1)] + Spans(clean, chunkSize, c + 1)
  }

  /** The spans cover the lines from `start` to the end, in order, without gap or overlap. */
  lemma {:induction false} SpansTile(clean: seq<bool>, chunkSize: int, start: nat)
    requires start <= |clean|
    ensures Tiles(Spans(clean, chunkSize, start), start, |clean|)
    decreases |clean| - start
  {
    if start < |clean| {
      var c := NextCut(clean, chunkSize, start, start);
      if c < |clean| {
        SpansTile(clean, chunkSize, c + 1);
        var sp := Spans(clean, chunkSize, start);
        assert sp[1..] == Spans(clean, chunkSize, c + 1);
      }
    }
  }

  /** Tiling spans lie between `a` and `b`. */
  lemma {:induction false} TilesWithin(sp: seq<Span>, a: nat, b: nat)
    requires Tiles(sp, a, b)
    ensures Within(sp, b)
    ensures forall k :: 0 <= k < |sp| ==> a <= sp[k].lo
    decreases |sp|
  {
    if sp != [] {
      TilesWithin(sp[1..], sp[0].hi, b);
      TilesBounds(sp[1..], sp[0].hi, b);
      assert forall k :: 1 <= k < |sp| ==> sp[k] == sp[1..][k - 1];
    }
  }

  /** Every span but the last ends with a line after which the chunker cuts. */
  lemma {:induction false} SpansCut(clean: seq<bool>, chunkSize: int, start: nat, k: nat)
    requires start <= |clean|
    requires k + 1 < |Spans(clean, chunkSize, start)|
    ensures var s := Spans(clean, chunkSize, start)[k];
      start <= s.lo < s.hi <= |clean| && SplitsAfter(clean, chunkSize, s.lo, s.hi - 1)
    decreases |clean| - start
  {
    var c := NextCut(clean, chunkSize, start, start);
    if k > 0 {
      SpansCut(clean, chunkSize, c + 1, k - 1);
    }
  }

  /** No line of a span before its last is one after which the chunker would have cut. */
  lemma {:induction false} SpansNoEarlierCut(clean: seq<bool>, chunkSize: int, start: nat, k: nat, j: nat)
    requires start <= |clean|
    requires k < |Spans(clean, chunkSize, start)|
    requires Spans(clean, chunkSize, start)[k].lo <= j < Spans(clean, chunkSize, start)[k].hi - 1
    ensures j < |clean| && !SplitsAfter(clean, chunkSize, Spans(clean, chunkSize, start)[k].lo, j)
    decreases |clean| - start
  {
    var c := NextCut(clean, chunkSize, start, start);
    if k > 0 {
      SpansNoEarlierCut(clean, chunkSize, c + 1, k - 1, j);
    }
  }

  /** The text of each span: its lines joined with `'\n'`. */
  function Texts(lines: seq<string>, sp: seq<Span>): (r: seq<string>)
    requires Within(sp, |lines|)
    ensures |r| == |sp|
  {
    if sp == [] then []
    else [JoinNl(lines[sp[0].lo..sp[0].hi])] + Texts(lines, sp[1..])
  }

  /** Chunk `k` is the lines of span `k` joined with `'\n'`. */
  lemma {:induction false} TextsAt(lines: seq<string>, sp: seq<Span>, k: nat)
    requires Within(sp, |lines|) && k < |sp|
    ensures Texts(lines, sp)[k] == JoinNl(lines[sp[k].lo..sp[k].hi])
  {
    if k > 0 {
      TextsAt(lines, sp[1..], k - 1);
    }
  }

  /** The chunks of `chunk_ruby_file`, as line spans: they tile the lines. */
  function ChunkSpans(lines: seq<string>, chunkSize: int): (sp: seq<Span>)
    ensures Tiles(sp, 0, |lines|)
    ensures Within(sp, |lines|)
  {
    var ks := Kinds(lines);
    SpansTile(CleanFlags(ks), chunkSize, 0);
    TilesWithin(Spans(CleanFlags(ks), chunkSize, 0), 0, |lines|);
    Spans(CleanFlags(ks), chunkSize, 0)
  }

  /** What `chunk_ruby_file` returns. */
  function Chunks(content: string, chunkSize: int): seq<string> {
    var lines := SplitLines(content);
    if lines == [] then [content] else Texts(lines, ChunkSpans(lines, chunkSize))
  }

  /**
   * Every chunk but the last holds at least `chunkSize` lines and is cut at a
   * clean boundary: after its last line the counter is at most 1, a
   * declaration has been seen, and that line is an `end` or the next line
   * opens a class, module or def.
   */
  lemma ChunkCuts(lines: seq<string>, chunkSize: int, k: nat)
    requires k + 1 < |ChunkSpans(lines, chunkSize)|
    ensures var sp := ChunkSpans(lines, chunkSize);
      && sp[k].hi - sp[k].lo >= chunkSize
      && 0 < sp[k].hi <= |lines|
      && CleanBoundary(Kinds(lines), sp[k].hi - 1)
  {
    var ks := Kinds(lines);
    var sp := ChunkSpans(lines, chunkSize);
    SpansCut(CleanFlags(ks), chunkSize, 0, k);
    CleanFlagsAt(ks, sp[k].hi - 1);
  }

  /**
   * The chunker cuts as soon as it may: no line of chunk `k` before its last
   * met the length and boundary conditions.
   */
  lemma ChunkCutEarliest(lines: seq<string>, chunkSize: int, k: nat, j: nat)
    requires k < |ChunkSpans(lines, chunkSize)|
    requires ChunkSpans(lines, chunkSize)[k].lo <= j < ChunkSpans(lines, chunkSize)[k].hi - 1
    ensures j < |lines|
    ensures !(j + 1 - ChunkSpans(lines, chunkSize)[k].lo >= chunkSize && CleanBoundary(Kinds(lines), j))
  {
    var ks := Kinds(lines);
    SpansNoEarlierCut(CleanFlags(ks), chunkSize, 0, k, j);
    CleanFlagsAt(ks, j);
  }

  /** Spans that tile `a` up to `b` start at `a`, with `a < b` unless there are none. */
  lemma {:induction false} TilesBounds(sp: seq<Span>, a: nat, b: nat)
    requires Tiles(sp, a, b)
    ensures sp == [] <==> a == b
    ensures a <= b
    decreases |sp|
  {
    if sp != [] {
      TilesBounds(sp[1..], sp[0].hi, b);
    }
  }

  /** The texts of spans that tile `a` up to `b`, joined with `'\n'`, are the lines `a` up to `b` joined. */
  lemma {:induction false} TextsRejoin(lines: seq<string>, sp: seq<Span>, a: nat, b: nat)
    requires a <= b <= |lines|
    requires Tiles(sp, a, b) && sp != []
    requires Within(sp, |lines|)
    ensures JoinNl(Texts(lines, sp)) == JoinNl(lines[a..b])
    decreases |sp|
  {
    var m := sp[0].hi;
    var rest := sp[1..];
    assert Tiles(rest, m, b);
    TilesBounds(rest, m, b);
    if rest == [] {
      assert m == b;
    } else {
      var head := lines[a..m];
      var tail := lines[m..b];
      assert Within(rest, |lines|);
      TextsRejoin(lines, rest, m, b);
      assert Texts(lines, sp) == [JoinNl(head)] + Texts(lines, rest);
      JoinNlAppend([JoinNl(head)], Texts(lines, rest));
      JoinNlAppend(head, tail);
      assert lines[a..b] == head + tail;
    }
  }

  /** There is always at least one chunk. */
  lemma ChunksNonEmpty(content: string, chunkSize: int)
    ensures Chunks(content, chunkSize) != []
  {
    var lines := SplitLines(content);
    if lines != [] {
      TilesBounds(ChunkSpans(lines, chunkSize), 0, |lines|);
    }
  }

  /**
   * When `'\n'` is the only line boundary, the chunks joined with `'\n'` give
   * back the file up to a final newline: no line is lost, repeated or moved.
   */
  lemma ChunksRejoin(content: string, chunkSize: int)
    requires OnlyNewlineBreaks(content)
    ensures JoinNl(Chunks(content, chunkSize)) + TrailingNewline(content) == content
  {
    var lines := SplitLines(content);
    SplitLinesRejoin(content);
    if lines != [] {
      var sp := ChunkSpans(lines, chunkSize);
      TilesBounds(sp, 0, |lines|);
      TextsRejoin(lines, sp, 0, |lines|);
      assert lines[0..|lines|] == lines;
    }
  }

  /**
   * One step of the walk: a cut after line `i` closes the chunk begun at
   * `start`; otherwise the next cut is still ahead.
   */
  lemma SpansStep(clean: seq<bool>, chunkSize: int, done: seq<Span>, start: nat, i: nat)
    requires start <= i < |clean|
    requires NextCut(clean, chunkSize, start, start) == NextCut(clean, chunkSize, start, i)
    requires done + Spans(clean, chunkSize, start) == Spans(clean, chunkSize, 0)
    ensures SplitsAfter(clean, chunkSize, start, i) ==>
      (done + [Span(start, i + 1)]) + Spans(clean, chunkSize, i + 1) == Spans(clean, chunkSize, 0)
    ensures !SplitsAfter(clean, chunkSize, start, i) ==>
      NextCut(clean, chunkSize, start, start) == NextCut(clean, chunkSize, start, i + 1)
  {
    if SplitsAfter(clean, chunkSize, start, i) {
      var rest := Spans(clean, chunkSize, i + 1);
      assert Spans(clean, chunkSize, start) == [Span(start, i + 1)] + rest;
      assert (done + [Span(start, i + 1)]) + rest == done + ([Span(start, i + 1)] + rest);
    }
  }

  /** At the end of the walk, the lines since the last cut form the last chunk. */
  lemma SpansDone(clean: seq<bool>, chunkSize: int, start: nat)
    requires start <= |clean|
    requires NextCut(clean, chunkSize, start, start) == |clean|
    ensures start < |clean| ==> Spans(clean, chunkSize, start) == [Span(start, |clean|)]
    ensures start == |clean| ==> Spans(clean, chunkSize, start) == []
  {
  }

  /**
   * The walk's test after line `i`, made from the counter and the header flag
   * after that line, is the clean-boundary flag of line `i`.
   */
  lemma CleanStep(lines: seq<string>, i: nat, nesting: int, atStart: bool)
    requires i < |lines|
    requires nesting == Nesting(Kinds(lines), i + 1)
    requires atStart == !SeenOpen(Kinds(lines), i + 1)
    ensures CleanFlags(Kinds(lines))[i] <==>
      && nesting <= 1
      && !atStart
      && (ClosesBlock(lines[i]) || (i + 1 < |lines| && OpensBlock(lines[i + 1])))
  {
    CleanFlagsAt(Kinds(lines), i);
    KindsAt(lines, i);
    if i + 1 < |lines| {
      KindsAt(lines, i + 1);
    }
  }

  /** How line `i` moves the counter and the header flag. */
  lemma NestingStep(lines: seq<string>, i: nat)
    requires i < |lines|
    ensures Nesting(Kinds(lines), i + 1) == Nesting(Kinds(lines), i)
      + (if OpensBlock(lines[i]) then 1 else if ClosesBlock(lines[i]) then -1 else 0)
    ensures SeenOpen(Kinds(lines), i + 1) <==> SeenOpen(Kinds(lines), i) || OpensBlock(lines[i])
  {
    KindsAt(lines, i);
  }

  /**
   * One line of the walk, as `chunk_ruby_file` updates its counter and
   * header flag and decides whether to cut: the new counter and flag are
   * those of the next line, and a cut happens exactly where the span
   * specification puts one.
   */
  lemma WalkStep(lines: seq<string>, chunkSize: int, done: seq<Span>, start: nat, i: nat, nesting: int, atStart: bool)
      returns (n: int, a: bool, split: bool)
    requires start <= i < |lines|
    requires nesting == Nesting(Kinds(lines), i)
    requires atStart == !SeenOpen(Kinds(lines), i)
    requires var clean := CleanFlags(Kinds(lines));
      NextCut(clean, chunkSize, start, start) == NextCut(clean, chunkSize, start, i)
    requires done + Spans(CleanFlags(Kinds(lines)), chunkSize, start) == ChunkSpans(lines, chunkSize)
    ensures n == nesting + (if OpensBlock(lines[i]) then 1 else if ClosesBlock(lines[i]) then -1 else 0)
    ensures a == (atStart && !OpensBlock(lines[i]))
    ensures split == (i + 1 - start >= chunkSize && n <= 1 && !a
        && (ClosesBlock(lines[i]) || (i + 1 < |lines| && OpensBlock(lines[i + 1]))))
    ensures n == Nesting(Kinds(lines), i + 1)
    ensures a == !SeenOpen(Kinds(lines), i + 1)
    ensures var clean := CleanFlags(Kinds(lines));
      split ==> (done + [Span(start, i + 1)]) + Spans(clean, chunkSize, i + 1) == ChunkSpans(lines, chunkSize)
    ensures var clean := CleanFlags(Kinds(lines));
      !split ==> NextCut(clean, chunkSize, start, start) == NextCut(clean, chunkSize, start, i + 1)
  {
    var clean := CleanFlags(Kinds(lines));
    NestingStep(lines, i);
    n := nesting + (if OpensBlock(lines[i]) then 1 else if ClosesBlock(lines[i]) then -1 else 0);
    a := atStart && !OpensBlock(lines[i]);
    split := i + 1 - start >= chunkSize && n <= 1 && !a
        && (ClosesBlock(lines[i]) || (i + 1 < |lines| && OpensBlock(lines[i + 1])));
    CleanStep(lines, i, n, a);
    SpansStep(clean, chunkSize, done, start, i);
  }

  /** Adding a span adds its text. */
  lemma TextsSnoc(lines: seq<string>, sp: seq<Span>, s: Span)
    requires Within(sp, |lines|)
    requires s.lo <= s.hi <= |lines|
    ensures Within(sp + [s], |lines|)
    ensures Texts(lines, sp + [s]) == Texts(lines, sp) + [JoinNl(lines[s.lo..s.hi])]
    decreases |sp|
  {
    if sp != [] {
      TextsSnoc(lines, sp[1..], s);
      assert (sp + [s])[1..] == sp[1..] + [s];
    }
  }

  lemma SliceExtend(lines: seq<string>, start: nat, i: nat)
    requires start <= i < |lines|
    ensures lines[start..i + 1] == lines[start..i] + [lines[i]]
  {
  }

  /**
   * The walk of `chunk_ruby_file` from line `i` on, given the state it has
   * reached there: the lines of the open chunk, the counter, the header flag
   * and the chunks already cut.
   */
  ghost function Walk(lines: seq<string>, chunkSize: int, i: nat, current: seq<string>, nesting: int, atStart: bool, chunks: seq<string>): seq<string>
    requires i <= |lines|
    decreases |lines| - i
  {
    if i == |lines| then (if current != [] then chunks + [JoinNl(current)] else chunks)
    else
      var line := lines[i];
      var n := if OpensBlock(line) then nesting + 1 else if ClosesBlock(line) then nesting - 1 else nesting;
      var a := atStart && !OpensBlock(line);
      var cur := current + [line];
      var split := |cur| >= chunkSize && n <= 1 && cur != [] && !a
        && (ClosesBlock(line) || (i + 1 < |lines| && OpensBlock(lines[i + 1])));
      if split then Walk(lines, chunkSize, i + 1, [], n, a, chunks + [JoinNl(cur)])
      else Walk(lines, chunkSize, i + 1, cur, n, a, chunks)
  }

  /**
   * One step of the walk at line `i`: the counter, the flag and the cut
   * decision it computes, and the open chunk and chunks it moves to.
   */
  ghost predicate WalkMove(lines: seq<string>, chunkSize: int, i: nat,
                           current: seq<string>, nesting: int, atStart: bool, chunks: seq<string>,
                           current': seq<string>, nesting': int, atStart': bool, chunks': seq<string>)
    requires i < |lines|
  {
    var split := |current| + 1 >= chunkSize && nesting' <= 1 && !atStart'
      && (ClosesBlock(lines[i]) || (i + 1 < |lines| && OpensBlock(lines[i + 1])));
    && nesting' == nesting + (if OpensBlock(lines[i]) then 1 else if ClosesBlock(lines[i]) then -1 else 0)
    && atStart' == (atStart && !OpensBlock(lines[i]))
    && (split ==> current' == [] && chunks' == chunks + [JoinNl(current + [lines[i]])])
    && (!split ==> current' == current + [lines[i]] && chunks' == chunks)
  }

  /** A step of the walk leaves its result unchanged. */
  lemma WalkUnfold(lines: seq<string>, chunkSize: int, i: nat,
                   current: seq<string>, nesting: int, atStart: bool, chunks: seq<string>,
                   current': seq<string>, nesting': int, atStart': bool, chunks': seq<string>)
    requires i < |lines|
    requires WalkMove(lines, chunkSize, i, current, nesting, atStart, chunks, current', nesting', atStart', chunks')
    ensures Walk(lines, chunkSize, i, current, nesting, atStart, chunks)
      == Walk(lines, chunkSize, i + 1, current', nesting', atStart', chunks')
  {
  }

  /** At the last line, the walk adds the open chunk, which is the last span. */
  lemma WalkSpansDone(lines: seq<string>, chunkSize: int, start: nat, done: seq<Span>,
                      current: seq<string>, nesting: int, atStart: bool, chunks: seq<string>)
    requires start <= |lines|
    requires current == lines[start..]
    requires var clean := CleanFlags(Kinds(lines));
      NextCut(clean, chunkSize, start, start) == |lines|
    requires done + Spans(CleanFlags(Kinds(lines)), chunkSize, start) == ChunkSpans(lines, chunkSize)
    requires Within(done, |lines|)
    requires chunks == Texts(lines, done)
    ensures Walk(lines, chunkSize, |lines|, current, nesting, atStart, chunks) == Texts(lines, ChunkSpans(lines, chunkSize))
  {
    var clean := CleanFlags(Kinds(lines));
    assert |clean| == |lines|;
    SpansDone(clean, chunkSize, start);
    if current != [] {
      assert Spans(clean, chunkSize, start) == [Span(start, |lines|)];
      assert current == lines[start..|lines|];
      TextsSnoc(lines, done, Span(start, |lines|));
    } else {
      assert done == done + [];
    }
  }

  /**
   * The state the walk has reached at line `i`: the open chunk holds the
   * lines since `start`, the counter and the flag are those of the lines
   * before `i`, no cut of the span specification falls between `start` and
   * `i`, and the chunks so far are the texts of the spans `done` before `start`.
   */
  ghost predicate Reached(lines: seq<string>, chunkSize: int, i: nat, start: nat, done: seq<Span>,
                          current: seq<string>, nesting: int, atStart: bool, chunks: seq<string>)
  {
    && start <= i <= |lines|
    && current == lines[start..i]
    && nesting == Nesting(Kinds(lines), i)
    && atStart == !SeenOpen(Kinds(lines), i)
    && (var clean := CleanFlags(Kinds(lines));
        NextCut(clean, chunkSize, start, start) == NextCut(clean, chunkSize, start, i))
    && done + Spans(CleanFlags(Kinds(lines)), chunkSize, start) == ChunkSpans(lines, chunkSize)
    && Within(done, |lines|)
    && chunks == Texts(lines, done)
  }

  /** One step of the walk from a reached state reaches the next line, and the walk's result is unchanged. */
  lemma WalkAdvance(lines: seq<string>, chunkSize: int, i: nat, start: nat, done: seq<Span>,
                    current: seq<string>, nesting: int, atStart: bool, chunks: seq<string>)
      returns (start': nat, done': seq<Span>, current': seq<string>, nesting': int, atStart': bool, chunks': seq<string>)
    requires i < |lines|
    requires Reached(lines, chunkSize, i, start, done, current, nesting, atStart, chunks)
    ensures Reached(lines, chunkSize, i + 1, start', done', current', nesting', atStart', chunks')
    ensures WalkMove(lines, chunkSize, i, current, nesting, atStart, chunks, current', nesting', atStart', chunks')
  {
    var split;
    nesting', atStart', split := WalkStep(lines, chunkSize, done, start, i, nesting, atStart);
    SliceExtend(lines, start, i);
    var cur := current + [lines[i]];
    if split {
      TextsSnoc(lines, done, Span(start, i + 1));
      start', done', current', chunks' := i + 1, done + [Span(start, i + 1)], [], chunks + [JoinNl(cur)];
    } else {
      start', done', current', chunks' := start, done, cur, chunks;
    }
  }

  /** From any state the walk can reach, it ends with the chunks of the span specification. */
  lemma {:induction false} WalkSpans(lines: seq<string>, chunkSize: int, i: nat, start: nat, done: seq<Span>,
                                     current: seq<string>, nesting: int, atStart: bool, chunks: seq<string>)
    requires Reached(lines, chunkSize, i, start, done, current, nesting, atStart, chunks)
    ensures Walk(lines, chunkSize, i, current, nesting, atStart, chunks) == Texts(lines, ChunkSpans(lines, chunkSize))
    decreases |lines| - i
  {
    if i == |lines| {
      WalkSpansDone(lines, chunkSize, start, done, current, nesting, atStart, chunks);
    } else {
      var start', done', current', nesting', atStart', chunks' :=
        WalkAdvance(lines, chunkSize, i, start, done, current, nesting, atStart, chunks);
      WalkUnfold(lines, chunkSize, i, current, nesting, atStart, chunks, current', nesting', atStart', chunks');
      WalkSpans(lines, chunkSize, i + 1, start', done', current', nesting', atStart', chunks');
    }
  }

  /**
   * The loop of `chunk_ruby_file`: walk the lines once, keeping the nesting
   * counter, the "still in the header" flag and the current chunk, and cut
   * whenever the chunk is long enough and the line ends at a clean boundary.
   */
  method ChunkLines(lines: seq<string>, chunkSize: int) returns (chunks: seq<string>)
    ensures chunks == Texts(lines, ChunkSpans(lines, chunkSize))
  {
    chunks := [];
    var current: seq<string> := [];
    var currentLength := 0;
    var nesting := 0;
    var atStart := true;
    for i := 0 to |lines|
      invariant currentLength == |current|
      invariant Walk(lines, chunkSize, i, current, nesting, atStart, chunks) == Walk(lines, chunkSize, 0, [], 0, true, [])
    {
      var line := lines[i];
      if OpensBlock(line) {
        nesting := nesting + 1;
        atStart := false;
      } else if ClosesBlock(line) {
        nesting := nesting - 1;
      }
      current := current + [line];
      currentLength := currentLength + 1;
      var shouldSplit :=
        && currentLength >= chunkSize
        && nesting <= 1
        && current != []
        && !atStart
        && (ClosesBlock(line) || (i + 1 < |lines| && OpensBlock(lines[i + 1])));
      if shouldSplit {
        chunks := chunks + [JoinNl(current)];
        current := [];
        currentLength := 0;
      }
    }
    if current != [] {
      chunks := chunks + [JoinNl(current)];
    }
    WalkIsChunks(lines, chunkSize);
  }

  /** The walk from the first line yields the chunks of the span specification. */
  lemma WalkIsChunks(lines: seq<string>, chunkSize: int)
    ensures Walk(lines, chunkSize, 0, [], 0, true, []) == Texts(lines, ChunkSpans(lines, chunkSize))
  {
    WalkSpans(lines, chunkSize, 0, 0, [], [], 0, true, []);
  }

  /**
   * `chunk_ruby_file`: split the text into lines, chunk them, and fall back to
   * the whole text when no chunk came out (an empty file). `chunkSize` is the
   * caller's `chunk_size`, `DefaultChunkSize` when the caller leaves it out.
   */
  method ChunkRubyFile(content: string, chunkSize: int) returns (chunks: seq<string>)
    ensures chunks == Chunks(content, chunkSize)
    ensures chunks != []
    ensures OnlyNewlineBreaks(content) ==> JoinNl(chunks) + TrailingNewline(content) == content
  {
    var lines := SplitLines(content);
    chunks := ChunkLines(lines, chunkSize);
    ChunksNonEmpty(content, chunkSize);
    if OnlyNewlineBreaks(content) {
      ChunksRejoin(content, chunkSize);
    }
    if chunks == [] {
      chunks := [content];
    }
  }
}
