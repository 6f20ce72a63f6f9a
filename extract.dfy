/**
 * Getting Ruby code out of a provider's reply (`extract_ruby_code` in
 * generate_docs.py) and keeping the comment lines of documented code
 * (the YARD filter of `generate_yard_docs`).
 */
module Extract {
  import opened Wrappers
  import opened Text

  const Fence: string := "```"
  const RubyFence: string := "```ruby"

  /** No closing fence occurs in `b`. */
  predicate NoFence(b: string) {
    forall j :: 0 <= j <= |b| ==> !OccursAt(b, Fence, j)
  }

  /** An occurrence in a slice is an occurrence in the whole string. */
  lemma SliceOccurs(s: string, t: string, lo: nat, hi: nat, j: nat)
    requires lo <= hi <= |s|
    requires OccursAt(s[lo..hi], t, j)
    ensures lo + j < hi || t == []
    ensures OccursAt(s, t, lo + j)
  {
    var inner := s[lo..hi][j..j + |t|];
    var outer := s[lo + j..lo + j + |t|];
    assert forall m :: 0 <= m < |t| ==> inner[m] == outer[m];
    assert inner == outer;
  }

  lemma NoFenceSlice(s: string, lo: nat, hi: nat)
    requires lo <= hi <= |s|
    requires forall k :: lo <= k < hi ==> !OccursAt(s, Fence, k)
    ensures NoFence(s[lo..hi])
  {
    forall j | 0 <= j <= hi - lo
      ensures !OccursAt(s[lo..hi], Fence, j)
    {
      if OccursAt(s[lo..hi], Fence, j) {
        SliceOccurs(s, Fence, lo, hi, j);
      }
    }
  }

  /** A complete pair from `i` on: "```ruby" at `q` and a later "```" at `c`. */
  predicate PairFrom(s: string, i: nat, q: nat, c: nat) {
    i <= q && q + |RubyFence| <= c && OccursAt(s, RubyFence, q) && OccursAt(s, Fence, c)
  }

  /**
   * One match of the pattern: "```ruby" at `q`, the whitespace after it up to
   * `b`, and the captured body `s[b..c]` up to the first "```" at or after `b`.
   */
  predicate BlockAt(s: string, q: nat, b: nat, c: nat) {
    && q + |RubyFence| <= b <= c
    && OccursAt(s, RubyFence, q)
    && OccursAt(s, Fence, c)
    && (forall j :: q + |RubyFence| <= j < b ==> IsSpace(s[j]))
    && !IsSpace(s[b])
    && (forall j :: b <= j < c ==> !OccursAt(s, Fence, j))
  }

  /**
   * One `re.search(r'```ruby\s*(.*?)```', s[i..], re.DOTALL)`: the first
   * "```ruby" at or after `i`, the whitespace after it, and the first "```"
   * after that; `None` when either fence is missing.
   */
  function NextBlock(s: string, i: nat): (r: Option<(nat, nat, nat)>)
    requires i <= |s|
    ensures r.Some? ==> i <= r.value.0 && BlockAt(s, r.value.0, r.value.1, r.value.2)
  {
    match IndexOf(s, RubyFence, i)
    case None => None
    case Some(q) =>
      var b := SpaceRunEnd(s, q + |RubyFence|);
      match IndexOf(s, Fence, b)
      case None => None
      case Some(c) =>
        assert s[c] == s[c..c + |Fence|][0];
        Some((q, b, c))
  }

  /**
   * The matches of `re.findall(r'```ruby\s*(.*?)```', s[i..], re.DOTALL)`, in
   * order: each search resumes after the previous closing fence. An opening
   * fence with no closing one ends the scan.
   */
  function RubyMatches(s: string, i: nat): (ms: seq<(nat, nat, nat)>)
    requires i <= |s|
    ensures forall k :: 0 <= k < |ms| ==> i <= ms[k].0 && BlockAt(s, ms[k].0, ms[k].1, ms[k].2)
    decreases |s| - i
  {
    match NextBlock(s, i)
    case None => []
    case Some(m) => [m] + RubyMatches(s, m.2 + |Fence|)
  }

  /** What `re.findall` returns: the captured body of each match. */
  function RubyBlocks(s: string, i: nat): (blocks: seq<string>)
    requires i <= |s|
  {
    var ms := RubyMatches(s, i);
    seq(|ms|, k requires 0 <= k < |ms| => s[ms[k].1..ms[k].2])
  }

  /**
   * `max(blocks, key=len)`: the index of a longest block, the first one when
   * several are equally long.
   */
  function LongestIndex(blocks: seq<string>): (k: nat)
    requires blocks != []
    ensures k < |blocks|
    ensures forall j :: 0 <= j < |blocks| ==> |blocks[j]| <= |blocks[k]|
    ensures forall j :: 0 <= j < k ==> |blocks[j]| < |blocks[k]|
  {
    if |blocks| == 1 then 0
    else
      var k := LongestIndex(blocks[..|blocks| - 1]);
      if |blocks[|blocks| - 1]| > |blocks[k]| then |blocks| - 1 else k
  }

  /** A line of a reply without code fences that is taken for prose and dropped. */
  predicate IsProse(line: string) {
    var t := Strip(line);
    "Here" <= t || "This" <= t || "I" <= t || "The" <= t || "---" <= t || "###" <= t
  }

  predicate IsCodeLine(line: string) {
    !IsProse(line)
  }

  /**
   * `extract_ruby_code`: the stripped longest ```` ```ruby ```` block, or, when
   * there is none, the reply's lines without the prose lines, joined and stripped.
   */
  function ExtractRubyCode(response: string): (code: string)
    ensures code == [] || (!IsSpace(code[0]) && !IsSpace(code[|code| - 1]))
  {
    var blocks := RubyBlocks(response, 0);
    if blocks != [] then
      var body := blocks[LongestIndex(blocks)];
      StripTrims(body);
      Strip(body)
    else
      var body := JoinNl(Filter(SplitNl(response), IsCodeLine));
      StripTrims(body);
      Strip(body)
  }

  /** Wherever a complete pair occurs, the scan finds a block. */
  lemma RubyBlocksFound(s: string, i: nat, q: nat, c: nat)
    requires i <= |s|
    requires PairFrom(s, i, q, c)
    ensures RubyBlocks(s, i) != []
  {
    var first := IndexOf(s, RubyFence, i).value;
    var b := SpaceRunEnd(s, first + |RubyFence|);
    assert s[c] == s[c..c + |Fence|][0];
    assert b <= c;
    assert NextBlock(s, i).Some?;
    assert RubyMatches(s, i) != [];
  }

  /** Every block the scan returns is the body of a match of the pattern. */
  lemma RubyBlockShape(s: string, i: nat, k: nat)
    requires i <= |s|
    requires k < |RubyBlocks(s, i)|
    ensures exists q: nat, b: nat, c: nat :: i <= q && BlockAt(s, q, b, c) && RubyBlocks(s, i)[k] == s[b..c]
  {
    var m := RubyMatches(s, i)[k];
    assert i <= m.0 && BlockAt(s, m.0, m.1, m.2) && RubyBlocks(s, i)[k] == s[m.1..m.2];
  }

  /** No block holds a closing fence: the lazy body stops at the first one. */
  lemma RubyBlocksNoFence(s: string, i: nat, k: nat)
    requires i <= |s|
    requires k < |RubyBlocks(s, i)|
    ensures NoFence(RubyBlocks(s, i)[k])
  {
    var m := RubyMatches(s, i)[k];
    NoFenceSlice(s, m.1, m.2);
  }

  /** The scan finds a block exactly when a complete pair occurs. */
  lemma RubyBlocksIffPair(s: string, i: nat)
    requires i <= |s|
    ensures RubyBlocks(s, i) != [] <==> exists q: nat, c: nat :: PairFrom(s, i, q, c)
  {
    if exists q: nat, c: nat :: PairFrom(s, i, q, c) {
      var q: nat, c: nat :| PairFrom(s, i, q, c);
      RubyBlocksFound(s, i, q, c);
    }
    if RubyBlocks(s, i) != [] {
      RubyBlockShape(s, i, 0);
      var q: nat, b: nat, c: nat :| i <= q && BlockAt(s, q, b, c) && RubyBlocks(s, i)[0] == s[b..c];
      assert PairFrom(s, i, q, c);
    }
  }

  /** `k` is where `max(key=len)` stops: a longest block, and the first of that length. */
  predicate LongestAt(blocks: seq<string>, k: nat) {
    && k < |blocks|
    && (forall j :: 0 <= j < |blocks| ==> |blocks[j]| <= |blocks[k]|)
    && (forall j :: 0 <= j < k ==> |blocks[j]| < |blocks[k]|)
  }

  /**
   * A reply holding a complete pair gives the stripped longest block, the first
   * of equally long ones.
   */
  lemma ExtractLongest(response: string, q: nat, c: nat)
    requires PairFrom(response, 0, q, c)
    ensures var blocks := RubyBlocks(response, 0);
      && (exists k: nat :: LongestAt(blocks, k))
      && (forall k: nat :: LongestAt(blocks, k) ==> ExtractRubyCode(response) == Strip(blocks[k]))
  {
    RubyBlocksFound(response, 0, q, c);
    var blocks := RubyBlocks(response, 0);
    var m := LongestIndex(blocks);
    assert LongestAt(blocks, m);
    forall k: nat | LongestAt(blocks, k)
      ensures ExtractRubyCode(response) == Strip(blocks[k])
    {
      assert !(k < m) && !(m < k);
    }
  }

  /**
   * A reply without a complete pair falls back to its lines without the prose
   * lines, in order, joined and stripped.
   */
  lemma ExtractFallback(response: string)
    requires forall q: nat, c: nat :: !PairFrom(response, 0, q, c)
    ensures ExtractRubyCode(response) == Strip(JoinNl(Filter(SplitNl(response), IsCodeLine)))
  {
    RubyBlocksIffPair(response, 0);
  }

  /** A reply without a ```` ```ruby ```` fence has no block. */
  lemma ProseFallback(response: string)
    requires !Contains(response, RubyFence)
    ensures RubyBlocks(response, 0) == []
  {
  }

  /** `str.strip()` leaves no whitespace at either end. */
  lemma StripTrims(s: string)
    ensures var r := Strip(s); r == [] || (!IsSpace(r[0]) && !IsSpace(r[|r| - 1]))
  {
    var l := LStrip(s);
    var r := RStrip(l);
    if r != [] {
      assert r[0] == l[0];
    }
  }

  /** A trailing whitespace character makes no difference to `rstrip`. */
  lemma RStripSpace(x: string, c: char)
    requires IsSpace(c)
    ensures RStrip(x + [c]) == RStrip(x)
  {
    assert (x + [c])[..|x + [c]| - 1] == x;
  }

  /** Only the text between the first `n` characters and the end matters to `strip`, when those are blank. */
  lemma StripBlankPrefix(s: string, n: nat)
    requires n <= |s|
    requires forall j :: 0 <= j < n ==> IsSpace(s[j])
    ensures Strip(s) == Strip(s[n..])
  {
    var m := SpaceRunEnd(s, n);
    var t := s[n..];
    forall j | 0 <= j < m - n
      ensures IsSpace(t[j])
    {
      assert t[j] == s[n + j];
    }
    assert m - n == |t| || t[m - n] == s[m];
    LStripAt(s, m);
    LStripAt(t, m - n);
    assert t[m - n..] == s[m..];
    assert LStrip(s) == LStrip(t);
  }

  /** The first occurrence of `t` at or after `i` is at `j`. */
  lemma FirstOccurrence(s: string, t: string, i: nat, j: nat)
    requires i <= j <= |s|
    requires OccursAt(s, t, j)
    requires forall k :: i <= k < j ==> !OccursAt(s, t, k)
    ensures IndexOf(s, t, i) == Some(j)
  {
  }

  /** A reply made of one Ruby block around `code`. */
  function Fenced(code: string): (s: string)
    ensures |s| == |code| + 12
  {
    RubyFence + "\n" + code + "\n" + Fence
  }

  lemma FencedOpens(code: string)
    ensures IndexOf(Fenced(code), RubyFence, 0) == Some(0)
    ensures Fenced(code)[7] == '\n'
  {
    var s := Fenced(code);
    assert s[0..7] == RubyFence;
    FirstOccurrence(s, RubyFence, 0, 0);
  }

  lemma FencedCloses(code: string, b: nat)
    requires NoFence(code)
    requires 8 <= b <= |code| + 9
    ensures IndexOf(Fenced(code), Fence, b) == Some(|code| + 9)
  {
    var s := Fenced(code);
    var e := |code| + 9;
    assert s[e..e + 3] == Fence;
    forall k | b <= k < e
      ensures !OccursAt(s, Fence, k)
    {
      if k + 3 <= e - 1 {
        assert s[k..k + 3] == code[k - 8..k - 5];
        assert !OccursAt(code, Fence, k - 8);
      } else {
        assert s[e - 1] == '\n';
        assert s[k..k + 3][e - 1 - k] == '\n';
      }
    }
    FirstOccurrence(s, Fence, b, e);
  }

  /** Once `s` holds a non-blank character, `lstrip` keeps what is appended after it. */
  lemma LStripAppend(s: string, c: char)
    requires LStrip(s) != []
    ensures LStrip(s + [c]) == LStrip(s) + [c]
  {
    var n := |s| - |LStrip(s)|;
    var x := s + [c];
    assert forall j :: 0 <= j < n ==> x[j] == s[j];
    assert x[n] == LStrip(s)[0];
    LStripAt(x, n);
    assert x[n..] == s[n..] + [c];
  }

  /** A final newline makes no difference to `strip`. */
  lemma StripNewline(code: string)
    ensures Strip(code + "\n") == Strip(code)
  {
    var x := code + "\n";
    if LStrip(code) == [] {
      StripEmptyIffBlank(code);
      assert IsBlank(x);
      StripEmptyIffBlank(x);
    } else {
      LStripAppend(code, '\n');
      RStripSpace(LStrip(code), '\n');
    }
  }

  /** Between the opening fence's newline and the closing fence lies the code and one newline. */
  lemma FencedMiddle(code: string)
    ensures Fenced(code)[8..|code| + 9] == code + "\n"
  {
  }

  /** Skipping blank characters at the start of a slice does not change what it `lstrip`s to. */
  lemma LStripSkipBlank(s: string, lo: nat, b: nat, hi: nat)
    requires lo <= b <= hi <= |s|
    requires forall j :: lo <= j < b ==> IsSpace(s[j])
    ensures LStrip(s[b..hi]) == LStrip(s[lo..hi])
  {
    var x := s[lo..hi];
    var y := s[b..hi];
    var m := SpaceRunEnd(y, 0);
    var n := b - lo + m;
    forall j | 0 <= j < n
      ensures IsSpace(x[j])
    {
      if j < b - lo {
        assert x[j] == s[lo + j];
      } else {
        assert x[j] == y[j - (b - lo)];
      }
    }
    assert n == |x| || x[n] == y[m];
    LStripAt(x, n);
    LStripAt(y, m);
    assert x[n..] == y[m..];
  }

  /** The body found in a one-block reply strips to the stripped code. */
  lemma FencedBody(code: string, b: nat)
    requires b == SpaceRunEnd(Fenced(code), 8)
    requires b <= |code| + 9
    ensures Strip(Fenced(code)[b..|code| + 9]) == Strip(code)
  {
    LStripSkipBlank(Fenced(code), 8, b, |code| + 9);
    FencedMiddle(code);
    StripNewline(code);
  }

  /**
   * A reply that is one fenced Ruby block gives back the block's code,
   * stripped, as long as the code itself holds no closing fence.
   */
  lemma ExtractFenced(code: string)
    requires NoFence(code)
    ensures ExtractRubyCode(Fenced(code)) == Strip(code)
  {
    var s := Fenced(code);
    FencedOpens(code);
    var b := SpaceRunEnd(s, 7);
    assert b == SpaceRunEnd(s, 8);
    assert s[|code| + 9] == '`';
    FencedCloses(code, b);
    var e := |code| + 9;
    assert RubyMatches(s, e + 3) == [];
    assert RubyMatches(s, 0) == [(0, b, e)];
    assert RubyBlocks(s, 0) == [s[b..e]];
    assert LongestIndex([s[b..e]]) == 0;
    FencedBody(code, b);
  }

  /** A line that the YARD filter keeps: after stripping, it starts with `#`. */
  predicate IsCommentLine(line: string) {
    var t := Strip(line);
    t != [] && t[0] == '#'
  }

  /** The comment lines of `documentedCode`, in order, as `generate_yard_docs` collects them. */
  method YardComments(documentedCode: string) returns (comments: seq<string>)
    ensures comments == Filter(SplitNl(documentedCode), IsCommentLine)
  {
    var lines := SplitNl(documentedCode);
    comments := [];
    for i := 0 to |lines|
      invariant comments == Filter(lines[..i], IsCommentLine)
    {
      var line := lines[i];
      assert lines[..i + 1][..i] == lines[..i];
      if IsCommentLine(line) {
        comments := comments + [line];
      }
    }
    assert lines[..|lines|] == lines;
  }

  /** The `.yard` file text written for a documented file, or nothing when it has no comment line. */
  function YardFile(comments: seq<string>): (r: Option<string>)
    ensures r.None? <==> comments == []
    ensures r.Some? ==> r.value == JoinNl(comments)
  {
    if comments == [] then None else Some(JoinNl(comments))
  }

  /** Comment lines are kept whole and nothing else is kept: the filter is idempotent. */
  lemma YardCommentsIdempotent(lines: seq<string>)
    ensures Filter(Filter(lines, IsCommentLine), IsCommentLine) == Filter(lines, IsCommentLine)
  {
    FilterAll(Filter(lines, IsCommentLine), IsCommentLine);
  }
}
