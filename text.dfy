/** Option and Result, used for the source's `None` and raised exceptions. */
module Wrappers {

  datatype Option<+T> = None | Some(value: T) {
    function GetOr(default: T): T {
      match this
      case Some(v) => v
      case None => default
    }
  }

  datatype Result<+R, +E> = Ok(value: R) | Err(error: E)
}

/**
 * ASCII models of the Python string operations the core relies on:
 * `str.strip`, `str.lower`, `in`, `startswith`, `split('\n')`, `'\n'.join`,
 * and the regular-expression classes `\s`, `\d` and `\b`.
 */
module Text {
  import opened Wrappers

  /** Python `str.isspace` (and `\s` in a `str` pattern) on ASCII characters. */
  predicate IsSpace(c: char) {
    c == ' ' || c == '\t' || c == '\n' || c == '\r' || c == '\U{0B}' || c == '\U{0C}'
    || c == '\U{1C}' || c == '\U{1D}' || c == '\U{1E}' || c == '\U{1F}'
  }

  predicate IsDigit(c: char) {
    '0' <= c <= '9'
  }

  /** A character of the regular-expression class `\w` (ASCII part). */
  predicate IsWordChar(c: char) {
    'a' <= c <= 'z' || 'A' <= c <= 'Z' || IsDigit(c) || c == '_'
  }

  predicate IsBlank(s: string) {
    forall i :: 0 <= i < |s| ==> IsSpace(s[i])
  }

  /** `str.lstrip()`: drop the leading whitespace. */
  function LStrip(s: string): (r: string)
    ensures |r| <= |s| && r == s[|s| - |r|..]
    ensures r == [] || !IsSpace(r[0])
    ensures forall j :: 0 <= j < |s| - |r| ==> IsSpace(s[j])
  {
    s[SpaceRunEnd(s, 0)..]
  }

  /** `str.rstrip()`: drop the trailing whitespace. */
  function RStrip(s: string): (r: string)
    ensures |r| <= |s| && r == s[..|r|]
    ensures r == [] || !IsSpace(r[|r| - 1])
    ensures forall j :: |r| <= j < |s| ==> IsSpace(s[j])
  {
    s[..SpaceRunStart(s, |s|)]
  }

  /** `str.strip()`. */
  function Strip(s: string): string {
    RStrip(LStrip(s))
  }

  lemma {:induction false} StripEmptyIffBlank(s: string)
    ensures Strip(s) == [] <==> IsBlank(s)
  {
    var l := LStrip(s);
    if l != [] {
      assert IsBlank(l[|RStrip(l)|..]);
      assert !IsBlank(s) by { assert s[|s| - |l|] == l[0]; }
    } else {
      assert s[..|s|] == s;
    }
  }

  function LowerChar(c: char): char {
    if 'A' <= c <= 'Z' then (c as int - 'A' as int + 'a' as int) as char else c
  }

  /** `str.lower()` on ASCII text. */
  function Lower(s: string): (r: string)
    ensures |r| == |s|
    ensures forall i :: 0 <= i < |s| ==> r[i] == LowerChar(s[i])
  {
    if s == [] then [] else [LowerChar(s[0])] + Lower(s[1..])
  }

  /** `t` occurs in `s` at index `k`. */
  predicate OccursAt(s: string, t: string, k: nat) {
    k + |t| <= |s| && s[k..k + |t|] == t
  }

  /** The first index at or after `i` where `t` occurs in `s` (`str.find`). */
  function IndexOf(s: string, t: string, i: nat): (r: Option<nat>)
    requires i <= |s|
    ensures r.Some? ==> i <= r.value && OccursAt(s, t, r.value)
    ensures r.Some? ==> forall k :: i <= k < r.value ==> !OccursAt(s, t, k)
    ensures r.None? ==> forall k :: i <= k ==> !OccursAt(s, t, k)
    decreases |s| - i
  {
    if i + |t| > |s| then None
    else if OccursAt(s, t, i) then Some(i)
    else IndexOf(s, t, i + 1)
  }

  /** `t in s` for strings: `t` occurs at some position of `s`. */
  predicate Contains(s: string, t: string) {
    IndexOf(s, t, 0).Some?
  }

  /** Index just past the run of whitespace that starts at `i`. */
  function SpaceRunEnd(s: string, i: nat): (r: nat)
    requires i <= |s|
    ensures i <= r <= |s|
    ensures forall j :: i <= j < r ==> IsSpace(s[j])
    ensures r == |s| || !IsSpace(s[r])
    decreases |s| - i
  {
    if i == |s| || !IsSpace(s[i]) then i else SpaceRunEnd(s, i + 1)
  }

  /** Index of the start of the run of whitespace that ends just before `i`. */
  function SpaceRunStart(s: string, i: nat): (r: nat)
    requires i <= |s|
    ensures r <= i
    ensures forall j :: r <= j < i ==> IsSpace(s[j])
    ensures r == 0 || !IsSpace(s[r - 1])
  {
    if i == 0 || !IsSpace(s[i - 1]) then i else SpaceRunStart(s, i - 1)
  }

  /** Index just past the run of digits that starts at `i`. */
  function DigitRunEnd(s: string, i: nat): (r: nat)
    requires i <= |s|
    ensures i <= r <= |s|
    ensures forall j :: i <= j < r ==> IsDigit(s[j])
    ensures r == |s| || !IsDigit(s[r])
    decreases |s| - i
  {
    if i == |s| || !IsDigit(s[i]) then i else DigitRunEnd(s, i + 1)
  }

  /** Python `int()` of a string of ASCII digits. */
  function DigitsValue(s: string): (n: nat)
    requires forall i :: 0 <= i < |s| ==> IsDigit(s[i])
  {
    if s == [] then 0
    else
      var d := s[|s| - 1];
      assert IsDigit(d);
      10 * DigitsValue(s[..|s| - 1]) + (d as int - '0' as int)
  }

  /**
   * `s` starts with the word `kw` followed by a word boundary (`kw\b` matched
   * at the start of `s`, for a `kw` that ends in a word character).
   */
  predicate StartsWithWord(s: string, kw: string) {
    if kw == [] then s == [] || !IsWordChar(s[0])
    else s != [] && s[0] == kw[0] && StartsWithWord(s[1..], kw[1..])
  }

  /** The run of word characters `\w*` at the start of `s`. */
  function WordPrefix(s: string): string {
    if s != [] && IsWordChar(s[0]) then [s[0]] + WordPrefix(s[1..]) else []
  }

  /** The first word of a line, after its indentation (`^\s*` then `\w*`). */
  function FirstWord(line: string): string {
    if line != [] && IsSpace(line[0]) then FirstWord(line[1..]) else WordPrefix(line)
  }

  /** The leading whitespace of `s` is exactly its first `n` characters. */
  lemma LStripAt(s: string, n: nat)
    requires n <= |s|
    requires forall j :: 0 <= j < n ==> IsSpace(s[j])
    requires n == |s| || !IsSpace(s[n])
    ensures LStrip(s) == s[n..]
  {
  }

  /** Skipping the indentation one character at a time is `lstrip`. */
  lemma {:induction false} FirstWordLStrip(line: string)
    ensures FirstWord(line) == WordPrefix(LStrip(line))
  {
    if line != [] && IsSpace(line[0]) {
      FirstWordLStrip(line[1..]);
      var r := LStrip(line[1..]);
      var n := |line| - |r|;
      assert forall j :: 1 <= j < n ==> line[j] == line[1..][j - 1];
      assert n == |line| || line[n] == r[0];
      LStripAt(line, n);
    } else {
      LStripAt(line, 0);
    }
  }

  predicate IsWord(kw: string) {
    kw != [] && forall i :: 0 <= i < |kw| ==> IsWordChar(kw[i])
  }

  /** For a word `kw`, `s` matches `kw\b` at its start exactly when its leading word is `kw`. */
  lemma {:induction false} WordPrefixIsWord(s: string, kw: string)
    requires forall i :: 0 <= i < |kw| ==> IsWordChar(kw[i])
    ensures WordPrefix(s) == kw <==> StartsWithWord(s, kw)
  {
    if kw != [] && s != [] && s[0] == kw[0] {
      WordPrefixIsWord(s[1..], kw[1..]);
      if WordPrefix(s[1..]) == kw[1..] {
        assert WordPrefix(s) == [s[0]] + kw[1..] == kw;
      }
      if WordPrefix(s) == kw {
        assert WordPrefix(s[1..]) == WordPrefix(s)[1..];
      }
    }
  }

  /** `^\s*kw\b` for a word `kw`: the line's first word is `kw`. */
  lemma KeywordAtFirstWord(line: string, kw: string)
    requires IsWord(kw)
    ensures FirstWord(line) == kw <==> StartsWithWord(LStrip(line), kw)
  {
    FirstWordLStrip(line);
    WordPrefixIsWord(LStrip(line), kw);
  }

  function CountChar(s: string, c: char): (n: nat)
    ensures n <= |s|
  {
    if s == [] then 0 else CountChar(s[..|s| - 1], c) + (if s[|s| - 1] == c then 1 else 0)
  }

  /** Python `s.split('\n')`: the pieces between newlines, never empty as a list. */
  function SplitNl(s: string): (r: seq<string>)
    ensures |r| == CountChar(s, '\n') + 1
    ensures forall k :: 0 <= k < |r| ==> '\n' !in r[k]
  {
    if s == [] then [""]
    else
      var init := SplitNl(s[..|s| - 1]);
      var c := s[|s| - 1];
      if c == '\n' then init + [""]
      else init[..|init| - 1] + [init[|init| - 1] + [c]]
  }

  /** Python `'\n'.join(lines)`. */
  function JoinNl(lines: seq<string>): string {
    if lines == [] then ""
    else if |lines| == 1 then lines[0]
    else JoinNl(lines[..|lines| - 1]) + "\n" + lines[|lines| - 1]
  }

  lemma {:induction false} JoinSplitNl(s: string)
    ensures JoinNl(SplitNl(s)) == s
  {
    if s != [] {
      var init := SplitNl(s[..|s| - 1]);
      JoinSplitNl(s[..|s| - 1]);
      var c := s[|s| - 1];
      assert s == s[..|s| - 1] + [c];
      if c == '\n' {
        assert (init + [""])[..|init|] == init;
      } else if |init| == 1 {
        assert init == [s[..|s| - 1]];
      } else {
        var r := init[..|init| - 1] + [init[|init| - 1] + [c]];
        assert r[..|r| - 1] == init[..|init| - 1];
        assert JoinNl(init) == JoinNl(init[..|init| - 1]) + "\n" + init[|init| - 1];
      }
    }
  }

  /** Joining two non-empty line lists puts exactly one newline between them. */
  lemma {:induction false} JoinNlAppend(a: seq<string>, b: seq<string>)
    requires a != [] && b != []
    ensures JoinNl(a + b) == JoinNl(a) + "\n" + JoinNl(b)
    decreases |b|
  {
    if |b| == 1 {
      assert (a + b)[..|a + b| - 1] == a;
    } else {
      var b' := b[..|b| - 1];
      JoinNlAppend(a, b');
      assert (a + b)[..|a + b| - 1] == a + b';
    }
  }

  /** The elements of `s` that satisfy `keep`, in order: a Python list-comprehension filter. */
  function Filter<T>(s: seq<T>, keep: T -> bool): (r: seq<T>)
    ensures |r| <= |s|
    ensures forall x :: x in r ==> x in s && keep(x)
    ensures forall x :: x in s && keep(x) ==> x in r
  {
    if s == [] then []
    else
      var init := Filter(s[..|s| - 1], keep);
      var last := s[|s| - 1];
      assert forall x :: x in s ==> x in s[..|s| - 1] || x == last;
      if keep(last) then init + [last] else init
  }

  /** Filtering distributes over concatenation: the order of kept elements is the input order. */
  lemma {:induction false} FilterAppend<T>(a: seq<T>, b: seq<T>, keep: T -> bool)
    ensures Filter(a + b, keep) == Filter(a, keep) + Filter(b, keep)
    decreases |b|
  {
    if b != [] {
      var b' := b[..|b| - 1];
      FilterAppend(a, b', keep);
      assert (a + b)[..|a + b| - 1] == a + b';
      assert (a + b)[|a + b| - 1] == b[|b| - 1];
    } else {
      assert a + b == a;
    }
  }

  /** A filter whose test every element passes returns its input unchanged. */
  lemma {:induction false} FilterAll<T>(s: seq<T>, keep: T -> bool)
    requires forall x :: x in s ==> keep(x)
    ensures Filter(s, keep) == s
  {
    if s != [] {
      FilterAll(s[..|s| - 1], keep);
    }
  }
}
