/**
 * The parser of `yard stats` output (`YARDValidator._parse_yard_output` in
 * src/validation.py) and the result records it builds.
 */
module Validation {
  import opened Wrappers
  import opened Text

  /** The `warning_type` of an entry. */
  datatype IssueType = Warning | Error | Undocumented

  /** `ValidationWarning`: where YARD complained, and what it said. */
  datatype ValidationWarning = ValidationWarning(file: string, line: Option<nat>, message: string, warningType: IssueType)

  /** `ValidationResult`, without the floating-point `documented_percent`. */
  datatype ValidationResult = ValidationResult(
    valid: bool,
    warnings: seq<ValidationWarning>,
    errors: seq<ValidationWarning>,
    undocumentedCount: nat,
    rawOutput: string)
  {
    predicate HasErrors() {
      errors != []
    }

    predicate HasWarnings() {
      warnings != []
    }

    /** The number of issues: no issue at all exactly when there is neither an error nor a warning. */
    function TotalIssues(): (n: nat)
      ensures n == 0 <==> !HasErrors() && !HasWarnings()
      ensures HasErrors() ==> n >= |errors| >= 1
      ensures HasWarnings() ==> n >= |warnings| >= 1
    {
      |warnings| + |errors|
    }
  }

  /** A result built from the verdict alone: no entries and nothing undocumented. */
  function Verdict(valid: bool): (r: ValidationResult)
    ensures r.valid == valid
    ensures !r.HasErrors() && !r.HasWarnings() && r.TotalIssues() == 0
    ensures r.undocumentedCount == 0
  {
    ValidationResult(valid, [], [], 0, "")
  }

  /** The three groups of `(.+?):(\d+):\s*(.+)`: file, line number and message. */
  datatype Location = Location(file: string, lineNo: nat, message: string)

  /**
   * The lazy file group of `(.+?):(\d+):\s*(.+)` can end before index `p`:
   * a colon at `p`, a run of digits, a colon, and at least one character after it.
   */
  predicate SplitsAt(line: string, p: nat) {
    1 <= p < |line| && line[p] == ':' &&
    var e := DigitRunEnd(line, p + 1);
    e > p + 1 && e + 1 < |line| && line[e] == ':'
  }

  /** The groups of the match whose file group ends before `p`. */
  function LocationAt(line: string, p: nat): Location
    requires SplitsAt(line, p)
  {
    var e := DigitRunEnd(line, p + 1);
    var w := SpaceRunEnd(line, e + 1);
    var m := if w < |line| then w else |line| - 1;
    Location(line[..p], DigitsValue(line[p + 1..e]), line[m..])
  }

  /** The match with the shortest file group ending at `p` or later. */
  function LocatedFrom(line: string, p: nat): Option<Location>
    requires 1 <= p
    decreases |line| - p
  {
    if p >= |line| then None
    else if SplitsAt(line, p) then Some(LocationAt(line, p))
    else LocatedFrom(line, p + 1)
  }

  /** `re.match(r'(.+?):(\d+):\s*(.+)', line)` on a line without newlines. */
  function Located(line: string): Option<Location> {
    LocatedFrom(line, 1)
  }

  /** The match uses the first place where the file group can end. */
  lemma {:induction false} LocatedFromFirst(line: string, p: nat, k: nat)
    requires 1 <= p <= k
    requires SplitsAt(line, k)
    requires forall j :: p <= j < k ==> !SplitsAt(line, j)
    ensures LocatedFrom(line, p) == Some(LocationAt(line, k))
    decreases k - p
  {
    if p < k {
      LocatedFromFirst(line, p + 1, k);
    }
  }

  /** No place for the file group to end: no match. */
  lemma {:induction false} LocatedFromNone(line: string, p: nat)
    requires 1 <= p
    requires forall j :: p <= j < |line| ==> !SplitsAt(line, j)
    ensures LocatedFrom(line, p) == None
    decreases |line| - p
  {
    if p < |line| {
      LocatedFromNone(line, p + 1);
    }
  }

  predicate AllDigits(s: string) {
    forall i :: 0 <= i < |s| ==> IsDigit(s[i])
  }

  /**
   * A line in YARD's `file:line: message` form gives back its three parts,
   * when the file name holds no colon and the message starts with a
   * non-blank character.
   */
  lemma LocatedFormat(file: string, digits: string, msg: string)
    requires file != [] && ':' !in file
    requires digits != [] && AllDigits(digits)
    requires msg != [] && !IsSpace(msg[0])
    ensures Located(file + ":" + digits + ": " + msg) == Some(Location(file, DigitsValue(digits), msg))
  {
    var line := file + ":" + digits + ": " + msg;
    assert line == file + (":" + digits + ": " + msg);
    FormatSplits(file, digits, msg);
    NoSplitInFile(file, ":" + digits + ": " + msg);
    LocatedFromFirst(line, 1, |file|);
  }

  /** The lazy file group can end right after `file`, and the groups there are the three parts. */
  lemma FormatSplits(file: string, digits: string, msg: string)
    requires digits != [] && AllDigits(digits)
    requires msg != [] && !IsSpace(msg[0])
    ensures var line := file + ":" + digits + ": " + msg;
      SplitsAt(line, |file|) || file == []
    ensures var line := file + ":" + digits + ": " + msg;
      file != [] ==> LocationAt(line, |file|) == Location(file, DigitsValue(digits), msg)
  {
    var line := file + ":" + digits + ": " + msg;
    var p := |file|;
    var e := p + 1 + |digits|;
    assert line[p] == ':';
    assert forall j :: p + 1 <= j < e ==> line[j] == digits[j - p - 1];
    assert line[e] == ':' && line[e + 1] == ' ' && line[e + 2] == msg[0];
    assert DigitRunEnd(line, p + 1) == e;
    assert SpaceRunEnd(line, e + 1) == e + 2;
    assert line[..p] == file;
    assert line[p + 1..e] == digits;
    assert line[e + 2..] == msg;
  }

  /** A file name without a colon offers the lazy file group no earlier place to end. */
  lemma NoSplitInFile(file: string, rest: string)
    requires ':' !in file
    ensures forall j :: 1 <= j < |file| ==> !SplitsAt(file + rest, j)
  {
    forall j | 1 <= j < |file|
      ensures !SplitsAt(file + rest, j)
    {
      assert (file + rest)[j] == file[j];
    }
  }

  /** The text YARD uses for undocumented objects. */
  const UndocumentedWord: string := "undocumented"

  /** `(\d+)\s+undocumented` matches at index `i` of `s`. */
  predicate UndocAt(s: string, i: nat) {
    i < |s| && IsDigit(s[i]) &&
    var d := DigitRunEnd(s, i);
    var w := SpaceRunEnd(s, d);
    w > d && UndocumentedWord <= s[w..]
  }

  /** The leftmost match of `(\d+)\s+undocumented` at or after `i`, and its number. */
  function UndocFrom(s: string, i: nat): (r: Option<nat>)
    decreases |s| - i
  {
    if i >= |s| then None
    else if UndocAt(s, i) then
      var d := DigitRunEnd(s, i);
      assert AllDigits(s[i..d]) by {
        assert forall j :: 0 <= j < d - i ==> s[i..d][j] == s[i + j];
      }
      Some(DigitsValue(s[i..d]))
    else UndocFrom(s, i + 1)
  }

  /**
   * The undocumented count a (stripped) line reports, if any: the line
   * mentions `undocumented` in any case and `(\d+)\s+undocumented` matches
   * its lower-cased text.
   */
  function UndocumentedIn(line: string): Option<nat> {
    var lower := Lower(line);
    if Contains(lower, UndocumentedWord) then UndocFrom(lower, 0) else None
  }

  /** The text YARD uses for the documented percentage. */
  const DocumentedWord: string := "documented"

  predicate IsDigitOrDot(c: char) {
    IsDigit(c) || c == '.'
  }

  /** The end of the run of digits and dots that starts at `i`. */
  function DigitDotRunEnd(s: string, i: nat): (r: nat)
    requires i <= |s|
    ensures i <= r <= |s|
    ensures forall j :: i <= j < r ==> IsDigitOrDot(s[j])
    ensures r == |s| || !IsDigitOrDot(s[r])
    decreases |s| - i
  {
    if i == |s| || !IsDigitOrDot(s[i]) then i else DigitDotRunEnd(s, i + 1)
  }

  /**
   * `([\d.]+)%\s*documented` matches at index `i` of `s`. Backtracking cannot
   * help: a shorter run of digits and dots is followed by a digit or a dot,
   * not by '%', and fewer blanks are followed by a blank, not by 'd'.
   */
  predicate PercentAt(s: string, i: nat) {
    i < |s| &&
    var e := DigitDotRunEnd(s, i);
    i < e < |s| && s[e] == '%' && DocumentedWord <= s[SpaceRunEnd(s, e + 1)..]
  }

  /** The group of the leftmost match of `([\d.]+)%\s*documented` at or after `i`. */
  function PercentFrom(s: string, i: nat): (r: Option<string>)
    ensures r.Some? ==> r.value != [] && forall j :: 0 <= j < |r.value| ==> IsDigitOrDot(r.value[j])
    decreases |s| - i
  {
    if i >= |s| then None
    else if PercentAt(s, i) then Some(s[i..DigitDotRunEnd(s, i)])
    else PercentFrom(s, i + 1)
  }

  /**
   * `float()` accepts a run of digits and dots exactly when it holds at most
   * one dot and at least one digit, that is, fewer dots than characters.
   */
  predicate FloatForm(g: string) {
    CountChar(g, '.') <= 1 && CountChar(g, '.') < |g|
  }

  /**
   * `float(match.group(1))` raises `ValueError` on this stripped line, which
   * aborts `_parse_yard_output`: the percentage matched is not a number.
   */
  predicate PercentRaises(line: string) {
    var g := PercentFrom(line, 0);
    g.Some? && !FloatForm(g.value)
  }

  /** Without a '%' no match is found. */
  lemma {:induction false} NoPercentFrom(s: string, i: nat)
    requires '%' !in s
    ensures PercentFrom(s, i) == None
    decreases |s| - i
  {
    if i < |s| {
      NoPercentFrom(s, i + 1);
    }
  }

  /** A line without a '%' never raises. */
  lemma PercentNeedsSign(line: string)
    requires '%' !in line
    ensures !PercentRaises(line)
  {
    NoPercentFrom(line, 0);
  }

  lemma DotsCounted()
    ensures CountChar("1.2.3", '.') == 2
    ensures CountChar("100.00", '.') == 1
  {
    assert CountChar("1", '.') == 0 by { assert "1"[..0] == ""; }
    assert CountChar("1.", '.') == 1 by { assert "1."[..1] == "1"; }
    assert CountChar("1.2", '.') == 1 by { assert "1.2"[..2] == "1."; }
    assert CountChar("1.2.", '.') == 2 by { assert "1.2."[..3] == "1.2"; }
    assert "1.2.3"[..4] == "1.2.";
    assert CountChar("10", '.') == 0 by { assert "10"[..1] == "1"; }
    assert CountChar("100", '.') == 0 by { assert "100"[..2] == "10"; }
    assert CountChar("100.", '.') == 1 by { assert "100."[..3] == "100"; }
    assert CountChar("100.0", '.') == 1 by { assert "100.0"[..4] == "100."; }
    assert "100.00"[..5] == "100.0";
  }

  /** A percentage with two dots raises. */
  lemma PercentTwoDots()
    ensures PercentRaises("1.2.3% documented")
  {
    var s := "1.2.3% documented";
    assert DigitDotRunEnd(s, 5) == 5;
    assert DigitDotRunEnd(s, 3) == 5;
    assert DigitDotRunEnd(s, 1) == 5;
    assert DigitDotRunEnd(s, 0) == 5;
    assert SpaceRunEnd(s, 6) == 7;
    assert s[7..] == "documented";
    assert PercentAt(s, 0);
    assert s[0..5] == "1.2.3";
    DotsCounted();
  }

  /** YARD's own format, `100.00% documented`, does not raise. */
  lemma PercentWellFormed()
    ensures !PercentRaises("100.00% documented")
  {
    var s := "100.00% documented";
    assert DigitDotRunEnd(s, 6) == 6;
    assert DigitDotRunEnd(s, 4) == 6;
    assert DigitDotRunEnd(s, 2) == 6;
    assert DigitDotRunEnd(s, 0) == 6;
    assert SpaceRunEnd(s, 7) == 8;
    assert s[8..] == "documented";
    assert PercentAt(s, 0);
    assert s[0..6] == "100.00";
    DotsCounted();
  }

  /** Some line of `lines`, once stripped, makes `_parse_yard_output` raise. */
  predicate SomeLineRaises(lines: seq<string>) {
    lines != [] && (SomeLineRaises(lines[..|lines| - 1]) || PercentRaises(Strip(lines[|lines| - 1])))
  }

  /** A located message is an error when it mentions `error` or `invalid` in any case. */
  predicate IsErrorMessage(message: string) {
    Contains(Lower(message), "error") || Contains(Lower(message), "invalid")
  }

  predicate IsSyntaxError(line: string) {
    Contains(Lower(line), "syntax error") || Contains(Lower(line), "parse error")
  }

  predicate IsParamError(line: string) {
    Contains(line, "@param") && (Contains(Lower(line), "unknown") || Contains(Lower(line), "invalid"))
  }

  /** The entry a located line gives: in errors or in warnings, by its message. */
  function LocatedEntry(loc: Location): ValidationWarning {
    ValidationWarning(loc.file, Some(loc.lineNo), loc.message, if IsErrorMessage(loc.message) then Error else Warning)
  }

  /** An error without a line number, reported against the validated file. */
  function LineError(filename: string, line: string): ValidationWarning {
    ValidationWarning(filename, None, line, Error)
  }

  /** Every entry of `entries` has type `t`. */
  predicate AllOfType(entries: seq<ValidationWarning>, t: IssueType) {
    forall i :: 0 <= i < |entries| ==> entries[i].warningType == t
  }

  lemma AllOfTypeAppend(a: seq<ValidationWarning>, b: seq<ValidationWarning>, t: IssueType)
    requires AllOfType(a, t) && AllOfType(b, t)
    ensures AllOfType(a + b, t)
  {
    forall i | 0 <= i < |a + b|
      ensures (a + b)[i].warningType == t
    {
      if i >= |a| {
        assert (a + b)[i] == b[i - |a|];
      }
    }
  }

  /** The warning a stripped line adds: its located entry, when that is not an error. */
  function LineWarnings(line: string): (ws: seq<ValidationWarning>)
    ensures |ws| <= 1
    ensures AllOfType(ws, Warning)
  {
    match Located(line)
    case Some(loc) => if IsErrorMessage(loc.message) then [] else [LocatedEntry(loc)]
    case None => []
  }

  /** The error a stripped line's located entry gives, when its message mentions an error. */
  function LocatedErrors(line: string): (es: seq<ValidationWarning>)
    ensures |es| <= 1
    ensures AllOfType(es, Error)
  {
    match Located(line)
    case Some(loc) => if IsErrorMessage(loc.message) then [LocatedEntry(loc)] else []
    case None => []
  }

  /** The line-less error a stripped line gives for a syntax or parse error. */
  function SyntaxErrors(line: string, filename: string): seq<ValidationWarning> {
    if IsSyntaxError(line) then [LineError(filename, line)] else []
  }

  /** The line-less error a stripped line gives for a bad `@param`. */
  function ParamErrors(line: string, filename: string): seq<ValidationWarning> {
    if IsParamError(line) then [LineError(filename, line)] else []
  }

  /** The undocumented count after a stripped line: the line's own count, if it reports one. */
  function LineUndocumented(count: nat, line: string): nat {
    match UndocumentedIn(line)
    case Some(n) => n
    case None => count
  }

  /** What the parse has collected so far. */
  datatype Tally = Tally(warnings: seq<ValidationWarning>, errors: seq<ValidationWarning>, undocumented: nat)

  /**
   * One stripped line of output; an empty one is skipped. The errors it adds
   * come in order: the located one, then the syntax one, then the `@param` one.
   */
  function AddLine(t: Tally, line: string, filename: string): Tally {
    if line == [] then t
    else
      var errors := t.errors + LocatedErrors(line) + SyntaxErrors(line, filename) + ParamErrors(line, filename);
      Tally(t.warnings + LineWarnings(line), errors, LineUndocumented(t.undocumented, line))
  }

  /** The tally of all `lines`, each stripped, in order. */
  function Tallied(lines: seq<string>, filename: string): Tally {
    if lines == [] then Tally([], [], 0)
    else AddLine(Tallied(lines[..|lines| - 1], filename), Strip(lines[|lines| - 1]), filename)
  }

  /** `_parse_yard_output`: the output's lines tallied, valid exactly when no error was found. */
  function ParseResult(output: string, filename: string): (r: ValidationResult)
    ensures r.valid <==> !r.HasErrors()
    ensures r.rawOutput == output
  {
    var t := Tallied(SplitNl(output), filename);
    ValidationResult(|t.errors| == 0, t.warnings, t.errors, t.undocumented, output)
  }

  /**
   * The body of the loop of `_parse_yard_output`: strip one line of output,
   * skip it when empty, else tally it; `None` when the line raises.
   */
  method ParseLine(rawLine: string, filename: string, t: Tally) returns (u: Option<Tally>)
    ensures u.None? <==> PercentRaises(Strip(rawLine))
    ensures u.Some? ==> u.value == AddLine(t, Strip(rawLine), filename)
  {
    var line := Strip(rawLine);
    if line == [] {
      return Some(t);
    }
    var warnings, errors, undocumented := t.warnings, t.errors, t.undocumented;
    var lower := Lower(line);
    if Contains(lower, UndocumentedWord) {
      var found := UndocFrom(lower, 0);
      if found.Some? {
        undocumented := found.value;
      }
    }
    var percent := PercentFrom(line, 0);
    if percent.Some? && !FloatForm(percent.value) {
      return None;
    }
    var loc := Located(line);
    if loc.Some? {
      var entry := ValidationWarning(loc.value.file, Some(loc.value.lineNo), loc.value.message, Warning);
      if IsErrorMessage(loc.value.message) {
        errors := errors + [entry.(warningType := Error)];
      } else {
        warnings := warnings + [entry];
      }
    }
    assert undocumented == LineUndocumented(t.undocumented, line);
    assert warnings == t.warnings + LineWarnings(line);
    assert errors == t.errors + LocatedErrors(line);
    if IsSyntaxError(line) {
      errors := errors + [ValidationWarning(filename, None, line, Error)];
    }
    assert errors == t.errors + LocatedErrors(line) + SyntaxErrors(line, filename);
    if IsParamError(line) {
      errors := errors + [ValidationWarning(filename, None, line, Error)];
    }
    assert errors == t.errors + LocatedErrors(line) + SyntaxErrors(line, filename) + ParamErrors(line, filename);
    u := Some(Tally(warnings, errors, undocumented));
  }

  /**
   * What the loop of `_parse_yard_output` ends with: the tally of all
   * `lines`, or `None` once a line raises.
   */
  function Outcome(lines: seq<string>, filename: string): Option<Tally> {
    if lines == [] then Some(Tally([], [], 0))
    else
      match Outcome(lines[..|lines| - 1], filename)
      case None => None
      case Some(t) =>
        var line := Strip(lines[|lines| - 1]);
        if PercentRaises(line) then None else Some(AddLine(t, line, filename))
  }

  /** The outcome is `None` exactly when some line raises. */
  lemma {:induction false} OutcomeNone(lines: seq<string>, filename: string)
    ensures Outcome(lines, filename).None? <==> SomeLineRaises(lines)
  {
    if lines != [] {
      OutcomeNone(lines[..|lines| - 1], filename);
    }
  }

  /** When no line raises, the outcome is the tally of all lines. */
  lemma {:induction false} OutcomeTallied(lines: seq<string>, filename: string)
    ensures Outcome(lines, filename).Some? ==> Outcome(lines, filename).value == Tallied(lines, filename)
  {
    if lines != [] {
      OutcomeTallied(lines[..|lines| - 1], filename);
    }
  }

  /** One more line: the outcome so far, then the line's own outcome. */
  lemma OutcomeNext(lines: seq<string>, i: nat, filename: string, t: Tally, u: Option<Tally>)
    requires i < |lines|
    requires Outcome(lines[..i], filename) == Some(t)
    requires u.None? <==> PercentRaises(Strip(lines[i]))
    requires u.Some? ==> u.value == AddLine(t, Strip(lines[i]), filename)
    ensures Outcome(lines[..i + 1], filename) == u
  {
    assert lines[..i + 1][..i] == lines[..i];
  }

  /** Once a line has raised, later lines cannot undo it. */
  lemma {:induction false} OutcomeNoneStays(lines: seq<string>, n: nat, filename: string)
    requires n <= |lines|
    requires Outcome(lines[..n], filename) == None
    ensures Outcome(lines, filename) == None
    decreases |lines|
  {
    if n < |lines| {
      var init := lines[..|lines| - 1];
      assert init[..n] == lines[..n];
      OutcomeNoneStays(init, n, filename);
    } else {
      assert lines[..n] == lines;
    }
  }

  /** The loop of `_parse_yard_output` over the output's lines; `None` when a line raises. */
  method TallyLines(lines: seq<string>, filename: string) returns (r: Option<Tally>)
    ensures r == Outcome(lines, filename)
  {
    var tally := Tally([], [], 0);
    for i := 0 to |lines|
      invariant Outcome(lines[..i], filename) == Some(tally)
    {
      var next := ParseLine(lines[i], filename, tally);
      OutcomeNext(lines, i, filename, tally, next);
      if next.None? {
        OutcomeNoneStays(lines, i + 1, filename);
        return None;
      }
      tally := next.value;
    }
    assert lines[..|lines|] == lines;
    return Some(tally);
  }

  /**
   * `_parse_yard_output`: split the output into lines, tally them, and report;
   * `None` when `float()` raises on some line.
   */
  method ParseYardOutput(output: string, filename: string) returns (r: Option<ValidationResult>)
    ensures r.None? <==> SomeLineRaises(SplitNl(output))
    ensures r.Some? ==> r.value == ParseResult(output, filename)
  {
    var tally := TallyLines(SplitNl(output), filename);
    OutcomeNone(SplitNl(output), filename);
    OutcomeTallied(SplitNl(output), filename);
    if tally.None? {
      return None;
    }
    var t := tally.value;
    r := Some(ValidationResult(|t.errors| == 0, t.warnings, t.errors, t.undocumented, output));
  }

  /** A line adds only warnings of type `warning` and errors of type `error`. */
  lemma AddLineTypes(t: Tally, line: string, filename: string)
    requires AllOfType(t.warnings, Warning) && AllOfType(t.errors, Error)
    ensures AllOfType(AddLine(t, line, filename).warnings, Warning)
    ensures AllOfType(AddLine(t, line, filename).errors, Error)
  {
    if line != [] {
      var located := t.errors + LocatedErrors(line);
      var syntax := located + SyntaxErrors(line, filename);
      AllOfTypeAppend(t.warnings, LineWarnings(line), Warning);
      AllOfTypeAppend(t.errors, LocatedErrors(line), Error);
      AllOfTypeAppend(located, SyntaxErrors(line, filename), Error);
      AllOfTypeAppend(syntax, ParamErrors(line, filename), Error);
    }
  }

  /** Every warning has type `warning` and every error has type `error`. */
  lemma {:induction false} TalliedTypes(lines: seq<string>, filename: string)
    ensures AllOfType(Tallied(lines, filename).warnings, Warning)
    ensures AllOfType(Tallied(lines, filename).errors, Error)
  {
    if lines != [] {
      var init := lines[..|lines| - 1];
      TalliedTypes(init, filename);
      AddLineTypes(Tallied(init, filename), Strip(lines[|lines| - 1]), filename);
    }
  }

  predicate NonBlank(line: string) {
    !IsBlank(line)
  }

  /** Blank lines add nothing: dropping them leaves the tally as it is. */
  lemma {:induction false} TalliedIgnoresBlank(lines: seq<string>, filename: string)
    ensures Tallied(Filter(lines, NonBlank), filename) == Tallied(lines, filename)
  {
    if lines != [] {
      var init := lines[..|lines| - 1];
      var last := lines[|lines| - 1];
      TalliedIgnoresBlank(init, filename);
      var kept := Filter(init, NonBlank);
      StripEmptyIffBlank(last);
      if NonBlank(last) {
        assert (kept + [last])[..|kept|] == kept;
      }
    }
  }

  /**
   * The undocumented count is the number on the last line that reports one.
   */
  lemma {:induction false} TalliedUndocumentedLast(lines: seq<string>, filename: string, k: nat)
    requires k < |lines| && UndocumentedIn(Strip(lines[k])).Some?
    requires forall j :: k < j < |lines| ==> UndocumentedIn(Strip(lines[j])).None?
    ensures Tallied(lines, filename).undocumented == UndocumentedIn(Strip(lines[k])).value
  {
    var init := lines[..|lines| - 1];
    if k < |lines| - 1 {
      assert init[k] == lines[k];
      assert forall j :: k < j < |init| ==> init[j] == lines[j];
      TalliedUndocumentedLast(init, filename, k);
    }
  }

  /** With no line reporting an undocumented count, the count stays 0. */
  lemma {:induction false} TalliedUndocumentedNone(lines: seq<string>, filename: string)
    requires forall j :: 0 <= j < |lines| ==> UndocumentedIn(Strip(lines[j])).None?
    ensures Tallied(lines, filename).undocumented == 0
  {
    if lines != [] {
      var init := lines[..|lines| - 1];
      assert forall j :: 0 <= j < |init| ==> init[j] == lines[j];
      TalliedUndocumentedNone(init, filename);
    }
  }

  /**
   * A `file:line: message` line adds exactly one located entry: an error
   * carrying the parsed line number when the message mentions an error,
   * otherwise a warning carrying it.
   */
  lemma LocatedLineEntry(file: string, digits: string, msg: string, filename: string)
    requires file != [] && ':' !in file
    requires digits != [] && AllDigits(digits)
    requires msg != [] && !IsSpace(msg[0])
    ensures var line := file + ":" + digits + ": " + msg;
      var entry := ValidationWarning(file, Some(DigitsValue(digits)), msg, Warning);
      && (IsErrorMessage(msg) ==>
            LineWarnings(line) == [] && LocatedErrors(line) == [entry.(warningType := Error)])
      && (!IsErrorMessage(msg) ==> LocatedErrors(line) == [])
      && (!IsErrorMessage(msg) ==> LineWarnings(line) == [entry])
  {
    LocatedFormat(file, digits, msg);
  }

  /**
   * A syntax, parse or `@param` complaint adds a line-less error quoting the
   * line, after what the line's located entry added; both rules can fire.
   */
  lemma LineErrorAdded(t: Tally, line: string, filename: string)
    requires line != []
    requires IsSyntaxError(line) || IsParamError(line)
    ensures var errors := AddLine(t, line, filename).errors;
      && t.errors <= errors
      && LineError(filename, line) in errors[|t.errors|..]
      && |errors| >= |t.errors| + (if IsSyntaxError(line) then 1 else 0) + (if IsParamError(line) then 1 else 0)
  {
    var errors := AddLine(t, line, filename).errors;
    var located := LocatedErrors(line);
    var rules := SyntaxErrors(line, filename) + ParamErrors(line, filename);
    assert errors == t.errors + (located + rules);
    assert errors[|t.errors|..] == located + rules;
    assert rules[0] == LineError(filename, line);
    assert (located + rules)[|located|] == LineError(filename, line);
  }
}
