/**
 * The conversion helper (convert_autograder.py). It reads harness source
 * text and reports three things:
 *   - the `grade_problem(...)` calls, each with its line and whether a
 *     `try:` appears shortly before it;
 *   - the `def test_...(` section functions;
 *   - whether the `# RUN` block has a `try:`.
 * It also generates crash-safe wrappers from two text templates. The three
 * regular expressions it uses are written out below as scanners. Reading
 * the input file and printing the report are not modelled.
 */
module Converter {
  import opened Common
  import opened Text

  // ---------------------------------------------------------------------
  // The three patterns
  // ---------------------------------------------------------------------

  datatype Regex =
    | GradePattern  // grade_problem\s*\(\s*(\d+)\s*,
    | TestPattern   // def\s+(test_\w+)\s*\(
    | MainPattern   // #\s*RUN.*?\n(.*?)(?:#\*\*|$)   with DOTALL and IGNORECASE

  /** A match starting at a known position: its group 1 and the position just past it. */
  datatype Hit = Hit(group: string, end: nat)

  /** `RUN` in any mix of cases, at offset `i`. */
  predicate IsRunAt(s: string, i: nat) {
    && i + 3 <= |s|
    && (s[i] == 'R' || s[i] == 'r')
    && (s[i + 1] == 'U' || s[i + 1] == 'u')
    && (s[i + 2] == 'N' || s[i + 2] == 'n')
  }

  /** The first `\n` at or after `q`, or `|s|` when there is none. */
  function LineBreakFrom(s: string, q: nat): (k: nat)
    requires q <= |s|
    ensures q <= k <= |s| && (k < |s| ==> s[k] == '\n')
    ensures forall j :: q <= j < k ==> s[j] != '\n'
    decreases |s| - q
  {
    if q == |s| || s[q] == '\n' then q else LineBreakFrom(s, q + 1)
  }

  /**
   * `(?:#\*\*|$)` succeeds at `p`: a `#**` starts there, or `p` is the end
   * of the text or the position of a final line break.
   */
  predicate BodyStops(s: string, p: nat)
    requires p <= |s|
  {
    p == |s| || (p == |s| - 1 && s[p] == '\n') || HasPrefixAt(s, p, "#**")
  }

  /** The lazy group `(.*?)` ends at the first position where the terminator succeeds. */
  function BodyEnd(s: string, q: nat): (p: nat)
    requires q <= |s|
    ensures q <= p <= |s| && BodyStops(s, p)
    ensures forall j :: q <= j < p ==> !BodyStops(s, j)
    decreases |s| - q
  {
    if BodyStops(s, q) then q else BodyEnd(s, q + 1)
  }

  /**
   * The match of `p` that starts exactly at `i`, if any. Every repeated
   * class in the first two patterns is followed by a character outside
   * the class, so only the longest run of it can lead to a match; the lazy
   * parts of the third stop at the first line break and at the first
   * terminator.
   */
  function MatchAt(p: Regex, s: string, i: nat): (h: Option<Hit>)
    requires i <= |s|
    ensures h.Some? ==> i < h.value.end <= |s|
    ensures h.Some? && p == GradePattern ==> IsDigitWord(h.value.group)
  {
    match p
    case GradePattern =>
      if HasPrefixAt(s, i, "grade_problem") then
        var a := RunEnd(s, i + 13, IsSpace);
        if a < |s| && s[a] == '(' then
          var b := RunEnd(s, a + 1, IsSpace);
          var c := RunEnd(s, b, IsAsciiDigit);
          var d := RunEnd(s, c, IsSpace);
          if b < c && d < |s| && s[d] == ',' then Some(Hit(s[b..c], d + 1)) else None
        else None
      else None
    case TestPattern =>
      if HasPrefixAt(s, i, "def") then
        var a := RunEnd(s, i + 3, IsSpace);
        if i + 3 < a && HasPrefixAt(s, a, "test_") then
          var b := RunEnd(s, a + 5, IsWordChar);
          var c := RunEnd(s, b, IsSpace);
          if a + 5 < b && c < |s| && s[c] == '(' then Some(Hit(s[a..b], c + 1)) else None
        else None
      else None
    case MainPattern =>
      if i < |s| && s[i] == '#' then
        var a := RunEnd(s, i + 1, IsSpace);
        if IsRunAt(s, a) then
          var n := LineBreakFrom(s, a + 3);
          if n < |s| then
            var e := BodyEnd(s, n + 1);
            Some(Hit(s[n + 1..e], e))
          else None
        else None
      else None
  }

  /** A definition match names a function `test_` followed by at least one word character. */
  lemma TestMatchName(s: string, i: nat)
    requires i <= |s| && MatchAt(TestPattern, s, i).Some?
    ensures var g := MatchAt(TestPattern, s, i).value.group;
      |g| > 5 && g[..5] == "test_" && forall k :: 5 <= k < |g| ==> IsWordChar(g[k])
  {
    var a := RunEnd(s, i + 3, IsSpace);
    var b := RunEnd(s, a + 5, IsWordChar);
    assert s[a..b][..5] == s[a..a + 5];
  }

  /** `grade_problem(` + `g` + `,` with no white space is a call of problem `g`. */
  lemma GradeMatchPlain(s: string, i: nat, g: string)
    requires IsDigitWord(g) && HasPrefixAt(s, i, "grade_problem(" + g + ",")
    ensures MatchAt(GradePattern, s, i) == Some(Hit(g, i + 15 + |g|))
  {
    var w := "grade_problem(" + g + ",";
    var b := i + 14;
    var c := b + |g|;
    assert s[i..i + |w|] == w;
    assert s[i..i + 13] == "grade_problem" by {
      assert s[i..i + 13] == w[..13];
    }
    assert s[i + 13] == '(' by {
      assert s[i + 13] == w[13];
    }
    assert s[c] == ',' by {
      assert s[c] == w[14 + |g|];
    }
    assert s[b..c] == g by {
      assert s[b..c] == w[14..14 + |g|];
    }
    RunEndAt(s, i + 13, i + 13, IsSpace);
    RunEndAt(s, b, b, IsSpace);
    forall k | b <= k < c ensures IsAsciiDigit(s[k]) {
      assert s[k] == g[k - b];
    }
    RunEndAt(s, b, c, IsAsciiDigit);
    RunEndAt(s, c, c, IsSpace);
  }

  /** The matches of one pattern at every offset of one text (`None` past its end). */
  type Matcher = nat -> Option<Hit>

  function Scanner(p: Regex, s: string): Matcher {
    (i: nat) => if i <= |s| then MatchAt(p, s, i) else None
  }

  /** Every match a matcher reports ends after its start and inside a text of length `n`. */
  ghost predicate Consistent(m: Matcher, n: nat) {
    forall i: nat :: m(i).Some? ==> i < m(i).value.end <= n
  }

  lemma ScannerConsistent(p: Regex, s: string)
    ensures Consistent(Scanner(p, s), |s|)
  {
  }

  /** The leftmost position at or after `from` where `m` reports a match, or `n + 1`. */
  function SearchFrom(m: Matcher, n: nat, from: nat): (k: nat)
    requires from <= n + 1
    ensures from <= k <= n + 1
    ensures forall j :: from <= j < k ==> m(j).None?
    ensures k <= n ==> m(k).Some?
    decreases n + 1 - from
  {
    if from > n then from
    else if m(from).Some? then from
    else SearchFrom(m, n, from + 1)
  }

  /** One match reported by `re.finditer`: where it starts, its group 1 and where it ends. */
  datatype Found = Found(start: nat, group: string, end: nat)

  /**
   * `re.finditer` resumed at `from`: the leftmost match, then the matches
   * after its end.
   */
  function Matches(m: Matcher, n: nat, from: nat): (ms: seq<Found>)
    requires Consistent(m, n) && from <= n + 1
    ensures forall k :: 0 <= k < |ms| ==> from <= ms[k].start < ms[k].end <= n
    decreases n + 1 - from
  {
    var k := SearchFrom(m, n, from);
    if k > n then []
    else
      var h := m(k).value;
      [Found(k, h.group, h.end)] + Matches(m, n, h.end)
  }

  /** Every reported match is a real match at its start. */
  lemma {:induction false} MatchesSound(m: Matcher, n: nat, from: nat)
    requires Consistent(m, n) && from <= n + 1
    ensures forall k :: 0 <= k < |Matches(m, n, from)| ==>
      m(Matches(m, n, from)[k].start) == Some(Hit(Matches(m, n, from)[k].group, Matches(m, n, from)[k].end))
    decreases n + 1 - from
  {
    var ms := Matches(m, n, from);
    if ms != [] {
      var k := SearchFrom(m, n, from);
      var h := m(k).value;
      var rest := Matches(m, n, h.end);
      assert ms == [Found(k, h.group, h.end)] + rest;
      MatchesSound(m, n, h.end);
      forall i | 0 < i < |ms| ensures m(ms[i].start) == Some(Hit(ms[i].group, ms[i].end)) {
        assert ms[i] == rest[i - 1];
      }
    }
  }

  /** The matches come in order of occurrence, without overlap. */
  lemma {:induction false} MatchesOrdered(m: Matcher, n: nat, from: nat)
    requires Consistent(m, n) && from <= n + 1
    ensures forall k, l :: 0 <= k < l < |Matches(m, n, from)| ==> Matches(m, n, from)[k].end <= Matches(m, n, from)[l].start
    decreases n + 1 - from
  {
    var ms := Matches(m, n, from);
    if ms != [] {
      var end := ms[0].end;
      var rest := Matches(m, n, end);
      assert ms == [ms[0]] + rest;
      MatchesOrdered(m, n, end);
      forall k, l | 0 <= k < l < |ms| ensures ms[k].end <= ms[l].start {
        assert ms[l] == rest[l - 1];
        if k > 0 {
          assert ms[k] == rest[k - 1];
        }
      }
    }
  }

  /** Start positions of the reported matches never decrease. */
  lemma MatchesStartsInOrder(m: Matcher, n: nat, k: nat, l: nat)
    requires Consistent(m, n) && k <= l < |Matches(m, n, 0)|
    ensures Matches(m, n, 0)[k].start <= Matches(m, n, 0)[l].start
  {
    if k < l {
      MatchesOrdered(m, n, 0);
    }
  }

  /**
   * No match is skipped: every position where a match starts is the start
   * of a reported match or lies inside one.
   */
  lemma {:induction false} MatchesComplete(m: Matcher, n: nat, from: nat, j: nat)
    requires Consistent(m, n) && from <= j <= n && m(j).Some?
    ensures exists k :: 0 <= k < |Matches(m, n, from)| && Matches(m, n, from)[k].start <= j < Matches(m, n, from)[k].end
    decreases n + 1 - from
  {
    var ms := Matches(m, n, from);
    var k0 := SearchFrom(m, n, from);
    var h := m(k0).value;
    assert ms[0] == Found(k0, h.group, h.end);
    if h.end <= j {
      MatchesComplete(m, n, h.end, j);
      var rest := Matches(m, n, h.end);
      var k :| 0 <= k < |rest| && rest[k].start <= j < rest[k].end;
      assert ms[k + 1] == rest[k];
    }
  }

  // ---------------------------------------------------------------------
  // analyze_autograder_code
  // ---------------------------------------------------------------------

  /** One entry of `grade_problem_calls`. */
  datatype GradeCall = GradeCall(problemNum: string, line: nat, needsWrapping: bool)

  /** One entry of `test_functions`. */
  datatype TestFunction = TestFunction(name: string, line: nat)

  /** The `main_execution` entry (its `found` flag is always true). */
  datatype MainExecution = MainExecution(hasTry: bool)

  /** The analysis dictionary. */
  datatype Analysis = Analysis(
    gradeProblemCalls: seq<GradeCall>,
    testFunctions: seq<TestFunction>,
    mainExecution: Option<MainExecution>,
    suggestions: seq<string>)

  /** The reported line of an offset: one more than the line breaks before it. */
  function LineOf(code: string, start: nat): (line: nat)
    requires start <= |code|
    ensures line >= 1
  {
    Count(code[..start], '\n') + 1
  }

  /** The reported line is the number of `\n`-separated lines that the text before the match spans. */
  lemma LineOfCountsLines(code: string, start: nat)
    requires start <= |code|
    ensures LineOf(code, start) == |Split(code[..start], '\n')|
  {
    SplitLength(code[..start], '\n');
  }

  /** A later offset is never on an earlier line. */
  lemma LineOfMonotone(code: string, a: nat, b: nat)
    requires a <= b <= |code|
    ensures LineOf(code, a) <= LineOf(code, b)
  {
    assert code[..b] == code[..a] + code[a..b];
    CountAppend(code[..a], code[a..b], '\n');
  }

  /** `max(0, start - 200)` */
  function WindowStart(start: nat): nat {
    if start >= 200 then start - 200 else 0
  }

  /** No `try:` in the 200 characters before the call. */
  predicate NeedsWrapping(code: string, start: nat)
    requires start <= |code|
  {
    !IsSubstring("try:", code[WindowStart(start)..start])
  }

  /** A call needs wrapping exactly when no `try:` lies wholly inside its window of the text. */
  lemma NeedsWrappingWindow(code: string, start: nat)
    requires start <= |code|
    ensures NeedsWrapping(code, start) <==>
      forall j :: WindowStart(start) <= j && j + 4 <= start ==> !HasPrefixAt(code, j, "try:")
  {
    var w := WindowStart(start);
    var win := code[w..start];
    if !NeedsWrapping(code, start) {
      var t: nat :| t <= |win| && HasPrefixAt(win, t, "try:");
      PrefixInSlice(code, w, start, w + t, "try:");
    }
    forall j | w <= j && j + 4 <= start && HasPrefixAt(code, j, "try:")
      ensures !NeedsWrapping(code, start)
    {
      PrefixInSlice(code, w, start, j, "try:");
    }
  }

  /** All matches lie inside the text. */
  predicate WithinText(code: string, ms: seq<Found>) {
    forall k :: 0 <= k < |ms| ==> ms[k].start <= |code|
  }

  function CallOf(code: string, m: Found): GradeCall
    requires m.start <= |code|
  {
    GradeCall(m.group, LineOf(code, m.start), NeedsWrapping(code, m.start))
  }

  function CallsOf(code: string, ms: seq<Found>): seq<GradeCall>
    requires WithinText(code, ms)
  {
    seq(|ms|, k requires 0 <= k < |ms| => CallOf(code, ms[k]))
  }

  /** `re.finditer(p, code)` */
  function FindAll(p: Regex, code: string): (ms: seq<Found>)
    ensures WithinText(code, ms)
  {
    ScannerConsistent(p, code);
    Matches(Scanner(p, code), |code|, 0)
  }

  /** `analysis['grade_problem_calls']`: one entry per match of the call pattern. */
  function GradeCalls(code: string): seq<GradeCall> {
    CallsOf(code, FindAll(GradePattern, code))
  }

  function TestOf(code: string, m: Found): TestFunction
    requires m.start <= |code|
  {
    TestFunction(m.group, LineOf(code, m.start))
  }

  function TestsOf(code: string, ms: seq<Found>): seq<TestFunction>
    requires WithinText(code, ms)
  {
    seq(|ms|, k requires 0 <= k < |ms| => TestOf(code, ms[k]))
  }

  /** `analysis['test_functions']`: one entry per match of the definition pattern. */
  function TestFunctions(code: string): seq<TestFunction> {
    TestsOf(code, FindAll(TestPattern, code))
  }

  /** `analysis['main_execution']`: present exactly when some position starts a `# RUN` block. */
  function MainExecutionOf(code: string): Option<MainExecution> {
    var scan := Scanner(MainPattern, code);
    var k := SearchFrom(scan, |code|, 0);
    if k <= |code| then Some(MainExecution(IsSubstring("try:", scan(k).value.group))) else None
  }

  /** `main_execution` is `None` exactly when no position starts a `# RUN` block. */
  lemma MainExecutionFound(code: string)
    ensures MainExecutionOf(code).None? <==> forall i :: 0 <= i <= |code| ==> MatchAt(MainPattern, code, i).None?
  {
    var scan := Scanner(MainPattern, code);
    var k := SearchFrom(scan, |code|, 0);
    if k <= |code| {
      assert scan(k) == MatchAt(MainPattern, code, k);
    } else {
      forall i | 0 <= i <= |code| ensures MatchAt(MainPattern, code, i).None? {
        assert scan(i) == MatchAt(MainPattern, code, i);
      }
    }
  }

  /** The block reported is the leftmost one, and `has_try` looks only at its body. */
  lemma MainExecutionIsLeftmost(code: string, i: nat)
    requires i <= |code| && MatchAt(MainPattern, code, i).Some?
    requires forall j :: 0 <= j < i ==> MatchAt(MainPattern, code, j).None?
    ensures MainExecutionOf(code) == Some(MainExecution(IsSubstring("try:", MatchAt(MainPattern, code, i).value.group)))
  {
    var scan := Scanner(MainPattern, code);
    var k := SearchFrom(scan, |code|, 0);
    assert scan(i) == MatchAt(MainPattern, code, i);
    assert k <= i;
    assert scan(k) == MatchAt(MainPattern, code, k);
  }

  /** The captured body never contains the `#**` that ends a block. */
  lemma MainBodyEndsAtTerminator(s: string, i: nat)
    requires i <= |s| && MatchAt(MainPattern, s, i).Some?
    ensures !IsSubstring("#**", MatchAt(MainPattern, s, i).value.group)
  {
    var h := MatchAt(MainPattern, s, i).value;
    var a := RunEnd(s, i + 1, IsSpace);
    var n := LineBreakFrom(s, a + 3);
    var q := n + 1;
    assert h.group == s[q..h.end];
    if IsSubstring("#**", h.group) {
      var t: nat :| t <= |h.group| && HasPrefixAt(h.group, t, "#**");
      PrefixInSlice(s, q, h.end, q + t, "#**");
      assert BodyStops(s, q + t);
    }
  }

  /** The calls that need wrapping, in their original order (the list comprehension). */
  function Unwrapped(calls: seq<GradeCall>): (r: seq<GradeCall>)
    ensures |r| <= |calls|
    ensures forall c :: c in r <==> c in calls && c.needsWrapping
  {
    if calls == [] then []
    else
      var n := |calls| - 1;
      assert calls == calls[..n] + [calls[n]];
      Unwrapped(calls[..n]) + (if calls[n].needsWrapping then [calls[n]] else [])
  }

  /** The positions among the first `n` calls whose call needs wrapping. */
  ghost function WrapPositions(calls: seq<GradeCall>, n: nat): set<nat> {
    set k: nat | k < n && k < |calls| && calls[k].needsWrapping
  }

  lemma WrapPositionsStep(calls: seq<GradeCall>, m: nat)
    requires m < |calls|
    ensures WrapPositions(calls, m + 1) == WrapPositions(calls, m) + (if calls[m].needsWrapping then {m} else {})
    ensures m !in WrapPositions(calls, m)
  {
  }

  lemma UnwrappedStep(calls: seq<GradeCall>, m: nat)
    requires m < |calls|
    ensures |Unwrapped(calls[..m + 1])| == |Unwrapped(calls[..m])| + (if calls[m].needsWrapping then 1 else 0)
  {
    var prefix := calls[..m + 1];
    assert prefix[..m] == calls[..m];
    assert prefix[m] == calls[m];
  }

  /** The comprehension keeps one entry per position whose call needs wrapping. */
  lemma {:induction false} UnwrappedCount(calls: seq<GradeCall>, n: nat)
    requires n <= |calls|
    ensures |Unwrapped(calls[..n])| == |WrapPositions(calls, n)|
  {
    if n > 0 {
      var m := n - 1;
      UnwrappedCount(calls, m);
      UnwrappedStep(calls, m);
      WrapPositionsStep(calls, m);
      var before := WrapPositions(calls, m);
      if calls[m].needsWrapping {
        assert |before + {m}| == |before| + 1;
      } else {
        assert WrapPositions(calls, n) == before;
      }
    }
  }

  /** `analysis['suggestions']` */
  function Suggestions(calls: seq<GradeCall>): seq<string> {
    var n := |Unwrapped(calls)|;
    if n > 0 then ["Found " + IntToString(n) + " grade_problem() calls that need try-except wrapping"] else []
  }

  /**
   * A suggestion is made exactly when some call needs wrapping, and it gives
   * the number of calls that do.
   */
  lemma SuggestionIff(calls: seq<GradeCall>)
    ensures |Suggestions(calls)| <= 1
    ensures Suggestions(calls) != [] <==> exists k :: 0 <= k < |calls| && calls[k].needsWrapping
    ensures Suggestions(calls) != [] ==>
      Suggestions(calls)[0] == "Found " + IntToString(|WrapPositions(calls, |calls|)|)
        + " grade_problem() calls that need try-except wrapping"
  {
    UnwrappedCount(calls, |calls|);
    assert calls[..|calls|] == calls;
    if exists k :: 0 <= k < |calls| && calls[k].needsWrapping {
      var k :| 0 <= k < |calls| && calls[k].needsWrapping;
      assert calls[k] in Unwrapped(calls);
    }
    if Unwrapped(calls) != [] {
      var c := Unwrapped(calls)[0];
      assert c in calls && c.needsWrapping;
    }
  }

  /** The whole analysis of a source text. */
  function AnalysisOf(code: string): Analysis {
    var calls := GradeCalls(code);
    Analysis(calls, TestFunctions(code), MainExecutionOf(code), Suggestions(calls))
  }

  /**
   * The entries of `grade_problem_calls` are the calls in order of
   * occurrence: each names a non-empty digit string, and their lines never
   * decrease.
   */
  lemma GradeCallsInOrder(code: string)
    ensures forall k :: 0 <= k < |GradeCalls(code)| ==> IsDigitWord(GradeCalls(code)[k].problemNum)
    ensures forall k, l :: 0 <= k <= l < |GradeCalls(code)| ==> GradeCalls(code)[k].line <= GradeCalls(code)[l].line
  {
    var m := Scanner(GradePattern, code);
    ScannerConsistent(GradePattern, code);
    var ms := Matches(m, |code|, 0);
    assert ms == FindAll(GradePattern, code);
    var calls := GradeCalls(code);
    assert |calls| == |ms|;
    forall k | 0 <= k < |calls| ensures IsDigitWord(calls[k].problemNum) {
      MatchesSound(m, |code|, 0);
      assert calls[k] == CallOf(code, ms[k]);
      assert m(ms[k].start) == MatchAt(GradePattern, code, ms[k].start);
    }
    forall k, l | 0 <= k <= l < |calls| ensures calls[k].line <= calls[l].line {
      MatchesStartsInOrder(m, |code|, k, l);
      assert calls[k] == CallOf(code, ms[k]);
      assert calls[l] == CallOf(code, ms[l]);
      LineOfMonotone(code, ms[k].start, ms[l].start);
    }
  }

  /** The entries of `test_functions` name `test_` functions, in order of occurrence. */
  lemma TestFunctionsInOrder(code: string)
    ensures forall k :: 0 <= k < |TestFunctions(code)| ==>
      |TestFunctions(code)[k].name| > 5 && TestFunctions(code)[k].name[..5] == "test_"
    ensures forall k, l :: 0 <= k <= l < |TestFunctions(code)| ==> TestFunctions(code)[k].line <= TestFunctions(code)[l].line
  {
    var m := Scanner(TestPattern, code);
    ScannerConsistent(TestPattern, code);
    var ms := Matches(m, |code|, 0);
    assert ms == FindAll(TestPattern, code);
    var tests := TestFunctions(code);
    assert |tests| == |ms|;
    forall k | 0 <= k < |tests| ensures |tests[k].name| > 5 && tests[k].name[..5] == "test_" {
      MatchesSound(m, |code|, 0);
      assert tests[k] == TestOf(code, ms[k]);
      assert m(ms[k].start) == MatchAt(TestPattern, code, ms[k].start);
      TestMatchName(code, ms[k].start);
    }
    forall k, l | 0 <= k <= l < |tests| ensures tests[k].line <= tests[l].line {
      MatchesStartsInOrder(m, |code|, k, l);
      assert tests[k] == TestOf(code, ms[k]);
      assert tests[l] == TestOf(code, ms[l]);
      LineOfMonotone(code, ms[k].start, ms[l].start);
    }
  }

  /** The loop over the matches of the call pattern, one entry appended per match. */
  method FindGradeCalls(code: string) returns (calls: seq<GradeCall>)
    ensures calls == GradeCalls(code)
  {
    var matches := FindAll(GradePattern, code);
    calls := [];
    for i := 0 to |matches|
      invariant calls == CallsOf(code, matches[..i])
    {
      assert matches[..i + 1] == matches[..i] + [matches[i]];
      calls := calls + [CallOf(code, matches[i])];
    }
    assert matches[..|matches|] == matches;
  }

  /** The loop over the matches of the definition pattern, one entry appended per match. */
  method FindTestFunctions(code: string) returns (tests: seq<TestFunction>)
    ensures tests == TestFunctions(code)
  {
    var matches := FindAll(TestPattern, code);
    tests := [];
    for i := 0 to |matches|
      invariant tests == TestsOf(code, matches[..i])
    {
      assert matches[..i + 1] == matches[..i] + [matches[i]];
      tests := tests + [TestOf(code, matches[i])];
    }
    assert matches[..|matches|] == matches;
  }

  /** `analyze_autograder_code(code)` */
  method Analyze(code: string) returns (analysis: Analysis)
    ensures analysis == AnalysisOf(code)
  {
    var calls := FindGradeCalls(code);
    var tests := FindTestFunctions(code);
    var main: Option<MainExecution> := None;
    var scan := Scanner(MainPattern, code);
    var k := SearchFrom(scan, |code|, 0);
    if k <= |code| {
      var body := scan(k).value.group;
      main := Some(MainExecution(IsSubstring("try:", body)));
    }
    analysis := Analysis(calls, tests, main, Suggestions(calls));
  }

  // ---------------------------------------------------------------------
  // generate_wrapped_grade_problem, generate_wrapped_test_section
  // ---------------------------------------------------------------------

  /** The default name of the points variable. */
  const DefaultPointsVar: string := "POINTS_PER_PROBLEM"

  /** The text `grade_problem(<n>,` that opens the generated call. */
  function GradeCallText(problemNum: string): string {
    "grade_problem(" + problemNum + ","
  }

  /** The two lines that open the problem wrapper, up to the test cases. */
  function GradeWrapperHead(problemNum: string): seq<string> {
    ["    try:", "        section_score += " + GradeCallText(problemNum) + " ["]
  }

  /** The lines after the test cases: the call's end and the crash handler. */
  function GradeWrapperTail(problemNum: string, funcName: string, pointsVar: string): seq<string> {
    [ "    ], " + funcName + ", " + pointsVar + ")",
      "    except Exception as e:",
      "        print(f\"Problem " + problemNum + " CRASHED: {e}\")",
      "        points_by_problem.append(0.0)",
      "        print(\"Problem " + problemNum + " Score: 0.0 /\", " + pointsVar + ")" ]
  }

  /** `generate_wrapped_grade_problem(problem_num, test_cases_code, func_name, points_var)` */
  function WrappedGradeProblem(problemNum: string, testCasesCode: string, funcName: string, pointsVar: string): string {
    Join(GradeWrapperHead(problemNum) + [testCasesCode] + GradeWrapperTail(problemNum, funcName, pointsVar), '\n')
  }

  /**
   * The generated problem wrapper is, line by line, `try:`, the call of
   * problem `problemNum` that opens the test list, the test cases' own
   * lines, the call's end naming the function and the points variable,
   * and an `except` branch that appends `0.0`.
   */
  lemma WrappedGradeProblemLines(problemNum: string, testCasesCode: string, funcName: string, pointsVar: string)
    requires '\n' !in problemNum && '\n' !in funcName && '\n' !in pointsVar
    ensures Split(WrappedGradeProblem(problemNum, testCasesCode, funcName, pointsVar), '\n') ==
      GradeWrapperHead(problemNum) + Split(testCasesCode, '\n') + GradeWrapperTail(problemNum, funcName, pointsVar)
  {
    var head := GradeWrapperHead(problemNum);
    var tail := GradeWrapperTail(problemNum, funcName, pointsVar);
    var cases := Split(testCasesCode, '\n');
    var all := head + cases + tail;
    WrappedGradeProblemJoin(problemNum, testCasesCode, funcName, pointsVar);
    GradeWrapperNoBreaks(problemNum, funcName, pointsVar);
    NoBreaksConcat(head, cases, tail);
    SplitJoin(all, '\n');
  }

  /** The wrapper joins its fixed lines and the test cases' own lines. */
  lemma WrappedGradeProblemJoin(problemNum: string, testCasesCode: string, funcName: string, pointsVar: string)
    ensures WrappedGradeProblem(problemNum, testCasesCode, funcName, pointsVar) ==
      Join(GradeWrapperHead(problemNum) + Split(testCasesCode, '\n') + GradeWrapperTail(problemNum, funcName, pointsVar), '\n')
  {
    var head := GradeWrapperHead(problemNum);
    var tail := GradeWrapperTail(problemNum, funcName, pointsVar);
    var cases := Split(testCasesCode, '\n');
    JoinAppend(head + [testCasesCode], tail, '\n');
    JoinSnoc(head, testCasesCode, '\n');
    JoinSplit(testCasesCode, '\n');
    JoinAppend(head, cases, '\n');
    JoinAppend(head + cases, tail, '\n');
  }

  lemma GradeWrapperNoBreaks(problemNum: string, funcName: string, pointsVar: string)
    requires '\n' !in problemNum && '\n' !in funcName && '\n' !in pointsVar
    ensures NoBreaks(GradeWrapperHead(problemNum)) && NoBreaks(GradeWrapperTail(problemNum, funcName, pointsVar))
  {
    var head := GradeWrapperHead(problemNum);
    var tail := GradeWrapperTail(problemNum, funcName, pointsVar);
    assert '\n' !in head[0];
    assert '\n' !in head[1];
    assert '\n' !in tail[0];
    assert '\n' !in tail[1];
    assert '\n' !in tail[2];
    assert '\n' !in tail[3];
    assert '\n' !in tail[4];
  }

  /** No line of `lines` contains a line break. */
  predicate NoBreaks(lines: seq<string>) {
    forall k :: 0 <= k < |lines| ==> '\n' !in lines[k]
  }

  lemma NoBreaksConcat(a: seq<string>, b: seq<string>, c: seq<string>)
    requires NoBreaks(a) && NoBreaks(b) && NoBreaks(c)
    ensures NoBreaks(a + b + c)
  {
    var all := a + b + c;
    forall k | 0 <= k < |all| ensures '\n' !in all[k] {
      if k < |a| {
        assert all[k] == a[k];
      } else if k < |a| + |b| {
        assert all[k] == b[k - |a|];
      } else {
        assert all[k] == c[k - |a| - |b|];
      }
    }
  }

  /** The text of the wrapper up to its call: `    try:` and the start of the next line. */
  const WrapperOpening: string := "    try:\n        section_score += "

  lemma WrapperOpeningShape()
    ensures 8 <= |WrapperOpening| <= 200 && HasPrefixAt(WrapperOpening, 4, "try:")
  {
    assert WrapperOpening == "    " + "try:" + "\n        section_score += ";
    PrefixAtConcat("    ", "try:", "\n        section_score += ");
  }

  /** The generated problem wrapper opens with `try:` and then the call `grade_problem(<n>,`. */
  lemma WrappedGradeProblemOpening(problemNum: string, testCasesCode: string, funcName: string, pointsVar: string)
    ensures HasPrefixAt(WrappedGradeProblem(problemNum, testCasesCode, funcName, pointsVar), 0, WrapperOpening + GradeCallText(problemNum))
  {
    var tail := GradeWrapperTail(problemNum, funcName, pointsVar);
    var rest := [testCasesCode] + tail;
    var sp := "        section_score += ";
    var call := GradeCallText(problemNum);
    var l2 := sp + call + " [";
    var j := Join(rest, '\n');
    var w := WrappedGradeProblem(problemNum, testCasesCode, funcName, pointsVar);
    assert w == "    try:" + ("\n" + (l2 + ("\n" + j))) by {
      assert GradeWrapperHead(problemNum) + [testCasesCode] + tail == ["    try:"] + ([l2] + rest);
      JoinCons("    try:", [l2] + rest, '\n');
      JoinCons(l2, rest, '\n');
    }
    assert w == WrapperOpening + call + (" [" + ("\n" + j)) by {
      assert "    try:" + ("\n" + sp) == WrapperOpening;
      OpeningRegroup("    try:", "\n", sp, call, " [", "\n" + j);
    }
    PrefixAtConcat([], WrapperOpening + call, " [" + ("\n" + j));
  }

  lemma OpeningRegroup(a: string, b: string, c: string, d: string, e: string, f: string)
    ensures a + (b + (c + d + e + f)) == (a + (b + c)) + d + (e + f)
  {
  }

  /** No character of a call match after its first is a `g`, so no match starts inside another. */
  lemma GradeMatchHasNoInnerG(s: string, j: nat, p: nat)
    requires j <= |s| && MatchAt(GradePattern, s, j).Some?
    requires j < p < MatchAt(GradePattern, s, j).value.end
    ensures s[p] != 'g'
  {
    var a := RunEnd(s, j + 13, IsSpace);
    var b := RunEnd(s, a + 1, IsSpace);
    var c := RunEnd(s, b, IsAsciiDigit);
    var d := RunEnd(s, c, IsSpace);
    assert MatchAt(GradePattern, s, j).value.end == d + 1;
    if p < j + 13 {
      var w := "grade_problem";
      assert s[j..j + 13] == w;
      assert s[p] == w[p - j];
      assert forall i :: 1 <= i < 13 ==> w[i] != 'g';
    }
  }

  /** A call match at a `g` is reported by `re.finditer` with its own start and group. */
  lemma ReportedAt(code: string, start: nat) returns (k: nat)
    requires start < |code| && code[start] == 'g' && MatchAt(GradePattern, code, start).Some?
    ensures k < |FindAll(GradePattern, code)|
    ensures FindAll(GradePattern, code)[k].start == start
    ensures FindAll(GradePattern, code)[k].group == MatchAt(GradePattern, code, start).value.group
  {
    var m := Scanner(GradePattern, code);
    ScannerConsistent(GradePattern, code);
    var ms := Matches(m, |code|, 0);
    assert ms == FindAll(GradePattern, code);
    assert m(start) == MatchAt(GradePattern, code, start);
    MatchesComplete(m, |code|, 0, start);
    MatchesSound(m, |code|, 0);
    k :| 0 <= k < |ms| && ms[k].start <= start < ms[k].end;
    assert m(ms[k].start) == MatchAt(GradePattern, code, ms[k].start);
    if ms[k].start < start {
      GradeMatchHasNoInnerG(code, ms[k].start, start);
      assert false;
    }
  }

  /** A call `grade_problem(<n>,` anywhere in the text is an entry of `grade_problem_calls`. */
  lemma CallListed(code: string, start: nat, problemNum: string)
    requires IsDigitWord(problemNum) && HasPrefixAt(code, start, GradeCallText(problemNum))
    ensures GradeCall(problemNum, LineOf(code, start), NeedsWrapping(code, start)) in GradeCalls(code)
  {
    GradeMatchPlain(code, start, problemNum);
    assert code[start] == 'g' by {
      assert code[start] == code[start..start + |GradeCallText(problemNum)|][0];
    }
    var k := ReportedAt(code, start);
    assert GradeCalls(code)[k] == CallOf(code, FindAll(GradePattern, code)[k]);
  }

  lemma GradeCallMatched(code: string, start: nat, problemNum: string)
    requires IsDigitWord(problemNum) && HasPrefixAt(code, start, GradeCallText(problemNum))
    ensures MatchAt(GradePattern, code, start) == Some(Hit(problemNum, start + |GradeCallText(problemNum)|))
  {
    GradeMatchPlain(code, start, problemNum);
  }

  lemma GuardedCallListed(code: string, start: nat, t: nat, problemNum: string)
    requires IsDigitWord(problemNum) && HasPrefixAt(code, start, GradeCallText(problemNum))
    requires HasPrefixAt(code, t, "try:") && WindowStart(start) <= t && t + 4 <= start
    ensures !NeedsWrapping(code, start)
    ensures GradeCall(problemNum, LineOf(code, start), false) in GradeCalls(code)
  {
    NeedsWrappingWindow(code, start);
    var listed := GradeCall(problemNum, LineOf(code, start), NeedsWrapping(code, start));
    CallListed(code, start, problemNum);
    assert listed == GradeCall(problemNum, LineOf(code, start), false);
  }

  /**
   * A call `grade_problem(<n>,` with a `try:` among the 200 characters
   * before it is recognised as a call of problem `n` and is not flagged.
   */
  lemma GuardedCallIsRecognised(code: string, start: nat, t: nat, problemNum: string)
    requires IsDigitWord(problemNum) && HasPrefixAt(code, start, GradeCallText(problemNum))
    requires HasPrefixAt(code, t, "try:") && WindowStart(start) <= t && t + 4 <= start
    ensures MatchAt(GradePattern, code, start) == Some(Hit(problemNum, start + |GradeCallText(problemNum)|))
    ensures !NeedsWrapping(code, start)
    ensures GradeCall(problemNum, LineOf(code, start), false) in GradeCalls(code)
  {
    GradeCallMatched(code, start, problemNum);
    GuardedCallListed(code, start, t, problemNum);
  }

  /** Where a text that opens like a generated wrapper, pasted into a text, puts its `try:` and its call. */
  lemma PastedOpeningLayout(pre: string, w: string, post: string, problemNum: string)
    requires HasPrefixAt(w, 0, WrapperOpening + GradeCallText(problemNum))
    ensures HasPrefixAt(pre + w + post, |pre| + |WrapperOpening|, GradeCallText(problemNum))
    ensures HasPrefixAt(pre + w + post, |pre| + 4, "try:")
    ensures WindowStart(|pre| + |WrapperOpening|) <= |pre| + 4 && |pre| + 8 <= |pre| + |WrapperOpening|
  {
    var code := pre + w + post;
    var call := GradeCallText(problemNum);
    var o := |WrapperOpening|;
    WrapperOpeningShape();
    assert w[..o + |call|] == WrapperOpening + call;
    assert code[|pre| + o..|pre| + o + |call|] == w[o..o + |call|] == (WrapperOpening + call)[o..];
    assert code[|pre| + 4..|pre| + 8] == w[4..8] == WrapperOpening[4..8] == "try:";
  }

  /** A text opening with `try:` and a call, pasted anywhere, has that call matched with its number. */
  lemma PastedCallMatched(pre: string, w: string, post: string, problemNum: string)
    requires IsDigitWord(problemNum) && HasPrefixAt(w, 0, WrapperOpening + GradeCallText(problemNum))
    ensures |pre| + |WrapperOpening| <= |pre + w + post|
    ensures MatchAt(GradePattern, pre + w + post, |pre| + |WrapperOpening|) ==
      Some(Hit(problemNum, |pre| + |WrapperOpening| + |GradeCallText(problemNum)|))
  {
    PastedOpeningLayout(pre, w, post, problemNum);
    GradeCallMatched(pre + w + post, |pre| + |WrapperOpening|, problemNum);
  }

  /** A text opening with `try:` and a call, pasted anywhere, has that call listed as needing no wrapping. */
  lemma PastedCallListed(pre: string, w: string, post: string, problemNum: string)
    requires IsDigitWord(problemNum) && HasPrefixAt(w, 0, WrapperOpening + GradeCallText(problemNum))
    ensures |pre| + |WrapperOpening| <= |pre + w + post|
    ensures !NeedsWrapping(pre + w + post, |pre| + |WrapperOpening|)
    ensures GradeCall(problemNum, LineOf(pre + w + post, |pre| + |WrapperOpening|), false) in GradeCalls(pre + w + post)
  {
    PastedOpeningLayout(pre, w, post, problemNum);
    GuardedCallListed(pre + w + post, |pre| + |WrapperOpening|, |pre| + 4, problemNum);
  }

  /**
   * A generated wrapper, pasted anywhere into harness source, contains a
   * call of its problem that the analysis recognises and does not flag:
   * its `try:` lies within the 200 characters before the call.
   */
  lemma WrappedCallIsRecognised(pre: string, problemNum: string, testCasesCode: string, funcName: string, pointsVar: string, post: string)
    requires IsDigitWord(problemNum)
    ensures var code := pre + WrappedGradeProblem(problemNum, testCasesCode, funcName, pointsVar) + post;
      var start := |pre| + |WrapperOpening|;
      start <= |code| &&
      MatchAt(GradePattern, code, start) == Some(Hit(problemNum, start + |GradeCallText(problemNum)|)) &&
      !NeedsWrapping(code, start) &&
      GradeCall(problemNum, LineOf(code, start), false) in GradeCalls(code)
  {
    var w := WrappedGradeProblem(problemNum, testCasesCode, funcName, pointsVar);
    WrappedGradeProblemOpening(problemNum, testCasesCode, funcName, pointsVar);
    PastedCallMatched(pre, w, post, problemNum);
    PastedCallListed(pre, w, post, problemNum);
  }

  /** The lines of the section wrapper; `section_code` is not used by the template. */
  function SectionWrapperLines(sectionName: string, expectedProblems: int): seq<string> {
    [ "    try:",
      "        " + sectionName + "_score = " + sectionName + "()",
      "    except Exception as e:",
      "        print(f\"ERROR in " + sectionName + ": {e}\")",
      "        " + sectionName + "_score = 0",
      "        # Ensure we have " + IntToString(expectedProblems) + " entries for this section",
      "        while len(points_by_problem) < " + IntToString(expectedProblems) + ":",
      "            points_by_problem.append(0.0)" ]
  }

  lemma SectionWrapperHeadNoBreaks(sectionName: string, expectedProblems: int)
    requires '\n' !in sectionName
    ensures forall k :: 0 <= k < 4 ==> '\n' !in SectionWrapperLines(sectionName, expectedProblems)[k]
  {
    var lines := SectionWrapperLines(sectionName, expectedProblems);
    assert '\n' !in lines[0];
    assert '\n' !in lines[1];
    assert '\n' !in lines[2];
    assert '\n' !in lines[3];
  }

  lemma SectionWrapperTailNoBreaks(sectionName: string, expectedProblems: int)
    requires '\n' !in sectionName
    ensures forall k :: 4 <= k < 8 ==> '\n' !in SectionWrapperLines(sectionName, expectedProblems)[k]
  {
    var lines := SectionWrapperLines(sectionName, expectedProblems);
    assert '\n' !in lines[4];
    assert '\n' !in lines[5];
    assert '\n' !in lines[6];
    assert '\n' !in lines[7];
  }

  /** `generate_wrapped_test_section(section_name, section_code, expected_problems)` */
  function WrappedTestSection(sectionName: string, sectionCode: string, expectedProblems: int): string {
    Join(SectionWrapperLines(sectionName, expectedProblems), '\n')
  }

  /**
   * The generated section wrapper has eight lines: the guarded call of the
   * section, a handler that reports the error and zeroes the section's
   * score, and a loop that appends `0.0` while fewer than `expectedProblems` entries exist.
   */
  lemma WrappedTestSectionLines(sectionName: string, sectionCode: string, expectedProblems: int)
    requires '\n' !in sectionName
    ensures var lines := Split(WrappedTestSection(sectionName, sectionCode, expectedProblems), '\n');
      && |lines| == 8
      && lines[0] == "    try:"
      && lines[1] == "        " + sectionName + "_score = " + sectionName + "()"
      && lines[2] == "    except Exception as e:"
      && lines[3] == "        print(f\"ERROR in " + sectionName + ": {e}\")"
      && lines[4] == "        " + sectionName + "_score = 0"
      && lines[5] == "        # Ensure we have " + IntToString(expectedProblems) + " entries for this section"
      && lines[6] == "        while len(points_by_problem) < " + IntToString(expectedProblems) + ":"
      && lines[7] == "            points_by_problem.append(0.0)"
  {
    var lines := SectionWrapperLines(sectionName, expectedProblems);
    SectionWrapperHeadNoBreaks(sectionName, expectedProblems);
    SectionWrapperTailNoBreaks(sectionName, expectedProblems);
    SplitJoin(lines, '\n');
  }
}
