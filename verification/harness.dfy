/**
 * The grading harness that is injected into every notebook, both as the
 * reusable template (AUTOGRADER_TEMPLATE.py) and as the live copy inside
 * config.py's AUTOGRADER_CODE.
 *
 * `grade_problem` runs a problem's test cases against the student's
 * function and appends the problem's score to the global list
 * `points_by_problem`; every call is wrapped so that a crash appends 0.0
 * instead; sections group problems; the top level turns the list into one
 * CSV record. Here the global list is the field `points` of a `Grader`
 * object, and student code is a total function that either returns a
 * value or raises (`Fault`).
 */
module Harness {
  import opened Common
  import opened Text
  import opened Csv

  /** What a call into student code (or a fixture) gives: a value, or a raised exception. */
  datatype Outcome<+T> = Value(value: T) | Fault

  /** One test case: the argument tuple and the expected result. */
  datatype TestCase<I, O> = TestCase(inputs: I, expected: O)

  /**
   * One wrapped `grade_problem` call as a section writes it: the test list
   * (building it may raise, e.g. a graph constructed inside the list), the
   * student's function and the maximum points.
   */
  datatype Problem<!I, O> = Problem(tests: Outcome<seq<TestCase<I, O>>>, candidate: I -> Outcome<O>, maxPoints: real)

  /** One statement of a section body: unguarded fixture code, or a wrapped problem. */
  datatype Step<!I, O> = Setup(raises: bool) | Graded(problem: Problem<I, O>)

  /** POINTS_PER_PROBLEM */
  const PointsPerProblem: real := 4.0

  /** The problem count the template pads to after a section-1 failure. */
  const Section1Problems: nat := 6

  // ---------------------------------------------------------------------
  // grade_problem
  // ---------------------------------------------------------------------

  /** A test passes when the call returns normally with a value equal to the expected one. */
  predicate Passes<I, O(==)>(t: TestCase<I, O>, f: I -> Outcome<O>) {
    f(t.inputs) == Value(t.expected)
  }

  /** The number of passing tests. */
  function PassedCount<I, O(==)>(tests: seq<TestCase<I, O>>, f: I -> Outcome<O>): (n: nat)
    ensures n <= |tests|
  {
    if tests == [] then 0
    else PassedCount(tests[..|tests| - 1], f) + (if Passes(tests[|tests| - 1], f) then 1 else 0)
  }

  /** `(passed / total) * max_points`, in exact arithmetic. */
  function ProblemScore(passed: nat, total: nat, maxPoints: real): real
    requires 0 < total
  {
    (passed as real / total as real) * maxPoints
  }

  lemma {:induction false} PassedCountAppend<I, O>(a: seq<TestCase<I, O>>, b: seq<TestCase<I, O>>, f: I -> Outcome<O>)
    ensures PassedCount(a + b, f) == PassedCount(a, f) + PassedCount(b, f)
    decreases |b|
  {
    if b == [] {
      assert a + b == a;
    } else {
      var init := b[..|b| - 1];
      assert (a + b)[..|a + b| - 1] == a + init;
      assert (a + b)[|a + b| - 1] == b[|b| - 1];
      PassedCountAppend(a, init, f);
    }
  }

  /** Every test passes exactly when the passed count reaches the number of tests. */
  lemma {:induction false} AllPassed<I, O>(tests: seq<TestCase<I, O>>, f: I -> Outcome<O>)
    ensures PassedCount(tests, f) == |tests| <==> forall k :: 0 <= k < |tests| ==> Passes(tests[k], f)
  {
    if tests != [] {
      var init := tests[..|tests| - 1];
      AllPassed(init, f);
      if PassedCount(tests, f) == |tests| {
        forall k | 0 <= k < |tests| ensures Passes(tests[k], f) {
          if k < |tests| - 1 {
            assert tests[k] == init[k];
          }
        }
      } else {
        if Passes(tests[|tests| - 1], f) {
          var k :| 0 <= k < |init| && !Passes(init[k], f);
          assert tests[k] == init[k];
        }
      }
    }
  }

  /**
   * A test whose call raises counts as failed and does not stop the
   * remaining tests: the tests before and after it are counted as usual.
   */
  lemma FaultedTestFails<I, O>(tests: seq<TestCase<I, O>>, f: I -> Outcome<O>, k: nat)
    requires k < |tests| && f(tests[k].inputs) == Fault
    ensures PassedCount(tests, f) == PassedCount(tests[..k], f) + PassedCount(tests[k + 1..], f)
    ensures PassedCount(tests, f) < |tests|
  {
    var pre, post := tests[..k], tests[k + 1..];
    assert tests == pre + [tests[k]] + post;
    PassedCountSkip(pre, tests[k], post, f);
    var a, b := PassedCount(pre, f), PassedCount(post, f);
    assert a <= |pre| && b <= |post| && |tests| == |pre| + 1 + |post|;
  }

  lemma PassedCountSkip<I, O>(pre: seq<TestCase<I, O>>, t: TestCase<I, O>, post: seq<TestCase<I, O>>, f: I -> Outcome<O>)
    requires !Passes(t, f)
    ensures PassedCount(pre + [t] + post, f) == PassedCount(pre, f) + PassedCount(post, f)
  {
    PassedCountAppend(pre + [t], post, f);
    assert (pre + [t])[..|pre|] == pre;
  }

  /** A score lies between 0 and the maximum, and reaches the maximum exactly when every test passed. */
  lemma ScoreBounds(passed: nat, total: nat, maxPoints: real)
    requires 0 < total && passed <= total && 0.0 <= maxPoints
    ensures 0.0 <= ProblemScore(passed, total, maxPoints) <= maxPoints
    ensures 0.0 < maxPoints ==> (ProblemScore(passed, total, maxPoints) == maxPoints <==> passed == total)
  {
    var q := passed as real / total as real;
    assert q * total as real == passed as real;
    assert 0.0 <= q <= 1.0;
    assert q * maxPoints <= 1.0 * maxPoints;
    if passed == total {
      assert q == 1.0;
    } else {
      assert q < 1.0;
      if 0.0 < maxPoints {
        assert q * maxPoints < 1.0 * maxPoints;
      }
    }
  }

  /** The worked example: `add` against `[((2, 3), 5), ((0, 0), 1)]` for 4 points scores 2. */
  lemma AddExample(tests: seq<TestCase<(int, int), int>>, add: ((int, int)) -> Outcome<int>)
    requires tests == [TestCase((2, 3), 5), TestCase((0, 0), 1)]
    requires forall a: int, b: int :: add((a, b)) == Value(a + b)
    ensures PassedCount(tests, add) == 1
    ensures ProblemScore(PassedCount(tests, add), |tests|, PointsPerProblem) == 2.0
  {
    assert tests[..1] == [TestCase((2, 3), 5)];
    assert tests[..1][..0] == [];
    assert add((2, 3)) == Value(5);
    assert add((0, 0)) == Value(0);
  }

  // ---------------------------------------------------------------------
  // Problems and sections
  // ---------------------------------------------------------------------

  /** The entry a wrapped problem appends: its score, or 0.0 when it crashed. */
  function ProblemEntry<I, O(==)>(p: Problem<I, O>): real {
    match p.tests
    case Fault => 0.0
    case Value(tests) =>
      // an empty test list divides by zero before anything is appended
      if |tests| == 0 then 0.0 else ProblemScore(PassedCount(tests, p.candidate), |tests|, p.maxPoints)
  }

  /** The entries of the wrapped problems among `steps`, in order. */
  function GradedEntries<I, O(==)>(steps: seq<Step<I, O>>): (entries: seq<real>)
    ensures |entries| <= |steps|
  {
    if steps == [] then []
    else
      GradedEntries(steps[..|steps| - 1]) +
      match steps[|steps| - 1]
      case Setup(_) => []
      case Graded(p) => [ProblemEntry(p)]
  }

  predicate NoRaise<I, O>(steps: seq<Step<I, O>>) {
    forall k :: 0 <= k < |steps| ==> !(steps[k].Setup? && steps[k].raises)
  }

  /** The position of the first fixture statement that raises, or `|steps|`. */
  function FirstRaise<I, O>(steps: seq<Step<I, O>>): (k: nat)
    ensures k <= |steps| && NoRaise(steps[..k])
    ensures k < |steps| ==> steps[k].Setup? && steps[k].raises
  {
    if steps == [] then 0
    else if steps[0].Setup? && steps[0].raises then 0
    else
      var k := 1 + FirstRaise(steps[1..]);
      assert forall j :: 1 <= j < k ==> steps[..k][j] == steps[1..][..k - 1][j - 1];
      k
  }

  /** The entries a section appends: those of the problems before its first raising fixture. */
  function SectionEntries<I, O(==)>(steps: seq<Step<I, O>>): seq<real> {
    GradedEntries(steps[..FirstRaise(steps)])
  }

  function Sum(xs: seq<real>): real {
    if xs == [] then 0.0 else Sum(xs[..|xs| - 1]) + xs[|xs| - 1]
  }

  lemma {:induction false} SumAppend(a: seq<real>, b: seq<real>)
    ensures Sum(a + b) == Sum(a) + Sum(b)
    decreases |b|
  {
    if b != [] {
      assert (a + b)[..|a + b| - 1] == a + b[..|b| - 1];
      SumAppend(a, b[..|b| - 1]);
    } else {
      assert a + b == a;
    }
  }

  /** What a section returns: the sum of its entries, or a fault escaping from a fixture. */
  function SectionResult<I, O(==)>(steps: seq<Step<I, O>>): Outcome<real> {
    if FirstRaise(steps) < |steps| then Fault else Value(Sum(GradedEntries(steps)))
  }

  /**
   * The shape of config.py's sections: before each wrapped problem, fixture
   * code (graph construction) that runs without a guard.
   */
  function Interleave<I, O>(fixturesRaise: seq<bool>, problems: seq<Problem<I, O>>): (steps: seq<Step<I, O>>)
    requires |fixturesRaise| == |problems|
    ensures |steps| == 2 * |problems|
    ensures forall j :: 0 <= j < |steps| ==>
      steps[j] == if j % 2 == 0 then Setup(fixturesRaise[j / 2]) else Graded(problems[j / 2])
  {
    if problems == [] then []
    else
      var n := |problems| - 1;
      var init := Interleave(fixturesRaise[..n], problems[..n]);
      init + [Setup(fixturesRaise[n]), Graded(problems[n])]
  }

  /** The index of the first fixture that raises, or the number of fixtures. */
  function FirstTrue(bs: seq<bool>): (j: nat)
    ensures j <= |bs| && (forall k :: 0 <= k < j ==> !bs[k]) && (j < |bs| ==> bs[j])
  {
    if bs == [] then 0 else if bs[0] then 0 else 1 + FirstTrue(bs[1..])
  }

  function Entries<I, O(==)>(problems: seq<Problem<I, O>>): (r: seq<real>)
    ensures |r| == |problems| && forall k :: 0 <= k < |problems| ==> r[k] == ProblemEntry(problems[k])
  {
    seq(|problems|, k requires 0 <= k < |problems| => ProblemEntry(problems[k]))
  }

  lemma {:induction false} GradedEntriesAppend<I, O>(a: seq<Step<I, O>>, b: seq<Step<I, O>>)
    ensures GradedEntries(a + b) == GradedEntries(a) + GradedEntries(b)
    decreases |b|
  {
    if b == [] {
      assert a + b == a;
    } else {
      assert (a + b)[..|a + b| - 1] == a + b[..|b| - 1];
      assert (a + b)[|a + b| - 1] == b[|b| - 1];
      GradedEntriesAppend(a, b[..|b| - 1]);
    }
  }

  /** A fixture followed by a wrapped problem appends that problem's entry. */
  lemma PairEntries<I, O>(raises: bool, p: Problem<I, O>)
    ensures GradedEntries([Setup(raises), Graded(p)]) == [ProblemEntry(p)]
  {
    var pair: seq<Step<I, O>> := [Setup(raises), Graded(p)];
    assert pair[..1] == [Setup(raises)];
    assert pair[..1][..0] == [];
  }

  /** One more problem adds its entry at the end. */
  lemma EntriesSnoc<I, O>(problems: seq<Problem<I, O>>)
    requires problems != []
    ensures Entries(problems) == Entries(problems[..|problems| - 1]) + [ProblemEntry(problems[|problems| - 1])]
  {
  }

  /** With no fixture raising, a section appends one entry per problem, in order. */
  lemma {:induction false} InterleaveEntries<I, O>(fixturesRaise: seq<bool>, problems: seq<Problem<I, O>>)
    requires |fixturesRaise| == |problems|
    ensures GradedEntries(Interleave(fixturesRaise, problems)) == Entries(problems)
  {
    if problems != [] {
      var n := |problems| - 1;
      var init := Interleave(fixturesRaise[..n], problems[..n]);
      var pair: seq<Step<I, O>> := [Setup(fixturesRaise[n]), Graded(problems[n])];
      assert Interleave(fixturesRaise, problems) == init + pair;
      InterleaveEntries(fixturesRaise[..n], problems[..n]);
      GradedEntriesAppend(init, pair);
      PairEntries(fixturesRaise[n], problems[n]);
      EntriesSnoc(problems);
    }
  }

  /**
   * A section shaped like config.py's appends the entries of the problems
   * before the first raising fixture and then faults; when no fixture
   * raises it appends one entry per problem and returns their sum.
   */
  lemma InterleaveSection<I, O>(fixturesRaise: seq<bool>, problems: seq<Problem<I, O>>)
    requires |fixturesRaise| == |problems|
    ensures var steps := Interleave(fixturesRaise, problems);
      var j := FirstTrue(fixturesRaise);
      && SectionEntries(steps) == Entries(problems)[..j]
      && SectionResult(steps) == if j < |problems| then Fault else Value(Sum(Entries(problems)))
  {
    var steps := Interleave(fixturesRaise, problems);
    var j := FirstTrue(fixturesRaise);
    InterleaveFirstRaise(fixturesRaise, problems);
    assert SectionEntries(steps) == Entries(problems)[..j] by {
      InterleavePrefix(fixturesRaise, problems, j);
      InterleaveEntries(fixturesRaise[..j], problems[..j]);
      assert Entries(problems[..j]) == Entries(problems)[..j];
    }
    if j == |problems| {
      assert GradedEntries(steps) == Entries(problems) by {
        InterleaveEntries(fixturesRaise, problems);
      }
    }
  }

  /** The first raising statement is the one every earlier statement and no later position contradicts. */
  lemma FirstRaiseIs<I, O>(steps: seq<Step<I, O>>, m: nat)
    requires m <= |steps| && NoRaise(steps[..m]) && (m < |steps| ==> steps[m].Setup? && steps[m].raises)
    ensures FirstRaise(steps) == m
  {
  }

  lemma InterleaveFirstRaise<I, O>(fixturesRaise: seq<bool>, problems: seq<Problem<I, O>>)
    requires |fixturesRaise| == |problems|
    ensures FirstRaise(Interleave(fixturesRaise, problems)) == 2 * FirstTrue(fixturesRaise)
  {
    var steps := Interleave(fixturesRaise, problems);
    var j := FirstTrue(fixturesRaise);
    assert NoRaise(steps[..2 * j]) by {
      forall i | 0 <= i < 2 * j ensures !(steps[..2 * j][i].Setup? && steps[..2 * j][i].raises) {
        assert steps[..2 * j][i] == steps[i];
        assert i / 2 < j;
        assert !fixturesRaise[i / 2];
      }
    }
    if j < |problems| {
      assert steps[2 * j] == Setup(fixturesRaise[j]);
    }
    FirstRaiseIs(steps, 2 * j);
  }

  lemma InterleavePrefix<I, O>(fixturesRaise: seq<bool>, problems: seq<Problem<I, O>>, j: nat)
    requires |fixturesRaise| == |problems| && j <= |problems|
    ensures Interleave(fixturesRaise, problems)[..2 * j] == Interleave(fixturesRaise[..j], problems[..j])
  {
    var a := Interleave(fixturesRaise, problems)[..2 * j];
    var b := Interleave(fixturesRaise[..j], problems[..j]);
    assert |a| == |b|;
    forall i | 0 <= i < |a| ensures a[i] == b[i] {
      assert i / 2 < j;
    }
  }

  // ---------------------------------------------------------------------
  // Padding, truncation and the CSV record
  // ---------------------------------------------------------------------

  function Zeros(n: nat): (r: seq<real>)
    ensures |r| == n && forall k :: 0 <= k < n ==> r[k] == 0.0
  {
    seq(n, _ => 0.0)
  }

  /** `while len(xs) < n: xs.append(0.0)` */
  function Padded(xs: seq<real>, n: nat): (r: seq<real>)
    ensures |r| == if |xs| < n then n else |xs|
    ensures r[..|xs|] == xs
    ensures forall k :: |xs| <= k < |r| ==> r[k] == 0.0
  {
    if |xs| < n then xs + Zeros(n - |xs|) else xs
  }

  /** Padding followed by `xs[:n]`. */
  function FitTo(xs: seq<real>, n: nat): (r: seq<real>)
    ensures |r| == n
    ensures forall k :: 0 <= k < n && k < |xs| ==> r[k] == xs[k]
    ensures forall k :: |xs| <= k < n ==> r[k] == 0.0
  {
    var p := Padded(xs, n);
    assert forall k :: 0 <= k < |xs| ==> p[k] == p[..|xs|][k];
    p[..n]
  }

  /** Fitting is idempotent, and a list already of the target length is left as it is. */
  lemma FitToStable(xs: seq<real>, n: nat)
    ensures FitTo(FitTo(xs, n), n) == FitTo(xs, n)
    ensures |xs| == n ==> FitTo(xs, n) == xs
  {
  }

  /** Python's `int(x)`: truncation toward zero. */
  function Trunc(x: real): int {
    if x >= 0.0 then x.Floor else -((-x).Floor)
  }

  /** On the non-negative scores `int` is the floor: it never rounds up. */
  lemma TruncOfScore(x: real, maxPoints: real)
    requires 0.0 <= x <= maxPoints
    ensures Trunc(x) == x.Floor && 0 <= Trunc(x) <= maxPoints.Floor
    ensures Trunc(x) as real <= x < Trunc(x) as real + 1.0
  {
  }

  /** `str(int(score))` for every score. */
  function ScoreFields(scores: seq<real>): (r: seq<string>)
    ensures |r| == |scores|
    ensures forall k :: 0 <= k < |r| ==> r[k] == IntToString(Trunc(scores[k])) && ',' !in r[k]
  {
    seq(|scores|, k requires 0 <= k < |scores| => IntToString(Trunc(scores[k])))
  }

  /** `str(first_name)` etc., or "Unknown" for all three when any of them is undefined. */
  function ResolveIdentity(first: Option<string>, last: Option<string>, id: Option<string>): Identity {
    if first.Some? && last.Some? && id.Some? then Identity(first.value, last.value, id.value)
    else UnknownIdentity
  }

  // ---------------------------------------------------------------------
  // The template's top level
  // ---------------------------------------------------------------------

  /** The list after a section guarded as in the template: on a fault it is padded to `pad`. */
  function AfterSection<I, O(==)>(before: seq<real>, steps: seq<Step<I, O>>, pad: nat): seq<real> {
    var entries := before + SectionEntries(steps);
    if SectionResult(steps).Fault? then Padded(entries, pad) else entries
  }

  /** What a guarded section adds to the total: its score, or 0 when it faulted. */
  function Contribution<I, O(==)>(steps: seq<Step<I, O>>): real {
    match SectionResult(steps)
    case Value(v) => v
    case Fault => 0.0
  }

  /** The score list the template prints. */
  function TemplateScores<I, O(==)>(section1: seq<Step<I, O>>, section2: seq<Step<I, O>>): (r: seq<real>)
    ensures |r| == ProblemCount
  {
    FitTo(AfterSection(AfterSection([], section1, Section1Problems), section2, ProblemCount), ProblemCount)
  }

  /**
   * After a section-1 fault the list holds what section 1 appended followed
   * by zeros up to position 6, and that part survives to the printed record.
   */
  lemma TemplateSection1Fault<I, O>(section1: seq<Step<I, O>>, section2: seq<Step<I, O>>)
    requires SectionResult(section1) == Fault
    ensures Contribution(section1) == 0.0
    ensures var n := |SectionEntries(section1)|;
      && (forall k :: 0 <= k < n && k < ProblemCount ==> TemplateScores(section1, section2)[k] == SectionEntries(section1)[k])
      && (forall k :: n <= k < Section1Problems ==> TemplateScores(section1, section2)[k] == 0.0)
  {
    var a1 := AfterSection([], section1, Section1Problems);
    var a2 := AfterSection(a1, section2, ProblemCount);
    assert [] + SectionEntries(section1) == SectionEntries(section1);
    assert a2[..|a1|] == a1 by {
      var e := a1 + SectionEntries(section2);
      assert e[..|a1|] == a1;
      if SectionResult(section2).Fault? {
        assert Padded(e, ProblemCount)[..|e|] == e;
        assert Padded(e, ProblemCount)[..|a1|] == e[..|a1|];
      }
    }
    var n := |SectionEntries(section1)|;
    forall k | n <= k < Section1Problems
      ensures TemplateScores(section1, section2)[k] == 0.0
    {
      assert a1[k] == 0.0;
      assert a2[k] == a2[..|a1|][k];
    }
    forall k | 0 <= k < n && k < ProblemCount
      ensures TemplateScores(section1, section2)[k] == SectionEntries(section1)[k]
    {
      assert a1[k] == a1[..n][k];
      assert a2[k] == a2[..|a1|][k];
    }
  }

  /**
   * After a section-2 fault the list is at least 12 long, everything before
   * section 2 is kept, and what section 2 appended is followed by zeros.
   */
  lemma TemplateSection2Fault<I, O>(section1: seq<Step<I, O>>, section2: seq<Step<I, O>>)
    requires SectionResult(section2) == Fault
    ensures Contribution(section2) == 0.0
    ensures var a1 := AfterSection([], section1, Section1Problems);
      var e := a1 + SectionEntries(section2);
      && (forall k :: 0 <= k < |e| && k < ProblemCount ==> TemplateScores(section1, section2)[k] == e[k])
      && (forall k :: |e| <= k < ProblemCount ==> TemplateScores(section1, section2)[k] == 0.0)
  {
  }

  /** When both sections complete with six entries each, the record shows exactly those twelve. */
  lemma TemplateNoFault<I, O>(section1: seq<Step<I, O>>, section2: seq<Step<I, O>>)
    requires SectionResult(section1).Value? && SectionResult(section2).Value?
    requires |SectionEntries(section1)| == 6 && |SectionEntries(section2)| == 6
    ensures TemplateScores(section1, section2) == SectionEntries(section1) + SectionEntries(section2)
    ensures Contribution(section1) + Contribution(section2) == Sum(TemplateScores(section1, section2))
  {
    var e1 := SectionEntries(section1);
    var e2 := SectionEntries(section2);
    assert e1 == GradedEntries(section1) by {
      assert section1[..|section1|] == section1;
    }
    assert e2 == GradedEntries(section2) by {
      assert section2[..|section2|] == section2;
    }
    assert AfterSection([], section1, Section1Problems) == e1 by {
      assert [] + e1 == e1;
    }
    assert AfterSection(e1, section2, ProblemCount) == e1 + e2;
    assert TemplateScores(section1, section2) == e1 + e2 by {
      FitToStable(e1 + e2, ProblemCount);
    }
    assert Contribution(section1) == Sum(e1);
    assert Contribution(section2) == Sum(e2);
    SumAppend(e1, e2);
  }

  /** The printed record has the identity columns, twelve score columns and the total. */
  lemma TemplateRecordColumns<I, O>(section1: seq<Step<I, O>>, section2: seq<Step<I, O>>, who: Identity, total: string)
    requires IdentityCommaFree(who) && ',' !in total
    ensures var line := Record(who, ScoreFields(TemplateScores(section1, section2)), total);
      Split(line, ',') == [who.first, who.last, who.id] + ScoreFields(TemplateScores(section1, section2)) + [total] &&
      |Split(line, ',')| == 3 + ProblemCount + 1
  {
    RecordColumns(who, ScoreFields(TemplateScores(section1, section2)), total);
  }

  // ---------------------------------------------------------------------
  // config.py's top level
  // ---------------------------------------------------------------------

  /** The list config.py prints: a fixture fault in the first section skips the second. */
  function ConfigScores<I, O(==)>(al: seq<Step<I, O>>, am: seq<Step<I, O>>): seq<real> {
    SectionEntries(al) + (if SectionResult(al).Fault? then [] else SectionEntries(am))
  }

  /**
   * The handler's output: the zero record, or nothing when the student's
   * names are undefined (the handler's own `str(first_name)` raises again).
   */
  function ConfigFallback(first: Option<string>, last: Option<string>, id: Option<string>): Option<string> {
    if first.Some? && last.Some? && id.Some? then Some(ZeroRow(Identity(first.value, last.value, id.value)))
    else None
  }

  /** The sum of both sections' scores, or the fault that ends the `try` body. */
  function ConfigTotal<I, O(==)>(al: seq<Step<I, O>>, am: seq<Step<I, O>>): Outcome<real> {
    if SectionResult(al).Fault? || SectionResult(am).Fault? then Fault
    else Value(SectionResult(al).value + SectionResult(am).value)
  }

  /** The line config.py prints, if any. */
  function ConfigOutput<I, O(==)>(al: seq<Step<I, O>>, am: seq<Step<I, O>>,
                                  first: Option<string>, last: Option<string>, id: Option<string>,
                                  format2: real -> string): Option<string>
  {
    if ConfigTotal(al, am).Fault? || !(first.Some? && last.Some? && id.Some?) then
      ConfigFallback(first, last, id)
    else
      Some(Record(Identity(first.value, last.value, id.value), ScoreFields(ConfigScores(al, am)),
                  format2(ConfigTotal(al, am).value)))
  }

  /**
   * With fixtures that build and defined names, config.py prints the twelve
   * problem entries and their sum as total; a fixture fault anywhere gives
   * the all-zero record instead.
   */
  lemma ConfigRecord<I, O>(alFixtures: seq<bool>, alProblems: seq<Problem<I, O>>,
                           amFixtures: seq<bool>, amProblems: seq<Problem<I, O>>,
                           who: Identity, format2: real -> string)
    requires |alFixtures| == |alProblems| == 6 && |amFixtures| == |amProblems| == 6
    ensures var al := Interleave(alFixtures, alProblems);
      var am := Interleave(amFixtures, amProblems);
      var out := ConfigOutput(al, am, Some(who.first), Some(who.last), Some(who.id), format2);
      var builds := FirstTrue(alFixtures) == 6 && FirstTrue(amFixtures) == 6;
      && (builds ==>
            && ConfigScores(al, am) == Entries(alProblems) + Entries(amProblems)
            && |ConfigScores(al, am)| == ProblemCount
            && out == Some(Record(who, ScoreFields(Entries(alProblems) + Entries(amProblems)),
                                  format2(Sum(Entries(alProblems) + Entries(amProblems))))))
      && (!builds ==> out == Some(ZeroRow(who)))
  {
    var al := Interleave(alFixtures, alProblems);
    var am := Interleave(amFixtures, amProblems);
    var ea, em := Entries(alProblems), Entries(amProblems);
    InterleaveSection(alFixtures, alProblems);
    InterleaveSection(amFixtures, amProblems);
    if FirstTrue(alFixtures) == 6 && FirstTrue(amFixtures) == 6 {
      assert SectionEntries(al) == ea by {
        assert ea[..6] == ea;
      }
      assert SectionEntries(am) == em by {
        assert em[..6] == em;
      }
      assert ConfigScores(al, am) == ea + em;
      assert SectionResult(al).value + SectionResult(am).value == Sum(ea + em) by {
        SumAppend(ea, em);
      }
    } else {
      assert SectionResult(al).Fault? || SectionResult(am).Fault?;
    }
  }

  /** What one more statement of a section adds to the entries and to the absence of faults. */
  lemma GradedEntriesStep<I, O>(steps: seq<Step<I, O>>, i: nat)
    requires i < |steps|
    ensures steps[i].Setup? ==> GradedEntries(steps[..i + 1]) == GradedEntries(steps[..i])
    ensures steps[i].Graded? ==> GradedEntries(steps[..i + 1]) == GradedEntries(steps[..i]) + [ProblemEntry(steps[i].problem)]
    ensures NoRaise(steps[..i]) && !(steps[i].Setup? && steps[i].raises) ==> NoRaise(steps[..i + 1])
  {
    assert steps[..i + 1][..i] == steps[..i];
    assert GradedEntries(steps[..i]) + [] == GradedEntries(steps[..i]);
  }

  lemma SumSnoc(xs: seq<real>, x: real)
    ensures Sum(xs + [x]) == Sum(xs) + x
  {
    assert (xs + [x])[..|xs|] == xs;
  }

  // ---------------------------------------------------------------------
  // The harness state: `points_by_problem`
  // ---------------------------------------------------------------------

  class Grader<I, O(==)> {
    /** `points_by_problem` */
    var points: seq<real>

    constructor ()
      ensures points == []
    {
      points := [];
    }

    /**
     * `grade_problem`: runs every test, then appends and returns the score.
     * With no tests the division raises before anything is appended.
     */
    method GradeProblem(tests: seq<TestCase<I, O>>, candidate: I -> Outcome<O>, maxPoints: real) returns (r: Outcome<real>)
      modifies this
      ensures |tests| == 0 ==> r == Fault && points == old(points)
      ensures |tests| > 0 ==> r == Value(ProblemScore(PassedCount(tests, candidate), |tests|, maxPoints))
      ensures |tests| > 0 ==> points == old(points) + [r.value]
    {
      var passed: nat := 0;
      var i := 0;
      while i < |tests|
        invariant 0 <= i <= |tests|
        invariant passed == PassedCount(tests[..i], candidate)
      {
        var output := candidate(tests[i].inputs);
        if output == Value(tests[i].expected) {
          passed := passed + 1;
        }
        assert tests[..i + 1][..i] == tests[..i];
        i := i + 1;
      }
      assert tests[..i] == tests;
      if |tests| == 0 {
        return Fault;
      }
      var score := ProblemScore(passed, |tests|, maxPoints);
      points := points + [score];
      r := Value(score);
    }

    /** One `try: section_score += grade_problem(...) except: points_by_problem.append(0.0)`. */
    method RunProblem(p: Problem<I, O>) returns (gained: real)
      modifies this
      ensures points == old(points) + [ProblemEntry(p)]
      ensures gained == ProblemEntry(p)
    {
      match p.tests
      case Fault =>
        points := points + [0.0];
        gained := 0.0;
      case Value(tests) =>
        var r := GradeProblem(tests, p.candidate, p.maxPoints);
        match r
        case Value(score) =>
          gained := score;
        case Fault =>
          points := points + [0.0];
          gained := 0.0;
    }

    /** A section function: statements in order, summing what its problems return. */
    method RunSection(steps: seq<Step<I, O>>) returns (r: Outcome<real>)
      modifies this
      ensures points == old(points) + SectionEntries(steps)
      ensures r == SectionResult(steps)
    {
      var sectionScore := 0.0;
      for i := 0 to |steps|
        invariant NoRaise(steps[..i])
        invariant points == old(points) + GradedEntries(steps[..i])
        invariant sectionScore == Sum(GradedEntries(steps[..i]))
      {
        GradedEntriesStep(steps, i);
        match steps[i] {
          case Setup(raises) =>
            if raises {
              FirstRaiseIs(steps, i);
              return Fault;
            }
          case Graded(p) =>
            var gained := RunProblem(p);
            SumSnoc(GradedEntries(steps[..i]), gained);
            sectionScore := sectionScore + gained;
        }
      }
      assert steps[..|steps|] == steps;
      FirstRaiseIs(steps, |steps|);
      r := Value(sectionScore);
    }

    /** `while len(points_by_problem) < n: points_by_problem.append(0.0)` */
    method PadTo(n: nat)
      modifies this
      ensures points == Padded(old(points), n)
    {
      while |points| < n
        invariant |old(points)| <= |points|
        invariant |points| <= n || points == old(points)
        invariant points == old(points) + Zeros(|points| - |old(points)|)
        decreases n - |points|
      {
        points := points + [0.0];
      }
    }

    /** `try: score = section() except: pad` as the template's top level writes it. */
    method RunGuarded(steps: seq<Step<I, O>>, pad: nat) returns (score: real)
      modifies this
      ensures points == AfterSection(old(points), steps, pad)
      ensures score == Contribution(steps)
    {
      var r := RunSection(steps);
      match r {
        case Value(v) => score := v;
        case Fault =>
          PadTo(pad);
          score := 0.0;
      }
    }

    /** The template's top level: both sections guarded, padding, `[:12]`, the record. */
    method RunTemplate(section1: seq<Step<I, O>>, section2: seq<Step<I, O>>,
                       first: Option<string>, last: Option<string>, id: Option<string>,
                       format2: real -> string) returns (line: string)
      modifies this
      ensures points == TemplateScores(section1, section2)
      ensures line == Record(ResolveIdentity(first, last, id), ScoreFields(points),
                             format2(Contribution(section1) + Contribution(section2)))
    {
      points := [];
      var who := ResolveIdentity(first, last, id);
      var score1 := RunGuarded(section1, Section1Problems);
      var score2 := RunGuarded(section2, ProblemCount);
      PadTo(ProblemCount);
      points := points[..ProblemCount];
      line := Record(who, ScoreFields(points), format2(score1 + score2));
    }

    /** The body of config.py's `try`: both sections unguarded, so a fault in the first skips the second. */
    method RunSections(al: seq<Step<I, O>>, am: seq<Step<I, O>>) returns (total: Outcome<real>)
      modifies this
      ensures points == ConfigScores(al, am)
      ensures total == ConfigTotal(al, am)
    {
      points := [];
      var r1 := RunSection(al);
      if r1.Fault? {
        assert ConfigScores(al, am) == SectionEntries(al) + [];
        return Fault;
      }
      var r2 := RunSection(am);
      if r2.Fault? {
        return Fault;
      }
      total := Value(r1.value + r2.value);
    }

    /** config.py's top level: unguarded sections inside one try, the record or the zero record. */
    method RunConfig(al: seq<Step<I, O>>, am: seq<Step<I, O>>,
                     first: Option<string>, last: Option<string>, id: Option<string>,
                     format2: real -> string) returns (out: Option<string>)
      modifies this
      ensures points == ConfigScores(al, am)
      ensures out == ConfigOutput(al, am, first, last, id, format2)
    {
      var total := RunSections(al, am);
      if total.Fault? || !(first.Some? && last.Some? && id.Some?) {
        out := ConfigFallback(first, last, id);
      } else {
        out := Some(Record(Identity(first.value, last.value, id.value), ScoreFields(points), format2(total.value)));
      }
    }
  }
}
