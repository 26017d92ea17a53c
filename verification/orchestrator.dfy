/**
 * The batch driver (run_autograder.py): for every submitted notebook it
 * injects the harness cell, lets the notebook run, pulls the CSV record
 * out of the outputs and, when that fails, synthesises an all-zero record
 * from whatever identity it can find. Notebook execution and file access
 * are inputs here: an executed notebook arrives as its cells, and a file
 * that cannot be read as `None`.
 */
module Orchestrator {
  import opened Common
  import opened Text
  import opened Csv
  import opened Notebook

  // ---------------------------------------------------------------------
  // extract_username_from_filename
  // ---------------------------------------------------------------------

  /** The two regular expressions the file name is searched with. */
  datatype Pattern =
    | AttemptPattern  // _([a-zA-Z0-9]+)_attempt
    | PartPattern     // Part\s+I_([a-zA-Z0-9]+)_

  predicate AllAlnum(s: string) {
    forall k :: 0 <= k < |s| ==> IsAsciiAlnum(s[k])
  }

  /**
   * The group captured by a match of `p` starting exactly at `i`, if any.
   * Both repeated classes are followed by a character outside the class,
   * so only their longest run can lead to a match.
   */
  function MatchAt(p: Pattern, s: string, i: nat): (g: Option<string>)
    requires i <= |s|
    ensures g.Some? ==> |g.value| > 0 && AllAlnum(g.value)
  {
    match p
    case AttemptPattern =>
      if i < |s| && s[i] == '_' then
        var j := RunEnd(s, i + 1, IsAsciiAlnum);
        if i + 1 < j && HasPrefixAt(s, j, "_attempt") then Some(s[i + 1..j]) else None
      else None
    case PartPattern =>
      if HasPrefixAt(s, i, "Part") then
        var w := RunEnd(s, i + 4, IsSpace);
        if i + 4 < w && HasPrefixAt(s, w, "I_") then
          var j := RunEnd(s, w + 2, IsAsciiAlnum);
          if w + 2 < j && HasPrefixAt(s, j, "_") then Some(s[w + 2..j]) else None
        else None
      else None
  }

  /**
   * `_([a-zA-Z0-9]+)_attempt` matches at `i` capturing `g` exactly when the
   * text there is `_`, then `g` (letters and digits, at least one), then `_attempt`.
   */
  lemma AttemptMatchIff(s: string, i: nat, g: string)
    requires i <= |s|
    ensures MatchAt(AttemptPattern, s, i) == Some(g) <==> |g| > 0 && AllAlnum(g) && HasPrefixAt(s, i, "_" + g + "_attempt")
  {
    if |g| > 0 && AllAlnum(g) && HasPrefixAt(s, i, "_" + g + "_attempt") {
      AttemptMatchComplete(s, i, g);
    }
    if MatchAt(AttemptPattern, s, i) == Some(g) {
      AttemptMatchSound(s, i, g);
    }
  }

  lemma AttemptMatchSound(s: string, i: nat, g: string)
    requires i <= |s| && MatchAt(AttemptPattern, s, i) == Some(g)
    ensures HasPrefixAt(s, i, "_" + g + "_attempt")
  {
    var j := RunEnd(s, i + 1, IsAsciiAlnum);
    var w := "_" + g + "_attempt";
    assert s[i + 1..j] == g;
    assert s[j..j + 8] == "_attempt";
    assert s[i..i + |w|] == [s[i]] + s[i + 1..j] + s[j..j + 8];
  }

  lemma AttemptMatchComplete(s: string, i: nat, g: string)
    requires i <= |s| && |g| > 0 && AllAlnum(g) && HasPrefixAt(s, i, "_" + g + "_attempt")
    ensures MatchAt(AttemptPattern, s, i) == Some(g)
  {
    var w := "_" + g + "_attempt";
    var b := i + 1 + |g|;
    assert s[i..i + |w|] == w;
    assert s[i] == '_' by {
      assert s[i] == s[i..i + |w|][0];
    }
    assert s[i + 1..b] == g by {
      forall k | 0 <= k < |g| ensures s[i + 1 + k] == g[k] {
        assert s[i + 1 + k] == s[i..i + |w|][1 + k] == w[1 + k];
      }
    }
    assert s[b..b + 8] == "_attempt" by {
      assert s[b..b + 8] == s[i..i + |w|][1 + |g|..];
    }
    assert s[b] == '_' by {
      assert s[b] == s[b..b + 8][0];
    }
    forall k | i + 1 <= k < b ensures IsAsciiAlnum(s[k]) {
      assert s[k] == s[i + 1..b][k - i - 1];
    }
    RunEndAt(s, i + 1, b, IsAsciiAlnum);
  }

  /** The leftmost position at or after `from` where `p` matches, or `|s| + 1`. */
  function SearchFrom(p: Pattern, s: string, from: nat): (k: nat)
    requires from <= |s| + 1
    ensures from <= k <= |s| + 1
    ensures forall j :: from <= j < k ==> MatchAt(p, s, j).None?
    ensures k <= |s| ==> MatchAt(p, s, k).Some?
    decreases |s| + 1 - from
  {
    if from > |s| then from
    else if MatchAt(p, s, from).Some? then from
    else SearchFrom(p, s, from + 1)
  }

  /** `re.search(p, s)` followed by `.group(1)`. */
  function Search(p: Pattern, s: string): (g: Option<string>)
    ensures g.Some? ==> |g.value| > 0 && AllAlnum(g.value)
  {
    var k := SearchFrom(p, s, 0);
    if k <= |s| then MatchAt(p, s, k) else None
  }

  /** `re.search` finds the leftmost match: nothing at all only when no position matches. */
  lemma SearchIsLeftmost(p: Pattern, s: string, k: nat)
    requires k <= |s|
    ensures Search(p, s).None? <==> forall j :: 0 <= j <= |s| ==> MatchAt(p, s, j).None?
    ensures MatchAt(p, s, k).Some? && (forall j :: 0 <= j < k ==> MatchAt(p, s, j).None?) ==> Search(p, s) == MatchAt(p, s, k)
  {
    var m := SearchFrom(p, s, 0);
  }

  /** `str.isalnum()`, on ASCII text. */
  predicate IsAlnumWord(s: string) {
    |s| > 0 && AllAlnum(s)
  }

  /** `str.islower()`: some lower-case letter and no upper-case one (ASCII). */
  predicate IsLowerWord(s: string) {
    (exists k | 0 <= k < |s| :: IsAsciiLower(s[k])) && forall k :: 0 <= k < |s| ==> !IsAsciiUpper(s[k])
  }

  /** The fallback test on `parts[i]`: a lower-case word followed by `attempt` or a date-like part. */
  predicate IsCandidate(parts: seq<string>, i: nat)
    requires i < |parts|
  {
    && i > 0 && |parts[i]| > 0 && IsAlnumWord(parts[i]) && IsLowerWord(parts[i])
    && i + 1 < |parts|
    && (parts[i + 1] == "attempt" || (|parts[i + 1]| > 4 && IsDigitWord(RemoveAll(parts[i + 1], "-"))))
  }

  /** The first candidate position at or after `from`, or `|parts|`. */
  function FirstCandidate(parts: seq<string>, from: nat): (k: nat)
    requires from <= |parts|
    ensures from <= k <= |parts|
    ensures forall j :: from <= j < k ==> !IsCandidate(parts, j)
    ensures k < |parts| ==> IsCandidate(parts, k)
    decreases |parts| - from
  {
    if from == |parts| then from
    else if IsCandidate(parts, from) then from
    else FirstCandidate(parts, from + 1)
  }

  /** The username the last fallback finds among the underscore-separated parts. */
  function FallbackOf(parts: seq<string>): (u: Option<string>)
    ensures u.Some? ==> IsAlnumWord(u.value) && IsLowerWord(u.value)
  {
    var k := FirstCandidate(parts, 0);
    if k < |parts| then Some(parts[k]) else None
  }

  /** The file name without any `.ipynb`. */
  function BaseName(filename: string): string {
    RemoveAll(filename, ".ipynb")
  }

  /** The username extract_username_from_filename returns. */
  function UsernameOf(filename: string): Option<string> {
    var name := BaseName(filename);
    var first := Search(AttemptPattern, name);
    if first.Some? then first
    else
      var second := Search(PartPattern, name);
      if second.Some? then second else FallbackOf(Split(name, '_'))
  }

  /** Every username found is a non-empty run of letters and digits, so it is safe in a CSV column. */
  lemma UsernameShape(filename: string)
    requires UsernameOf(filename).Some?
    ensures var u := UsernameOf(filename).value;
      |u| > 0 && AllAlnum(u) && ',' !in u && '_' !in u
  {
    var u := UsernameOf(filename).value;
    assert AllAlnum(u);
  }

  /** The fallback loop over the underscore-separated parts. */
  method FallbackUsername(parts: seq<string>) returns (u: Option<string>)
    ensures u == FallbackOf(parts)
  {
    var i := 0;
    while i < |parts|
      invariant 0 <= i <= |parts|
      invariant FirstCandidate(parts, 0) >= i
    {
      var part := parts[i];
      if i > 0 && |part| > 0 && IsAlnumWord(part) && IsLowerWord(part) {
        if i + 1 < |parts| {
          var next := parts[i + 1];
          if next == "attempt" || (|next| > 4 && IsDigitWord(RemoveAll(next, "-"))) {
            assert IsCandidate(parts, i);
            return Some(part);
          }
        }
      }
      i := i + 1;
    }
    return None;
  }

  /** extract_username_from_filename */
  method ExtractUsername(filename: string) returns (u: Option<string>)
    ensures u == UsernameOf(filename)
  {
    var name := RemoveAll(filename, ".ipynb");
    var found := Search(AttemptPattern, name);
    if found.Some? {
      return found;
    }
    found := Search(PartPattern, name);
    if found.Some? {
      return found;
    }
    u := FallbackUsername(Split(name, '_'));
  }

  // ---------------------------------------------------------------------
  // add_autograder_cell
  // ---------------------------------------------------------------------

  /** The text that identifies an injected harness cell. */
  const Marker: string := "DO NOT MODIFY THE CODE BELOW"

  /** The cell that is appended: a code cell whose source is the code split into lines. */
  function HarnessCell(code: string): Cell {
    Cell("code", LineList(SplitLinesKeepEnds(code)), Some([]))
  }

  /** Some cell's source passes the marker test. */
  predicate HasMarker(cells: seq<Cell>) {
    exists k | 0 <= k < |cells| :: SourceHas(cells[k].source, Marker)
  }

  /**
   * The cells after add_autograder_cell. `None` stands for a notebook
   * without a `cells` list, on which appending fails.
   */
  function Inject(cells: Option<seq<Cell>>, code: string): Option<seq<Cell>> {
    match cells
    case None => None
    case Some(cs) => if HasMarker(cs) then Some(cs) else Some(cs + [HarnessCell(code)])
  }

  /**
   * Injection never alters or removes an existing cell, adds at most one
   * cell, and the added cell's lines join back into exactly the harness code.
   */
  lemma InjectKeepsCells(cs: seq<Cell>, code: string)
    ensures var r := Inject(Some(cs), code).value;
      && |cs| <= |r| <= |cs| + 1 && r[..|cs|] == cs
      && (|r| == |cs| <==> HasMarker(cs))
      && (|r| == |cs| + 1 ==> r[|cs|].cellType == "code" && SourceText(r[|cs|].source) == code)
  {
    SplitLinesRoundTrip(code);
    assert (cs + [HarnessCell(code)])[..|cs|] == cs;
  }

  /**
   * As written, the marker test on a list source compares whole lines with
   * the marker. A harness cell whose lines all differ from the bare marker
   * is therefore not recognised, and a second injection appends it again.
   */
  lemma InjectTwiceAppendsTwice(cs: seq<Cell>, code: string)
    requires !HasMarker(cs) && EndsInBreak(code)
    ensures Inject(Inject(Some(cs), code), code) == Some(cs + [HarnessCell(code), HarnessCell(code)])
  {
    MarkerIsNeverALine(code);
    var once := cs + [HarnessCell(code)];
    assert !HasMarker(once) by {
      forall k | 0 <= k < |once| ensures !SourceHas(once[k].source, Marker) {
        if k < |cs| {
          assert once[k] == cs[k];
        }
      }
    }
    assert once + [HarnessCell(code)] == cs + [HarnessCell(code), HarnessCell(code)];
  }

  /**
   * No line of a code text that ends in a line break equals the bare
   * marker, since every such line ends in a line break itself.
   */
  lemma MarkerIsNeverALine(code: string)
    requires EndsInBreak(code)
    ensures Marker !in SplitLinesKeepEnds(code)
  {
    LinesEndWithBreak(code);
    assert !IsLineBreak(Marker[|Marker| - 1]);
  }

  /** The marker test the batch driver evidently intends: a substring of the cell's text. */
  predicate HasMarkerText(cells: seq<Cell>) {
    exists k | 0 <= k < |cells| :: IsSubstring(Marker, SourceText(cells[k].source))
  }

  /** Injection with the marker searched in each cell's text. */
  function InjectByText(cells: Option<seq<Cell>>, code: string): Option<seq<Cell>> {
    match cells
    case None => None
    case Some(cs) => if HasMarkerText(cs) then Some(cs) else Some(cs + [HarnessCell(code)])
  }

  /** With the text test, injecting code that carries the marker is idempotent. */
  lemma InjectByTextIdempotent(cells: Option<seq<Cell>>, code: string)
    requires IsSubstring(Marker, code)
    ensures InjectByText(InjectByText(cells, code), code) == InjectByText(cells, code)
  {
    if cells.Some? && !HasMarkerText(cells.value) {
      var once := cells.value + [HarnessCell(code)];
      SplitLinesRoundTrip(code);
      assert SourceText(once[|once| - 1].source) == code;
      assert HasMarkerText(once);
    }
  }

  /** The notebook file add_autograder_cell reads and writes back. */
  class NotebookDoc {
    /** The `cells` list, or `None` when the notebook has none. */
    var cells: Option<seq<Cell>>

    constructor (cells: Option<seq<Cell>>)
      ensures this.cells == cells
    {
      this.cells := cells;
    }

    /** add_autograder_cell: true when the harness cell is present afterwards. */
    method AddHarnessCell(code: string) returns (ok: bool)
      modifies this
      ensures ok == old(cells).Some?
      ensures cells == Inject(old(cells), code)
    {
      var existing := if cells.Some? then cells.value else [];
      var i := 0;
      while i < |existing|
        invariant 0 <= i <= |existing|
        invariant forall k :: 0 <= k < i ==> !SourceHas(existing[k].source, Marker)
      {
        if SourceHas(existing[i].source, Marker) {
          return true;
        }
        i := i + 1;
      }
      if cells.None? {
        // notebook['cells'] raises KeyError
        return false;
      }
      cells := Some(existing + [HarnessCell(code)]);
      ok := true;
    }
  }

  // ---------------------------------------------------------------------
  // extract_csv_output
  // ---------------------------------------------------------------------

  /** The test a line must pass to be taken for the record: at least two commas. */
  predicate CsvLike(line: string) {
    ',' in line && Count(line, ',') >= 2
  }

  /** The first half of the test is implied by the second. */
  lemma CsvLikeIsTwoCommas(line: string)
    ensures CsvLike(line) <==> Count(line, ',') >= 2
  {
  }

  /** The lines that pass the test, in order. */
  function CsvLines(lines: seq<string>): (r: seq<string>)
    ensures |r| <= |lines|
    ensures forall k :: 0 <= k < |r| ==> CsvLike(r[k]) && r[k] in lines
  {
    if lines == [] then []
    else
      var init := CsvLines(lines[..|lines| - 1]);
      var last := lines[|lines| - 1];
      assert forall x :: x in init ==> x in lines;
      init + (if CsvLike(last) then [last] else [])
  }

  /** Every line that passes the test is a candidate, in order: the candidates are the lines at `Positions(lines, CsvLike)`. */
  lemma {:induction false} CsvLinesSelection(lines: seq<string>)
    ensures |CsvLines(lines)| == |Positions(lines, CsvLike)|
    ensures forall k :: 0 <= k < |CsvLines(lines)| ==> CsvLines(lines)[k] == lines[Positions(lines, CsvLike)[k]]
  {
    if lines != [] {
      var n := |lines| - 1;
      CsvLinesSelection(lines[..n]);
      var r, idx := CsvLines(lines), Positions(lines, CsvLike);
      var r0, idx0 := CsvLines(lines[..n]), Positions(lines[..n], CsvLike);
      assert |r| == |idx|;
      forall k | 0 <= k < |r| ensures r[k] == lines[idx[k]] {
        if k < |r0| {
          assert r[k] == r0[k] && idx[k] == idx0[k];
          assert lines[..n][idx0[k]] == lines[idx0[k]];
        }
      }
    }
  }

  /** The last candidate of a text is its last line with two commas or more. */
  lemma {:induction false} CsvLinesLast(lines: seq<string>, i: nat)
    requires i < |lines| && CsvLike(lines[i])
    requires forall j :: i < j < |lines| ==> !CsvLike(lines[j])
    ensures CsvLines(lines) != [] && CsvLines(lines)[|CsvLines(lines)| - 1] == lines[i]
  {
    var n := |lines| - 1;
    if i < n {
      forall j | i < j < n ensures !CsvLike(lines[..n][j]) {
        assert lines[..n][j] == lines[j];
      }
      assert lines[..n][i] == lines[i];
      CsvLinesLast(lines[..n], i);
    }
  }

  /** The record candidates one output offers. */
  function OutputCandidates(o: Output): (r: seq<string>)
    ensures forall k :: 0 <= k < |r| ==> CsvLike(r[k])
  {
    if o.outputType == Some("stream") && o.text.Some? then
      CsvLines(Split(Strip(o.text.value), '\n'))
    else if o.outputType == Some("execute_result") && o.data.Some? then
      if "text/plain" in o.data.value then
        var text := Strip(o.data.value["text/plain"]);
        if CsvLike(text) then [text] else []
      else []
    else []
  }

  function OutputsCandidates(outputs: seq<Output>): (r: seq<string>)
    ensures forall k :: 0 <= k < |r| ==> CsvLike(r[k])
  {
    if outputs == [] then []
    else OutputsCandidates(outputs[..|outputs| - 1]) + OutputCandidates(outputs[|outputs| - 1])
  }

  /** A cell's candidates: only code cells that have outputs are looked at. */
  function CellCandidates(c: Cell): (r: seq<string>)
    ensures forall k :: 0 <= k < |r| ==> CsvLike(r[k])
  {
    if c.cellType == "code" && c.outputs.Some? then OutputsCandidates(c.outputs.value) else []
  }

  function CellsCandidates(cells: seq<Cell>): (r: seq<string>)
    ensures forall k :: 0 <= k < |r| ==> CsvLike(r[k])
  {
    if cells == [] then []
    else CellsCandidates(cells[..|cells| - 1]) + CellCandidates(cells[|cells| - 1])
  }

  /** What extract_csv_output returns for a notebook's cells (`None`: unreadable). */
  function ExtractCsv(cells: Option<seq<Cell>>): Option<string> {
    match cells
    case None => None
    case Some(cs) => Latest(None, CellsCandidates(cs))
  }

  /**
   * The record taken is the last candidate of all outputs, it has at least
   * two commas, and there is none exactly when no output offers one.
   */
  lemma ExtractCsvMeaning(cs: seq<Cell>)
    ensures ExtractCsv(Some(cs)).None? <==> forall k :: 0 <= k < |cs| ==> CellCandidates(cs[k]) == []
    ensures ExtractCsv(Some(cs)).Some? ==> Count(ExtractCsv(Some(cs)).value, ',') >= 2
  {
    CellsCandidatesEmpty(cs);
  }

  lemma {:induction false} CellsCandidatesEmpty(cs: seq<Cell>)
    ensures CellsCandidates(cs) == [] <==> forall k :: 0 <= k < |cs| ==> CellCandidates(cs[k]) == []
  {
    if cs != [] {
      var init := cs[..|cs| - 1];
      CellsCandidatesEmpty(init);
      if CellsCandidates(cs) == [] {
        forall k | 0 <= k < |cs| ensures CellCandidates(cs[k]) == [] {
          if k < |cs| - 1 {
            assert cs[k] == init[k];
          }
        }
      } else if CellCandidates(cs[|cs| - 1]) == [] {
        var k :| 0 <= k < |init| && CellCandidates(init[k]) != [];
        assert cs[k] == init[k];
      }
    }
  }

  /** The candidates of a list of outputs: those of each output in turn. */
  lemma {:induction false} OutputsCandidatesFlat(outputs: seq<Output>)
    ensures OutputsCandidates(outputs) == FlatMap(outputs, OutputCandidates)
  {
    if outputs != [] {
      OutputsCandidatesFlat(outputs[..|outputs| - 1]);
    }
  }

  /** The candidates of a list of cells: those of each cell in turn. */
  lemma {:induction false} CellsCandidatesFlat(cells: seq<Cell>)
    ensures CellsCandidates(cells) == FlatMap(cells, CellCandidates)
  {
    if cells != [] {
      CellsCandidatesFlat(cells[..|cells| - 1]);
    }
  }

  /** Output `j` of cell `k` is looked at and offers a record candidate. */
  predicate OffersRecord(cells: seq<Cell>, k: int, j: int) {
    0 <= k < |cells| && cells[k].cellType == "code" && cells[k].outputs.Some?
    && 0 <= j < |cells[k].outputs.value| && OutputCandidates(cells[k].outputs.value[j]) != []
  }

  /**
   * The record taken is the last candidate of the latest output that offers
   * one, in cell-then-output order: outputs before it are overwritten, and
   * the lines of its own text are scanned in order.
   */
  lemma ExtractCsvIsLatest(cells: seq<Cell>, k: nat, j: nat)
    requires OffersRecord(cells, k, j)
    requires forall k2, j2 :: OffersRecord(cells, k2, j2) ==> !(k2 > k || (k2 == k && j2 > j))
    ensures var c := OutputCandidates(cells[k].outputs.value[j]);
      ExtractCsv(Some(cells)) == Some(c[|c| - 1])
  {
    var outputs := cells[k].outputs.value;
    forall k2 | k < k2 < |cells| ensures CellCandidates(cells[k2]) == [] {
      if cells[k2].cellType == "code" && cells[k2].outputs.Some? {
        var outs := cells[k2].outputs.value;
        forall j2 | 0 <= j2 < |outs| ensures OutputCandidates(outs[j2]) == [] {
          assert !OffersRecord(cells, k2, j2);
        }
        OutputsCandidatesFlat(outs);
        FlatMapEmpty(outs, OutputCandidates);
      }
    }
    forall j2 | j < j2 < |outputs| ensures OutputCandidates(outputs[j2]) == [] {
      assert !OffersRecord(cells, k, j2);
    }
    CellsCandidatesFlat(cells);
    FlatMapEndsWith(cells, CellCandidates, k);
    OutputsCandidatesFlat(outputs);
    FlatMapEndsWith(outputs, OutputCandidates, j);
  }

  /**
   * For a printed record: when the latest offering output is a stream, the
   * record taken is the last line of its stripped text with two commas or
   * more.
   */
  lemma ExtractCsvIsLastPrintedLine(cells: seq<Cell>, k: nat, j: nat, i: nat)
    requires OffersRecord(cells, k, j)
    requires forall k2, j2 :: OffersRecord(cells, k2, j2) ==> !(k2 > k || (k2 == k && j2 > j))
    requires var o := cells[k].outputs.value[j]; o.outputType == Some("stream") && o.text.Some?
    requires var lines := Split(Strip(cells[k].outputs.value[j].text.value), '\n');
      i < |lines| && CsvLike(lines[i]) && forall l :: i < l < |lines| ==> !CsvLike(lines[l])
    ensures ExtractCsv(Some(cells)) == Some(Split(Strip(cells[k].outputs.value[j].text.value), '\n')[i])
  {
    var o := cells[k].outputs.value[j];
    var lines := Split(Strip(o.text.value), '\n');
    ExtractCsvIsLatest(cells, k, j);
    StreamCandidates(o);
    CsvLinesLast(lines, i);
  }

  /** A stream output's candidates are those of its stripped text's lines. */
  lemma StreamCandidates(o: Output)
    requires o.outputType == Some("stream") && o.text.Some?
    ensures OutputCandidates(o) == CsvLines(Split(Strip(o.text.value), '\n'))
  {
  }

  /**
   * The harness's printed record is what gets extracted: when the last cell
   * with candidates is a code cell whose one output is the printed record,
   * that record is returned.
   */
  lemma PrintedRecordExtracted(cs: seq<Cell>, source: Source, text: string, line: string)
    requires |cs| > 0 && cs[|cs| - 1] == Cell("code", source, Some([Output(Some("stream"), Some(text), None)]))
    requires Strip(text) == line && '\n' !in line && Count(line, ',') >= 2
    ensures ExtractCsv(Some(cs)) == Some(line)
  {
    SplitLength(line, '\n');
    JoinSplit(line, '\n');
    var parts := Split(line, '\n');
    assert parts == [parts[0]] && parts[0] == line;
    var o := Output(Some("stream"), Some(text), None);
    assert [line][..0] == [];
    assert CsvLines([line]) == [line];
    assert OutputCandidates(o) == [line];
    assert [o][..0] == [];
    assert OutputsCandidates([o]) == [line];
  }

  /** extract_csv_output over the cells of the executed notebook. */
  method ExtractCsvOutput(cells: Option<seq<Cell>>) returns (r: Option<string>)
    ensures r == ExtractCsv(cells)
  {
    if cells.None? {
      return None;
    }
    var cs := cells.value;
    if |cs| == 0 {
      return None;
    }
    var last: Option<string> := None;
    var i := 0;
    while i < |cs|
      invariant 0 <= i <= |cs|
      invariant last == Latest(None, CellsCandidates(cs[..i]))
    {
      var cell := cs[i];
      assert cs[..i + 1][..i] == cs[..i];
      if cell.cellType == "code" && cell.outputs.Some? {
        last := ScanOutputs(last, cell.outputs.value);
      }
      LatestAppend(None, CellsCandidates(cs[..i]), CellCandidates(cell));
      i := i + 1;
    }
    assert cs[..i] == cs;
    r := last;
  }

  /** The inner loop over one cell's outputs. */
  method ScanOutputs(prev: Option<string>, outputs: seq<Output>) returns (last: Option<string>)
    ensures last == Latest(prev, OutputsCandidates(outputs))
  {
    last := prev;
    var j := 0;
    while j < |outputs|
      invariant 0 <= j <= |outputs|
      invariant last == Latest(prev, OutputsCandidates(outputs[..j]))
    {
      var output := outputs[j];
      assert outputs[..j + 1][..j] == outputs[..j];
      var before := last;
      last := ScanOutput(last, output);
      assert last == Latest(before, OutputCandidates(output));
      LatestAppend(prev, OutputsCandidates(outputs[..j]), OutputCandidates(output));
      j := j + 1;
    }
    assert outputs[..j] == outputs;
  }

  /** The body of the loop over outputs: one stream or execute_result output. */
  method ScanOutput(prev: Option<string>, output: Output) returns (last: Option<string>)
    ensures last == Latest(prev, OutputCandidates(output))
  {
    last := prev;
    if output.outputType == Some("stream") && output.text.Some? {
      var lines := Split(Strip(output.text.value), '\n');
      last := ScanLines(last, lines);
    } else if output.outputType == Some("execute_result") && output.data.Some? {
      if "text/plain" in output.data.value {
        var text := Strip(output.data.value["text/plain"]);
        if ',' in text && Count(text, ',') >= 2 {
          last := Some(text);
        }
      }
    }
  }

  /** The innermost loop over the lines of a stream output. */
  method ScanLines(prev: Option<string>, lines: seq<string>) returns (last: Option<string>)
    ensures last == Latest(prev, CsvLines(lines))
  {
    last := prev;
    var k := 0;
    while k < |lines|
      invariant 0 <= k <= |lines|
      invariant last == Latest(prev, CsvLines(lines[..k]))
    {
      assert lines[..k + 1][..k] == lines[..k];
      var line := lines[k];
      if ',' in line && Count(line, ',') >= 2 {
        last := Some(line);
      }
      LatestAppend(prev, CsvLines(lines[..k]), if CsvLike(line) then [line] else []);
      k := k + 1;
    }
    assert lines[..k] == lines;
  }

  // ---------------------------------------------------------------------
  // The identity scan of process_student_notebook
  // ---------------------------------------------------------------------

  const FirstKey: string := "first_name"
  const LastKey: string := "last_name"
  const IdKey: string := "student_id"

  /** `line.split('=')[1].strip().strip('"').strip("'")` */
  function AssignedValue(line: string): string
    requires '=' in line
  {
    var parts := Split(line, '=');
    assert |parts| >= 2 by {
      SplitLength(line, '=');
    }
    StripChar(StripChar(Strip(parts[1]), '"'), '\'')
  }

  /** A line that assigns `key`: it mentions the key and contains `=`. */
  predicate Assigns(line: string, key: string) {
    IsSubstring(key, line) && '=' in line
  }

  /** One field after one line. */
  function Update(current: string, key: string, line: string): string {
    if Assigns(line, key) then AssignedValue(line) else current
  }

  /** One field after a sequence of lines. */
  function ScanField(current: string, key: string, lines: seq<string>): string {
    if lines == [] then current
    else Update(ScanField(current, key, lines[..|lines| - 1]), key, lines[|lines| - 1])
  }

  /** All three fields after one line: each is tested independently. */
  function ScanLine(who: Identity, line: string): Identity {
    Identity(Update(who.first, FirstKey, line), Update(who.last, LastKey, line), Update(who.id, IdKey, line))
  }

  function ScanSource(who: Identity, lines: seq<string>): (r: Identity)
    ensures r == Identity(ScanField(who.first, FirstKey, lines), ScanField(who.last, LastKey, lines),
                          ScanField(who.id, IdKey, lines))
  {
    if lines == [] then who else ScanLine(ScanSource(who, lines[..|lines| - 1]), lines[|lines| - 1])
  }

  /** A field no line assigns keeps its starting value. */
  lemma {:induction false} UnassignedFieldKept(current: string, key: string, lines: seq<string>)
    requires forall k :: 0 <= k < |lines| ==> !Assigns(lines[k], key)
    ensures ScanField(current, key, lines) == current
  {
    if lines != [] {
      var init := lines[..|lines| - 1];
      assert forall k :: 0 <= k < |init| ==> init[k] == lines[k];
      UnassignedFieldKept(current, key, init);
    }
  }

  /** A field ends up as the value of the last line assigning it: later lines win. */
  lemma {:induction false} LastAssignmentWins(current: string, key: string, lines: seq<string>, k: nat)
    requires k < |lines| && Assigns(lines[k], key)
    requires forall j :: k < j < |lines| ==> !Assigns(lines[j], key)
    ensures ScanField(current, key, lines) == AssignedValue(lines[k])
  {
    var init := lines[..|lines| - 1];
    if k < |lines| - 1 {
      assert init[k] == lines[k];
      assert forall j :: k < j < |init| ==> init[j] == lines[j];
      LastAssignmentWins(current, key, init, k);
    }
  }

  /** The scan of one cell; a list source mentioning `first_name` makes `source.split` raise. */
  function ScanCell(who: Identity, c: Cell): Outcome {
    if SourceHas(c.source, FirstKey) then
      match c.source
      case LineList(_) => Failed
      case Joined(text) => Scanned(ScanSource(who, Split(text, '\n')))
    else Scanned(who)
  }

  /** The scan's result: the identity found, or the exception that ends it. */
  datatype Outcome = Scanned(who: Identity) | Failed

  /** The scan over all cells, starting from "Unknown" for every field. */
  function ScanCells(cells: seq<Cell>): Outcome {
    if cells == [] then Scanned(UnknownIdentity)
    else
      match ScanCells(cells[..|cells| - 1])
      case Failed => Failed
      case Scanned(who) => ScanCell(who, cells[|cells| - 1])
  }

  /** The scan fails exactly when some cell has a list source with a line equal to `first_name`. */
  lemma {:induction false} ScanFailsIff(cells: seq<Cell>)
    ensures ScanCells(cells).Failed? <==> exists k | 0 <= k < |cells| :: cells[k].source.LineList? && FirstKey in cells[k].source.lines
  {
    if cells != [] {
      var init := cells[..|cells| - 1];
      ScanFailsIff(init);
      if ScanCells(init).Failed? {
        var k :| 0 <= k < |init| && init[k].source.LineList? && FirstKey in init[k].source.lines;
        assert cells[k] == init[k];
      } else if !ScanCells(cells).Failed? {
        forall k | 0 <= k < |cells| ensures !(cells[k].source.LineList? && FirstKey in cells[k].source.lines) {
          if k < |init| {
            assert cells[k] == init[k];
          }
        }
      }
    }
  }

  /** The inner loop of the identity scan: every line of one cell's source, in order. */
  method ScanSourceLines(start: Identity, lines: seq<string>) returns (who: Identity)
    ensures who == ScanSource(start, lines)
  {
    who := start;
    for k := 0 to |lines|
      invariant who == ScanSource(start, lines[..k])
    {
      assert lines[..k + 1][..k] == lines[..k];
      var line := lines[k];
      var first, last, id := who.first, who.last, who.id;
      if IsSubstring(FirstKey, line) && '=' in line {
        first := AssignedValue(line);
      }
      if IsSubstring(LastKey, line) && '=' in line {
        last := AssignedValue(line);
      }
      if IsSubstring(IdKey, line) && '=' in line {
        id := AssignedValue(line);
      }
      who := Identity(first, last, id);
    }
    assert lines[..|lines|] == lines;
  }

  /** A failed prefix makes the whole scan fail. */
  lemma {:induction false} ScanFailedPrefix(cells: seq<Cell>, i: nat)
    requires i <= |cells| && ScanCells(cells[..i]).Failed?
    ensures ScanCells(cells).Failed?
    decreases |cells| - i
  {
    if i < |cells| {
      assert cells[..i + 1][..i] == cells[..i];
      ScanFailedPrefix(cells, i + 1);
    } else {
      assert cells[..i] == cells;
    }
  }

  /** The identity scan's outer loop. */
  method ScanIdentity(cells: seq<Cell>) returns (r: Outcome)
    ensures r == ScanCells(cells)
  {
    var who := UnknownIdentity;
    for i := 0 to |cells|
      invariant ScanCells(cells[..i]) == Scanned(who)
    {
      assert cells[..i + 1][..i] == cells[..i];
      var source := cells[i].source;
      if SourceHas(source, FirstKey) {
        if source.LineList? {
          // a list has no split method
          assert ScanCells(cells[..i + 1]) == Failed;
          ScanFailedPrefix(cells, i + 1);
          return Failed;
        }
        who := ScanSourceLines(who, Split(source.text, '\n'));
      }
    }
    assert cells[..|cells|] == cells;
    r := Scanned(who);
  }

  // ---------------------------------------------------------------------
  // process_student_notebook
  // ---------------------------------------------------------------------

  /** The names used in a zero record after a successful scan: a missing name is filled from the username. */
  function FillFromUsername(scanned: Identity, username: Option<string>): Identity {
    if (scanned.first == "Unknown" || scanned.last == "Unknown") && username.Some? then
      Identity(username.value, username.value, scanned.id)
    else scanned
  }

  /** The identity used when the scan itself raised. */
  function FallbackIdentity(username: Option<string>): Identity {
    if username.Some? then Identity(username.value, username.value, "Unknown") else UnknownIdentity
  }

  /** The identity of the zero record for a notebook whose cells are `cells`. */
  function ZeroIdentity(filename: string, cells: seq<Cell>): Identity {
    match ScanCells(cells)
    case Scanned(who) => FillFromUsername(who, UsernameOf(filename))
    case Failed => FallbackIdentity(UsernameOf(filename))
  }

  /**
   * The zero record names the student from the notebook when both names
   * were found there; otherwise from the file name when it yields a
   * username; the id column is never taken from the file name.
   */
  lemma ZeroIdentitySources(filename: string, cells: seq<Cell>)
    ensures var who := ZeroIdentity(filename, cells);
      var scan := ScanCells(cells);
      var found := scan.Scanned? && scan.who.first != "Unknown" && scan.who.last != "Unknown";
      && (found ==> who == scan.who)
      && (!found && UsernameOf(filename).Some? ==> who.first == who.last == UsernameOf(filename).value)
      && (!found && UsernameOf(filename).None? ==> who == if scan.Scanned? then scan.who else UnknownIdentity)
      && who.id == (if scan.Scanned? then scan.who.id else "Unknown")
  {
  }

  /** A zero record whose identity has no commas has the full sixteen columns. */
  lemma ZeroRecordColumns(filename: string, cells: seq<Cell>)
    requires ScanCells(cells).Failed? || IdentityCommaFree(ScanCells(cells).who)
    ensures |Split(ZeroRow(ZeroIdentity(filename, cells)), ',')| == 3 + ProblemCount + 1
  {
    if UsernameOf(filename).Some? {
      UsernameShape(filename);
    }
    ZeroRowColumns(ZeroIdentity(filename, cells));
  }

  /** process_student_notebook's result: success, the record (if any), the error message (if any). */
  datatype Report = Report(success: bool, line: Option<string>, error: Option<string>)

  /**
   * The report for a notebook whose cells after injection are `injected`
   * (`None`: injection failed), whose execution succeeded or not, and whose
   * executed copy has the cells `executedCells` (`None`: unreadable).
   */
  function ProcessSpec(filename: string, injected: Option<seq<Cell>>, executed: bool, executedCells: Option<seq<Cell>>): Report {
    if injected.None? then Report(false, None, Some("Failed to add autograder cell"))
    else if !executed then
      Report(false, Some(ZeroRow(ZeroIdentity(filename, injected.value))), Some("Notebook execution failed or crashed"))
    else if ExtractCsv(executedCells).None? then
      Report(false, Some(ZeroRow(ZeroIdentity(filename, injected.value))),
             Some(if ScanCells(injected.value).Scanned? then "Could not extract CSV output from autograder"
                  else "Could not extract CSV output"))
    else Report(true, ExtractCsv(executedCells), None)
  }

  /**
   * A notebook succeeds exactly when injection worked, it ran and a record
   * was found; it lacks a record only when injection failed; it carries an
   * error message exactly when it did not succeed.
   */
  lemma ProcessOutcomes(filename: string, injected: Option<seq<Cell>>, executed: bool, executedCells: Option<seq<Cell>>)
    ensures var r := ProcessSpec(filename, injected, executed, executedCells);
      && (r.success <==> injected.Some? && executed && ExtractCsv(executedCells).Some?)
      && (r.line.None? <==> injected.None?)
      && (r.error.None? <==> r.success)
      && (r.success ==> Count(r.line.value, ',') >= 2)
      && (!r.success && r.line.Some? ==> r.line.value == ZeroRow(ZeroIdentity(filename, injected.value)))
  {
    if injected.Some? && executed && ExtractCsv(executedCells).Some? {
      ExtractCsvMeaning(executedCells.value);
    }
  }

  /** process_student_notebook, with the notebook's execution given as its outcome. */
  method ProcessSubmission(filename: string, doc: NotebookDoc, code: string, executed: bool, executedCells: Option<seq<Cell>>)
    returns (r: Report)
    modifies doc
    ensures doc.cells == Inject(old(doc.cells), code)
    ensures r == ProcessSpec(filename, Inject(old(doc.cells), code), executed, executedCells)
  {
    var ok := doc.AddHarnessCell(code);
    if !ok {
      return Report(false, None, Some("Failed to add autograder cell"));
    }
    var csvLine := ExtractCsvOutput(executedCells);
    if !executed {
      var line := ZeroLine(filename, doc.cells.value);
      return Report(false, Some(line), Some("Notebook execution failed or crashed"));
    }
    if csvLine.None? {
      var scan := ScanIdentity(doc.cells.value);
      var line := ZeroLine(filename, doc.cells.value);
      if scan.Scanned? {
        return Report(false, Some(line), Some("Could not extract CSV output from autograder"));
      }
      return Report(false, Some(line), Some("Could not extract CSV output"));
    }
    r := Report(true, csvLine, None);
  }

  /** The zero record built from the notebook's cells and, failing those, the file name. */
  method ZeroLine(filename: string, cells: seq<Cell>) returns (line: string)
    ensures line == ZeroRow(ZeroIdentity(filename, cells))
  {
    var scan := ScanIdentity(cells);
    var who: Identity;
    match scan {
      case Scanned(found) =>
        who := found;
        if who.first == "Unknown" || who.last == "Unknown" {
          var username := ExtractUsername(filename);
          if username.Some? {
            who := Identity(username.value, username.value, who.id);
          }
        }
      case Failed =>
        var username := ExtractUsername(filename);
        who := if username.Some? then Identity(username.value, username.value, "Unknown") else UnknownIdentity;
    }
    line := ZeroRow(who);
  }

  // ---------------------------------------------------------------------
  // main
  // ---------------------------------------------------------------------

  /** The line written for a report: its record, `None` printed as text, or nothing. */
  function RowOf(r: Report): seq<string> {
    if r.success then [if r.line.Some? then r.line.value else "None"]
    else if r.line.Some? && r.line.value != "" then [r.line.value]
    else []
  }

  /** The rows of the grades file, in processing order. */
  function Rows(reports: seq<Report>): seq<string> {
    if reports == [] then []
    else Rows(reports[..|reports| - 1]) + RowOf(reports[|reports| - 1])
  }

  function Successes(reports: seq<Report>): (n: nat)
    ensures n <= |reports|
  {
    if reports == [] then 0
    else Successes(reports[..|reports| - 1]) + (if reports[|reports| - 1].success then 1 else 0)
  }

  /** A notebook adds one row to the grades file exactly when its autograder cell was added. */
  lemma ProcessRow(filename: string, injected: Option<seq<Cell>>, executed: bool, executedCells: Option<seq<Cell>>)
    ensures |RowOf(ProcessSpec(filename, injected, executed, executedCells))| == if injected.Some? then 1 else 0
  {
    ProcessOutcomes(filename, injected, executed, executedCells);
    var r := ProcessSpec(filename, injected, executed, executedCells);
    if r.success {
      assert r.line.value != "";
    } else if injected.Some? {
      var row := ZeroRow(ZeroIdentity(filename, injected.value));
      assert r.line.value == row;
      assert row != "" by {
        assert row[|ZeroIdentity(filename, injected.value).first|] == ',';
      }
    }
  }

  /**
   * Every successful report and every failed one that still carries a
   * non-empty record contributes exactly one row.
   */
  lemma {:induction false} RowsCount(reports: seq<Report>)
    ensures |Rows(reports)| <= |reports|
    ensures (forall k :: 0 <= k < |reports| ==> reports[k].line.Some? && reports[k].line.value != "") ==> |Rows(reports)| == |reports|
  {
    if reports != [] {
      var init := reports[..|reports| - 1];
      RowsCount(init);
      forall k | 0 <= k < |init| ensures init[k] == reports[k] { }
    }
  }

  /** The main loop's bookkeeping: rows collected and the two counters. */
  method Tally(reports: seq<Report>) returns (rows: seq<string>, successful: nat, failed: nat)
    ensures rows == Rows(reports)
    ensures successful == Successes(reports) && successful + failed == |reports|
  {
    rows := [];
    successful, failed := 0, 0;
    var i := 0;
    while i < |reports|
      invariant 0 <= i <= |reports|
      invariant rows == Rows(reports[..i])
      invariant successful == Successes(reports[..i]) && successful + failed == i
    {
      assert reports[..i + 1][..i] == reports[..i];
      var report := reports[i];
      if report.success {
        rows := rows + [if report.line.Some? then report.line.value else "None"];
        successful := successful + 1;
      } else {
        if report.line.Some? && report.line.value != "" {
          rows := rows + [report.line.value];
        }
        failed := failed + 1;
      }
      i := i + 1;
    }
    assert reports[..i] == reports;
  }

  /**
   * What happened to one notebook of the batch: its file name, its cells
   * after injection (`None`: injection failed), whether it ran, and the
   * cells of its executed copy (`None`: unreadable).
   */
  datatype Run = Run(filename: string, injected: Option<seq<Cell>>, executed: bool, executedCells: Option<seq<Cell>>)

  /** The reports of a batch, one per run, in order. */
  function BatchReports(runs: seq<Run>): seq<Report> {
    seq(|runs|, k requires 0 <= k < |runs| =>
      ProcessSpec(runs[k].filename, runs[k].injected, runs[k].executed, runs[k].executedCells))
  }

  /** The number of runs whose autograder cell was added. */
  function InjectedCount(runs: seq<Run>): nat {
    if runs == [] then 0
    else InjectedCount(runs[..|runs| - 1]) + (if runs[|runs| - 1].injected.Some? then 1 else 0)
  }

  /**
   * main over the notebooks of a directory listing: the grades file has
   * exactly one row per listed notebook whose autograder cell was added,
   * so at most one per notebook.
   */
  lemma BatchRows(entries: seq<string>, runs: seq<Run>)
    requires |runs| == |NotebookNames(entries)|
    requires forall k :: 0 <= k < |runs| ==> runs[k].filename == NotebookNames(entries)[k]
    ensures |Rows(BatchReports(runs))| == InjectedCount(runs) <= |NotebookNames(entries)|
  {
    BatchRowsCount(runs);
  }

  lemma {:induction false} BatchRowsCount(runs: seq<Run>)
    ensures |Rows(BatchReports(runs))| == InjectedCount(runs) <= |runs|
  {
    if runs != [] {
      var n := |runs| - 1;
      var last := runs[n];
      BatchRowsCount(runs[..n]);
      assert BatchReports(runs)[..n] == BatchReports(runs[..n]);
      ProcessRow(last.filename, last.injected, last.executed, last.executedCells);
    }
  }

  /** Each row followed by a line break. */
  function Lines(rows: seq<string>): string {
    if rows == [] then "" else Lines(rows[..|rows| - 1]) + rows[|rows| - 1] + "\n"
  }

  /** The contents of the grades file: the header line, then one line per row. */
  function GradesFile(rows: seq<string>): string {
    Header() + "\n" + Lines(rows)
  }

  lemma {:induction false} GradesFileIsJoin(rows: seq<string>)
    ensures GradesFile(rows) == Join([Header()] + rows + [""], '\n')
  {
    var h := [Header()];
    if rows == [] {
      assert h + rows + [""] == [Header(), ""];
    } else {
      var init := rows[..|rows| - 1];
      var r := rows[|rows| - 1];
      GradesFileIsJoin(init);
      JoinSnoc(h + init, "", '\n');
      assert h + init + [r] == h + rows;
      JoinSnoc(h + rows, "", '\n');
      JoinSnoc(h + init, r, '\n');
      var j := Join(h + init, '\n');
      assert j + "\n" == Header() + "\n" + Lines(init) by {
        assert j + "\n" + "" == j + "\n";
      }
      calc {
        Join(h + rows + [""], '\n');
        Join(h + rows, '\n') + "\n" + "";
        j + "\n" + r + "\n";
        Header() + "\n" + Lines(init) + r + "\n";
        { Assoc(Header() + "\n", Lines(init) + r, "\n"); Assoc(Header() + "\n", Lines(init), r); }
        Header() + "\n" + (Lines(init) + r + "\n");
      }
    }
  }

  lemma HeaderHasNoLineBreak()
    ensures '\n' !in Header()
  {
    var t := ProblemTitles(ProblemCount);
    var j := Join(t, ',');
    JoinFree(t, ',', '\n');
  }

  /** A separator-free list joins into separator-free text. */
  lemma {:induction false} JoinFree(parts: seq<string>, sep: char, c: char)
    requires c != sep && forall k :: 0 <= k < |parts| ==> c !in parts[k]
    ensures c !in Join(parts, sep)
  {
    if |parts| > 1 {
      JoinFree(parts[1..], sep, c);
    }
  }

  /**
   * Reading the grades file back line by line gives the header, then the
   * rows in order, when no row contains a line break.
   */
  lemma GradesFileLines(rows: seq<string>)
    requires forall k :: 0 <= k < |rows| ==> '\n' !in rows[k]
    ensures Split(GradesFile(rows), '\n') == [Header()] + rows + [""]
  {
    GradesFileIsJoin(rows);
    HeaderHasNoLineBreak();
    var all := [Header()] + rows + [""];
    forall k | 0 <= k < |all| ensures '\n' !in all[k] {
      if 1 <= k <= |rows| {
        assert all[k] == rows[k - 1];
      }
    }
    SplitJoin(all, '\n');
  }
}
