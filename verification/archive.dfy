/**
 * Two notebook utilities of the repository's archive directory.
 *
 * readend.py reports, for every notebook of a directory, the last thing it
 * printed or displayed: `last_output` is overwritten by every stream and
 * every `execute_result` output of every code cell, and a row
 * `notebook,last_output` is written when the final value is non-empty.
 *
 * deletecell.py removes from a notebook every cell whose source contains a
 * given code fragment and reports how many cells went.
 *
 * Notebooks are in-memory cell lists; reading a file is a function
 * parameter whose `None` stands for a read that raised.
 */
module Archive {
  import opened Common
  import opened Text
  import opened Notebook

  // ---------------------------------------------------------------------
  // readend.py: extract_last_output_from_notebook
  // ---------------------------------------------------------------------

  /** `text.strip().split('\n')[-1]` */
  function LastLine(text: string): string {
    LastPart(Strip(text))
  }

  /** `t.split('\n')[-1]` */
  function LastPart(t: string): string {
    var lines := Split(t, '\n');
    lines[|lines| - 1]
  }

  /** The last line is the part of the stripped text after its last line break. */
  lemma LastLineShape(text: string)
    ensures '\n' !in LastLine(text)
    ensures EndsWith(Strip(text), LastLine(text))
    ensures |LastLine(text)| < |Strip(text)| ==> Strip(text)[|Strip(text)| - |LastLine(text)| - 1] == '\n'
  {
    LastPartShape(Strip(text));
  }

  lemma LastPartShape(t: string)
    ensures '\n' !in LastPart(t) && EndsWith(t, LastPart(t))
    ensures |LastPart(t)| < |t| ==> t[|t| - |LastPart(t)| - 1] == '\n'
  {
    LastPiece(t, '\n');
  }

  /**
   * The value one output assigns to `last_output`: the last line of its
   * stripped text for a stream, the stripped `text/plain` entry for an
   * execution result, and nothing for anything else.
   */
  function OutputValue(o: Output): Option<string> {
    if o.outputType == Some("stream") && o.text.Some? then Some(LastLine(o.text.value))
    else if o.outputType == Some("execute_result") && o.data.Some? && "text/plain" in o.data.value then
      Some(Strip(o.data.value["text/plain"]))
    else None
  }

  /** The values one output assigns: none or one. */
  function OutputValues(o: Output): seq<string> {
    AsSeq(OutputValue(o))
  }

  /** Only code cells that have an `outputs` entry are looked at. */
  predicate Inspected(c: Cell) {
    c.cellType == "code" && c.outputs.Some?
  }

  /** The values a cell's outputs assign, in order. */
  function CellValues(c: Cell): seq<string> {
    if Inspected(c) then FlatMap(c.outputs.value, OutputValues) else []
  }

  /** All values assigned to `last_output`, cell by cell and output by output. */
  function CellsValues(cells: seq<Cell>): seq<string> {
    FlatMap(cells, CellValues)
  }

  /** What extract_last_output_from_notebook returns (`None` read: the file could not be read). */
  function LastOutput(notebook: Option<seq<Cell>>): Option<string> {
    match notebook
    case None => None
    case Some(cells) => Latest(None, CellsValues(cells))
  }

  /** Output `j` of cell `k` assigns a value. */
  predicate Offers(cells: seq<Cell>, k: int, j: int) {
    0 <= k < |cells| && Inspected(cells[k]) && 0 <= j < |cells[k].outputs.value|
    && OutputValues(cells[k].outputs.value[j]) != []
  }

  /** Position `(k2, j2)` comes after `(k, j)` in cell-then-output order. */
  predicate Later(k2: int, j2: int, k: int, j: int) {
    k2 > k || (k2 == k && j2 > j)
  }

  /** A cell assigns nothing exactly when none of its outputs offers a value. */
  lemma CellValuesEmpty(cells: seq<Cell>, k: nat)
    requires k < |cells|
    ensures CellValues(cells[k]) == [] <==> forall j :: !Offers(cells, k, j)
  {
    var c := cells[k];
    if Inspected(c) {
      FlatMapEmpty(c.outputs.value, OutputValues);
      if CellValues(c) != [] {
        var j :| 0 <= j < |c.outputs.value| && OutputValues(c.outputs.value[j]) != [];
        assert Offers(cells, k, j);
      }
    }
  }

  /**
   * Nothing comes of a notebook that cannot be read, and `None` comes of a
   * readable one exactly when no output of a code cell offers a value (in
   * particular for an empty cell list).
   */
  lemma LastOutputNone(notebook: Option<seq<Cell>>)
    ensures notebook.None? ==> LastOutput(notebook) == None
    ensures notebook.Some? ==>
      (LastOutput(notebook) == None <==> forall k, j :: !Offers(notebook.value, k, j))
  {
    if notebook.Some? {
      var cells := notebook.value;
      FlatMapEmpty(cells, CellValues);
      if LastOutput(notebook) == None {
        forall k, j ensures !Offers(cells, k, j) {
          if 0 <= k < |cells| {
            CellValuesEmpty(cells, k);
          }
        }
      } else {
        var k :| 0 <= k < |cells| && CellValues(cells[k]) != [];
        CellValuesEmpty(cells, k);
      }
    }
  }

  /** The result is the value of the latest output that offers one, in cell-then-output order. */
  lemma LastOutputIsLatest(cells: seq<Cell>, k: nat, j: nat)
    requires Offers(cells, k, j)
    requires forall k2, j2 :: Offers(cells, k2, j2) ==> !Later(k2, j2, k, j)
    ensures LastOutput(Some(cells)) == OutputValue(cells[k].outputs.value[j])
  {
    var outputs := cells[k].outputs.value;
    forall k2 | k < k2 < |cells| ensures CellValues(cells[k2]) == [] {
      CellValuesEmpty(cells, k2);
    }
    FlatMapEndsWith(cells, CellValues, k);
    forall j2 | j < j2 < |outputs| ensures OutputValues(outputs[j2]) == [] {
      assert !Offers(cells, k, j2);
    }
    FlatMapEndsWith(outputs, OutputValues, j);
  }

  /** A markdown cell or a cell without outputs, wherever it stands, changes nothing. */
  lemma IgnoredCellIrrelevant(before: seq<Cell>, c: Cell, after: seq<Cell>)
    requires !Inspected(c)
    ensures LastOutput(Some(before + [c] + after)) == LastOutput(Some(before + after))
  {
    FlatMapAppend(before + [c], after, CellValues);
    FlatMapAppend(before, [c], CellValues);
    FlatMapAppend(before, after, CellValues);
    assert [c][..0] == [];
  }

  /** extract_last_output_from_notebook: `last_output` overwritten output by output. */
  method ExtractLastOutput(notebook: Option<seq<Cell>>) returns (lastOutput: Option<string>)
    ensures lastOutput == LastOutput(notebook)
  {
    if notebook.None? {
      return None;
    }
    var cells := notebook.value;
    if |cells| == 0 {
      return None;
    }
    lastOutput := None;
    for i := 0 to |cells|
      invariant lastOutput == Latest(None, CellsValues(cells[..i]))
    {
      assert cells[..i + 1][..i] == cells[..i];
      var cell := cells[i];
      if cell.cellType == "code" && cell.outputs.Some? {
        lastOutput := ScanCellOutputs(lastOutput, cell.outputs.value);
      }
      LatestAppend(None, CellsValues(cells[..i]), CellValues(cell));
    }
    assert cells[..|cells|] == cells;
  }

  /** The loop over one code cell's outputs. */
  method ScanCellOutputs(prev: Option<string>, outputs: seq<Output>) returns (lastOutput: Option<string>)
    ensures lastOutput == Latest(prev, FlatMap(outputs, OutputValues))
  {
    lastOutput := prev;
    for j := 0 to |outputs|
      invariant lastOutput == Latest(prev, FlatMap(outputs[..j], OutputValues))
    {
      assert outputs[..j + 1][..j] == outputs[..j];
      var output := outputs[j];
      var before := lastOutput;
      if output.outputType == Some("stream") && output.text.Some? {
        lastOutput := Some(LastLine(output.text.value));
      } else if output.outputType == Some("execute_result") && output.data.Some? {
        if "text/plain" in output.data.value {
          lastOutput := Some(Strip(output.data.value["text/plain"]));
        }
      }
      assert lastOutput == Latest(before, OutputValues(output));
      LatestAppend(prev, FlatMap(outputs[..j], OutputValues), OutputValues(output));
    }
    assert outputs[..|outputs|] == outputs;
  }

  // ---------------------------------------------------------------------
  // readend.py: process_notebooks_in_directory
  // ---------------------------------------------------------------------

  /** Python's truth value of `last_output`: present and not the empty string. */
  predicate Truthy(v: Option<string>) {
    v.Some? && v.value != ""
  }

  /** The line written for one notebook. */
  function Row(name: string, value: string): string {
    name + "," + value + "\n"
  }

  /** The rows written for the notebooks `names`, in order, reading each with `read`. */
  function RowsFor(names: seq<string>, read: string -> Option<seq<Cell>>): seq<string> {
    if names == [] then []
    else
      var name := names[|names| - 1];
      var v := LastOutput(read(name));
      RowsFor(names[..|names| - 1], read) + (if Truthy(v) then [Row(name, v.value)] else [])
  }

  /**
   * What the directory pass writes: no file when the directory is missing or
   * holds no notebook; otherwise the rows of the notebooks in listing order.
   */
  function DirectoryRows(isDirectory: bool, entries: seq<string>, read: string -> Option<seq<Cell>>): Option<seq<string>> {
    if !isDirectory || NotebookNames(entries) == [] then None
    else Some(RowsFor(NotebookNames(entries), read))
  }

  /**
   * A row is written for a notebook exactly when its result is truthy, and
   * it names the notebook and carries that result.
   */
  lemma {:induction false} RowsForExact(names: seq<string>, read: string -> Option<seq<Cell>>)
    ensures |RowsFor(names, read)| <= |names|
    ensures forall r :: r in RowsFor(names, read) ==>
      exists k :: 0 <= k < |names| && Truthy(LastOutput(read(names[k]))) && r == Row(names[k], LastOutput(read(names[k])).value)
    ensures forall k :: 0 <= k < |names| && Truthy(LastOutput(read(names[k]))) ==>
      Row(names[k], LastOutput(read(names[k])).value) in RowsFor(names, read)
  {
    if names != [] {
      var init := names[..|names| - 1];
      RowsForExact(init, read);
      var rows := RowsFor(names, read);
      assert RowsFor(init, read) <= rows;
      forall r | r in rows
        ensures exists k :: 0 <= k < |names| && Truthy(LastOutput(read(names[k]))) && r == Row(names[k], LastOutput(read(names[k])).value)
      {
        if r in RowsFor(init, read) {
          var k :| 0 <= k < |init| && Truthy(LastOutput(read(init[k]))) && r == Row(init[k], LastOutput(read(init[k])).value);
          assert names[k] == init[k];
        } else {
          assert names[|names| - 1] == names[|names| - 1];
        }
      }
      forall k | 0 <= k < |names| && Truthy(LastOutput(read(names[k])))
        ensures Row(names[k], LastOutput(read(names[k])).value) in rows
      {
        if k < |init| {
          assert names[k] == init[k];
        }
      }
    }
  }

  /** With no truthy result nothing is written, even though the file is opened. */
  lemma {:induction false} RowsForNone(names: seq<string>, read: string -> Option<seq<Cell>>)
    requires forall k :: 0 <= k < |names| ==> !Truthy(LastOutput(read(names[k])))
    ensures RowsFor(names, read) == []
  {
    if names != [] {
      var init := names[..|names| - 1];
      assert forall k :: 0 <= k < |init| ==> init[k] == names[k];
      RowsForNone(init, read);
    }
  }

  /** process_notebooks_in_directory: the loop over the notebooks, writing conditionally. */
  method ProcessNotebooks(isDirectory: bool, entries: seq<string>, read: string -> Option<seq<Cell>>)
    returns (written: Option<seq<string>>)
    ensures written == DirectoryRows(isDirectory, entries, read)
  {
    if !isDirectory {
      return None;
    }
    var notebooks := NotebookNames(entries);
    if notebooks == [] {
      return None;
    }
    var rows: seq<string> := [];
    for i := 0 to |notebooks|
      invariant rows == RowsFor(notebooks[..i], read)
    {
      assert notebooks[..i + 1][..i] == notebooks[..i];
      var lastOutput := ExtractLastOutput(read(notebooks[i]));
      if lastOutput.Some? && lastOutput.value != "" {
        rows := rows + [Row(notebooks[i], lastOutput.value)];
      }
    }
    assert notebooks[..|notebooks|] == notebooks;
    written := Some(rows);
  }

  // ---------------------------------------------------------------------
  // deletecell.py: delete_specific_cell_from_notebooks
  // ---------------------------------------------------------------------

  /**
   * The filter's test `fragment in cell.get('source', '')`. deletecell.py
   * reads notebooks with `nbformat.read`, which joins a source stored as a
   * list of lines into one string, so the test is always a substring test
   * on the cell's whole text.
   */
  predicate HasFragment(c: Cell, fragment: string) {
    IsSubstring(fragment, SourceText(c.source))
  }

  /**
   * The comprehension over `notebook['cells']`: the cells whose text does
   * not contain the fragment, in their original order.
   */
  function Kept(cells: seq<Cell>, fragment: string): (r: seq<Cell>)
    ensures |r| <= |cells|
    ensures forall k :: 0 <= k < |r| ==> !HasFragment(r[k], fragment)
  {
    if cells == [] then []
    else
      var c := cells[|cells| - 1];
      Kept(cells[..|cells| - 1], fragment) + (if HasFragment(c, fragment) then [] else [c])
  }

  /** The positions of the kept cells: increasing, and exactly those whose source lacks the fragment. */
  function KeptPositions(cells: seq<Cell>, fragment: string): (idx: seq<nat>)
    ensures forall k :: 0 <= k < |idx| ==> idx[k] < |cells|
    ensures forall k, l :: 0 <= k < l < |idx| ==> idx[k] < idx[l]
    ensures forall j :: 0 <= j < |cells| ==> (j in idx <==> !HasFragment(cells[j], fragment))
  {
    if cells == [] then []
    else
      var n := |cells| - 1;
      var init := KeptPositions(cells[..n], fragment);
      assert forall j :: 0 <= j < n ==> cells[..n][j] == cells[j];
      init + (if HasFragment(cells[n], fragment) then [] else [n])
  }

  /** The kept cells are the cells at the kept positions, one for one. */
  lemma {:induction false} KeptIsSelection(cells: seq<Cell>, fragment: string)
    ensures |Kept(cells, fragment)| == |KeptPositions(cells, fragment)|
    ensures forall k :: 0 <= k < |Kept(cells, fragment)| ==>
      Kept(cells, fragment)[k] == cells[KeptPositions(cells, fragment)[k]]
  {
    if cells != [] {
      var n := |cells| - 1;
      KeptIsSelection(cells[..n], fragment);
      var r, idx := Kept(cells, fragment), KeptPositions(cells, fragment);
      var r0, idx0 := Kept(cells[..n], fragment), KeptPositions(cells[..n], fragment);
      forall k | 0 <= k < |r| ensures r[k] == cells[idx[k]] {
        if k < |r0| {
          assert r[k] == r0[k] && idx[k] == idx0[k];
          assert cells[..n][idx0[k]] == cells[idx0[k]];
        }
      }
    }
  }

  /** Cells that all lack the fragment are kept as they are. */
  lemma {:induction false} KeptUnchanged(cells: seq<Cell>, fragment: string)
    requires forall k :: 0 <= k < |cells| ==> !HasFragment(cells[k], fragment)
    ensures Kept(cells, fragment) == cells
  {
    if cells != [] {
      var n := |cells| - 1;
      forall k | 0 <= k < n ensures !HasFragment(cells[..n][k], fragment) {
        assert cells[..n][k] == cells[k];
      }
      KeptUnchanged(cells[..n], fragment);
      assert cells == cells[..n] + [cells[n]];
    }
  }

  /** Filtering a second time changes nothing. */
  lemma KeptIdempotent(cells: seq<Cell>, fragment: string)
    ensures Kept(Kept(cells, fragment), fragment) == Kept(cells, fragment)
  {
    KeptUnchanged(Kept(cells, fragment), fragment);
  }

  /** `original_cell_count - updated_cell_count` */
  function DeletedCount(cells: seq<Cell>, fragment: string): int {
    |cells| - |Kept(cells, fragment)|
  }

  /** The number of cells whose source contains the fragment. */
  function Containing(cells: seq<Cell>, fragment: string): nat {
    if cells == [] then 0
    else Containing(cells[..|cells| - 1], fragment) + (if HasFragment(cells[|cells| - 1], fragment) then 1 else 0)
  }

  /**
   * The count reported is the number of cells containing the fragment, never
   * negative; it is zero exactly when no cell contains the fragment, and then
   * the cells are unchanged.
   */
  lemma {:induction false} DeletedCountMeaning(cells: seq<Cell>, fragment: string)
    ensures DeletedCount(cells, fragment) == Containing(cells, fragment) >= 0
    ensures DeletedCount(cells, fragment) == 0 <==> forall k :: 0 <= k < |cells| ==> !HasFragment(cells[k], fragment)
    ensures DeletedCount(cells, fragment) == 0 ==> Kept(cells, fragment) == cells
  {
    if cells != [] {
      var n := |cells| - 1;
      DeletedCountMeaning(cells[..n], fragment);
      var hit := if HasFragment(cells[n], fragment) then 1 else 0;
      assert |Kept(cells, fragment)| == |Kept(cells[..n], fragment)| + 1 - hit;
      assert Containing(cells, fragment) == Containing(cells[..n], fragment) + hit;
      if DeletedCount(cells, fragment) == 0 {
        forall k | 0 <= k < |cells| ensures !HasFragment(cells[k], fragment) {
          if k < n {
            assert cells[k] == cells[..n][k];
          }
        }
        KeptUnchanged(cells, fragment);
      } else if !HasFragment(cells[n], fragment) {
        var k :| 0 <= k < n && HasFragment(cells[..n][k], fragment);
        assert cells[k] == cells[..n][k];
      }
    }
  }

  /** The message branch of the per-notebook loop: how many cells went, or that none matched. */
  datatype Deletion = Deleted(count: nat) | NoMatch

  function DeletionReport(cells: seq<Cell>, fragment: string): Deletion {
    var original := |cells|;
    var updated := |Kept(cells, fragment)|;
    if original != updated then Deleted(original - updated) else NoMatch
  }

  /** "No matching cells" is reported exactly when no cell contains the fragment; otherwise the positive number of those that do. */
  lemma DeletionReportMeaning(cells: seq<Cell>, fragment: string)
    ensures DeletionReport(cells, fragment) == NoMatch <==>
      forall k :: 0 <= k < |cells| ==> !HasFragment(cells[k], fragment)
    ensures DeletionReport(cells, fragment).Deleted? ==>
      DeletionReport(cells, fragment).count == Containing(cells, fragment) > 0
  {
    DeletedCountMeaning(cells, fragment);
  }
}
