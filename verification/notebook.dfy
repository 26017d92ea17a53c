/**
 * The parts of a Jupyter notebook the grading scripts read: cells, their
 * source and their outputs. The JSON file format, metadata and execution
 * counts are not modelled.
 */
module Notebook {
  import opened Common
  import opened Text

  /**
   * A cell's `source` as it is found in the JSON: one string, or a list of
   * lines (each normally ending in its line break). A cell without a
   * `source` key is represented as `Joined("")`, which is what
   * `cell.get('source', '')` gives.
   */
  datatype Source = Joined(text: string) | LineList(lines: seq<string>)

  /** One entry of a code cell's `outputs`; absent JSON keys are `None`. */
  datatype Output = Output(outputType: Option<string>, text: Option<string>, data: Option<map<string, string>>)

  /** A cell: its type, its source and, when the key is present, its outputs. */
  datatype Cell = Cell(cellType: string, source: Source, outputs: Option<seq<Output>>)

  /**
   * Python's `frag in source`: a substring test on a string source, but an
   * element test (some line equal to `frag`) on a list source.
   */
  predicate SourceHas(src: Source, frag: string) {
    match src
    case Joined(text) => IsSubstring(frag, text)
    case LineList(lines) => frag in lines
  }

  /** The text a cell's source stands for: a list source is its lines concatenated. */
  function SourceText(src: Source): string {
    match src
    case Joined(text) => text
    case LineList(lines) => Concat(lines)
  }

  /** A directory entry the batch treats as a notebook. */
  predicate IsNotebookFile(name: string) {
    EndsWith(name, ".ipynb")
  }

  /** The notebooks a batch processes: the directory entries ending in `.ipynb`. */
  function NotebookNames(entries: seq<string>): (names: seq<string>)
    ensures |names| <= |entries|
    ensures forall x :: x in names <==> x in entries && EndsWith(x, ".ipynb")
  {
    if entries == [] then []
    else
      var init := NotebookNames(entries[..|entries| - 1]);
      var last := entries[|entries| - 1];
      assert entries == entries[..|entries| - 1] + [last];
      init + (if EndsWith(last, ".ipynb") then [last] else [])
  }

  /** The notebooks are kept in directory order: they are the entries at `Positions(entries, IsNotebookFile)`. */
  lemma {:induction false} NotebookNamesInOrder(entries: seq<string>)
    ensures |NotebookNames(entries)| == |Positions(entries, IsNotebookFile)|
    ensures forall k :: 0 <= k < |NotebookNames(entries)| ==>
      NotebookNames(entries)[k] == entries[Positions(entries, IsNotebookFile)[k]]
  {
    if entries != [] {
      var n := |entries| - 1;
      NotebookNamesInOrder(entries[..n]);
      var r, idx := NotebookNames(entries), Positions(entries, IsNotebookFile);
      var r0, idx0 := NotebookNames(entries[..n]), Positions(entries[..n], IsNotebookFile);
      assert |r| == |idx|;
      forall k | 0 <= k < |r| ensures r[k] == entries[idx[k]] {
        if k < |r0| {
          assert r[k] == r0[k] && idx[k] == idx0[k];
          assert entries[..n][idx0[k]] == entries[idx0[k]];
        }
      }
    }
  }
}
