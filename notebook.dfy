/** The script-to-notebook conversion of tools.py: a script is cut into cells at every
    blank-line pair ("\n\n\n"), each cell's source is its list of lines, and the output
    file name is derived from the input name. */
module Notebook {
  import opened Wrappers
  import opened PyStrings
  import Json

  /** The separator between two cells of a script: two blank lines. */
  const CELL_SEPARATOR: string := "\n\n\n"

  /** The language tag of the output file name. */
  const LANG: string := "fa"

  /** A line as `source_to_list` emits it: it ends in "\n" and holds no other newline. */
  predicate IsLine(l: string)
  {
    |l| > 0 && l[|l| - 1] == '\n' && '\n' !in l[..|l| - 1]
  }

  /** `source_to_list`: the pieces of `code.split("\n")`, each with "\n" appended. */
  function SourceToList(code: string): seq<string>
  {
    var pieces := Split(code, "\n");
    seq(|pieces|, k requires 0 <= k < |pieces| => pieces[k] + "\n")
  }

  /** There is one line more than `code` has newlines. */
  lemma SourceToListLength(code: string)
    ensures |SourceToList(code)| == multiset(code)['\n'] + 1
  {
    SplitCount(code, "\n");
    CountChar(code, '\n');
  }

  lemma NoNewline(p: string)
    requires !Contains(p, "\n")
    ensures '\n' !in p
  {
    if '\n' in p {
      var i :| 0 <= i < |p| && p[i] == '\n';
      assert p[i..i + 1] == "\n";
      assert OccursAt(p, "\n", i);
    }
  }

  /** Every element is one line: it ends in "\n" and has no other newline. */
  lemma SourceToListLines(code: string)
    ensures forall k :: 0 <= k < |SourceToList(code)| ==> IsLine(SourceToList(code)[k])
  {
    var pieces := Split(code, "\n");
    SplitPiecesFree(code, "\n");
    forall k | 0 <= k < |pieces| ensures IsLine(SourceToList(code)[k]) {
      NoNewline(pieces[k]);
      var l := SourceToList(code)[k];
      assert l == pieces[k] + "\n";
      assert l[..|l| - 1] == pieces[k];
    }
  }

  lemma {:induction false} JoinLines(pieces: seq<string>)
    requires |pieces| >= 1
    ensures Join(seq(|pieces|, k requires 0 <= k < |pieces| => pieces[k] + "\n"), "")
         == Join(pieces, "\n") + "\n"
    decreases |pieces|
  {
    var lines := seq(|pieces|, k requires 0 <= k < |pieces| => pieces[k] + "\n");
    if |pieces| > 1 {
      var tail := pieces[1..];
      JoinLines(tail);
      assert lines[1..] == seq(|tail|, k requires 0 <= k < |tail| => tail[k] + "\n");
    }
  }

  /** Concatenating the lines gives back the script with one trailing newline. */
  lemma SourceToListConcat(code: string)
    ensures Join(SourceToList(code), "") == code + "\n"
  {
    SplitNonEmpty(code, "\n");
    JoinLines(Split(code, "\n"));
    JoinSplit(code, "\n");
  }

  /** The empty script becomes one line holding only a newline. */
  lemma SourceToListEmpty()
    ensures SourceToList("") == ["\n"]
  {
    assert Split("", "\n") == [""];
    assert |SourceToList("")| == 1;
    assert SourceToList("")[0] == "" + "\n" == "\n";
  }

  /** A notebook cell as `to_ipynb` builds it. */
  datatype Cell =
    | CodeCell(executionCount: Option<int>, metadata: map<string, Json.Value>,
               outputs: seq<Json.Value>, source: seq<string>)
    | MarkdownCell(metadata: map<string, Json.Value>, source: seq<string>)

  /** The top-level notebook document. */
  datatype Notebook = Notebook(cells: seq<Cell>, metadata: map<string, Json.Value>,
                               nbformat: int, nbformatMinor: int)

  /** The code cell for one chunk of the script. */
  function CodeCellFor(chunk: string): Cell
  {
    CodeCell(None, map[], [], SourceToList(chunk))
  }

  /** The empty markdown cell that follows every code cell. */
  const EMPTY_MARKDOWN: Cell := MarkdownCell(map[], [])

  /** The cells for a sequence of chunks, a code cell and an empty markdown cell per chunk. */
  function CellsFor(chunks: seq<string>): (cells: seq<Cell>)
    ensures |cells| == 2 * |chunks|
  {
    if chunks == [] then []
    else CellsFor(chunks[..|chunks| - 1]) + [CodeCellFor(chunks[|chunks| - 1]), EMPTY_MARKDOWN]
  }

  /** The cells of a non-empty chunk list end with the two cells of its last chunk. */
  lemma CellsForLast(chunks: seq<string>)
    requires chunks != []
    ensures CellsFor(chunks) ==
      CellsFor(chunks[..|chunks| - 1]) + [CodeCellFor(chunks[|chunks| - 1])] + [EMPTY_MARKDOWN]
  {
    AppendPair(CellsFor(chunks[..|chunks| - 1]), CodeCellFor(chunks[|chunks| - 1]), EMPTY_MARKDOWN);
  }

  lemma AppendPair<T>(xs: seq<T>, a: T, b: T)
    ensures xs + [a, b] == xs + [a] + [b]
  {
  }

  /** Cell `2i` is the code cell of chunk `i`, with no execution count, outputs or metadata,
      and cell `2i + 1` an empty markdown cell. */
  lemma {:induction false} CellsForShape(chunks: seq<string>)
    ensures forall i :: 0 <= i < |chunks| ==>
      CellsFor(chunks)[2 * i] == CodeCell(None, map[], [], SourceToList(chunks[i])) &&
      CellsFor(chunks)[2 * i + 1] == MarkdownCell(map[], [])
    decreases |chunks|
  {
    if chunks != [] {
      var n := |chunks|;
      var init := chunks[..n - 1];
      CellsForShape(init);
      CellsForLast(chunks);
      var cells := CellsFor(chunks);
      forall i | 0 <= i < n
        ensures cells[2 * i] == CodeCell(None, map[], [], SourceToList(chunks[i]))
        ensures cells[2 * i + 1] == MarkdownCell(map[], [])
      {
        if i < n - 1 {
          assert chunks[i] == init[i];
        }
      }
    }
  }

  /** The notebook metadata: the language is Python. */
  const NOTEBOOK_METADATA: map<string, Json.Value> :=
    map["language_info" := Json.Obj(map["name" := Json.Str("python")])]

  /** The notebook `to_ipynb(code)` returns. */
  function NotebookOf(code: string): (nb: Notebook)
    ensures nb.nbformat == 4 && nb.nbformatMinor == 2
    ensures "language_info" in nb.metadata && nb.metadata["language_info"].Obj?
    ensures var info := nb.metadata["language_info"].fields;
      "name" in info && info["name"] == Json.Str("python")
  {
    Notebook(CellsFor(Split(code, CELL_SEPARATOR)), NOTEBOOK_METADATA, 4, 2)
  }

  /** `to_ipynb`: grows the cell list chunk by chunk. */
  method ToIpynb(code: string) returns (nb: Notebook)
    ensures nb == NotebookOf(code)
  {
    var chunks := Split(code, CELL_SEPARATOR);
    var cells: seq<Cell> := [];
    for i := 0 to |chunks|
      invariant cells == CellsFor(chunks[..i])
    {
      assert chunks[..i + 1][..i] == chunks[..i];
      cells := cells + [CodeCellFor(chunks[i]), EMPTY_MARKDOWN];
    }
    assert chunks[..|chunks|] == chunks;
    nb := Notebook(cells, NOTEBOOK_METADATA, 4, 2);
  }

  /** The chunk of script a cell holds: its lines joined, without the final newline. */
  function ChunkOf(c: Cell): string
  {
    var text := Join(c.source, "");
    if |text| > 0 then text[..|text| - 1] else text
  }

  /** The chunks of script held by the code cells of a cell list, in order. */
  function CodeChunks(cells: seq<Cell>): seq<string>
  {
    if cells == [] then []
    else
      var last := cells[|cells| - 1];
      CodeChunks(cells[..|cells| - 1]) + (if last.CodeCell? then [ChunkOf(last)] else [])
  }

  /** The script a notebook holds: its code chunks joined with two blank lines. */
  function CodeOf(nb: Notebook): string
  {
    Join(CodeChunks(nb.cells), CELL_SEPARATOR)
  }

  /** The chunk a code cell built from `chunk` holds is `chunk`. */
  lemma ChunkOfCodeCell(chunk: string)
    ensures ChunkOf(CodeCellFor(chunk)) == chunk
  {
    SourceToListConcat(chunk);
    assert (chunk + "\n")[..|chunk|] == chunk;
  }

  /** Appending a cell appends its chunk when it is a code cell, and nothing otherwise. */
  lemma CodeChunksSnoc(cells: seq<Cell>, c: Cell)
    ensures CodeChunks(cells + [c]) == CodeChunks(cells) + (if c.CodeCell? then [ChunkOf(c)] else [])
  {
    PrefixOfSnoc(cells, c);
  }

  lemma PrefixOfSnoc<T>(xs: seq<T>, a: T)
    ensures (xs + [a])[..|xs|] == xs
  {
  }

  /** Appending a chunk appends its code cell's chunk to the code chunks. */
  lemma ChunksOfCellsStep(init: seq<string>, last: string)
    ensures CodeChunks(CellsFor(init + [last])) == CodeChunks(CellsFor(init)) + [last]
  {
    PrefixOfSnoc(init, last);
    CellsForLast(init + [last]);
    var withCode := CellsFor(init) + [CodeCellFor(last)];
    CodeChunksSnoc(withCode, EMPTY_MARKDOWN);
    CodeChunksSnoc(CellsFor(init), CodeCellFor(last));
    ChunkOfCodeCell(last);
  }

  /** The code cells built for a list of chunks hold exactly those chunks. */
  lemma {:induction false} ChunksOfCells(chunks: seq<string>)
    ensures CodeChunks(CellsFor(chunks)) == chunks
    decreases |chunks|
  {
    if chunks != [] {
      var init, last := chunks[..|chunks| - 1], chunks[|chunks| - 1];
      assert init + [last] == chunks;
      ChunksOfCellsStep(init, last);
      ChunksOfCells(init);
    }
  }

  /** Reading back the code cells of the notebook reproduces the script. */
  lemma NotebookRoundTrip(code: string)
    ensures CodeOf(NotebookOf(code)) == code
  {
    ChunksOfCells(Split(code, CELL_SEPARATOR));
    JoinSplit(code, CELL_SEPARATOR);
  }

  /** The suffix `do_conversion` puts before ".ipynb": "_" + LANG, or nothing for no language. */
  function LangSuffix(): string
  {
    if LANG != "" then "_" + LANG else ""
  }

  lemma OutputSuffix()
    ensures LangSuffix() + ".ipynb" == "_fa.ipynb"
  {
  }

  /** The output path `do_conversion` writes to: `path.replace(".py", lang + ".ipynb")`. */
  function OutputPath(path: string): string
  {
    Replace(path, ".py", LangSuffix() + ".ipynb")
  }

  /** Every non-overlapping ".py", left to right, is rewritten to "_fa.ipynb". */
  lemma OutputPathRewritesEveryPy(path: string)
    ensures OutputPath(path) == Join(Split(path, ".py"), "_fa.ipynb")
  {
    OutputSuffix();
    ReplaceIsJoinSplit(path, ".py", "_fa.ipynb");
  }

  /** A script whose only ".py" is its extension gets "_fa.ipynb" in place of it. */
  lemma OutputPathOfScript(stem: string)
    requires !Contains(stem, ".py")
    ensures OutputPath(stem + ".py") == stem + "_fa.ipynb"
  {
    OutputSuffix();
    var path := stem + ".py";
    var n := |stem|;
    forall j: nat | j < n ensures !OccursAt(path, ".py", j) {
      NoEarlyPy(stem, j);
    }
    ReplaceSkip(path, ".py", "_fa.ipynb", n);
    assert path[n..] == ".py";
    assert path[..n] == stem;
  }

  /** Before the extension, ".py" can only occur inside the stem. */
  lemma NoEarlyPy(stem: string, j: nat)
    requires !Contains(stem, ".py") && j < |stem|
    ensures !OccursAt(stem + ".py", ".py", j)
  {
    var path := stem + ".py";
    var n := |stem|;
    if j + 3 <= n {
      assert path[j..j + 3] == stem[j..j + 3];
      assert !OccursAt(stem, ".py", j);
    } else {
      assert path[n] == '.';
      assert path[j..j + 3][n - j] == path[n];
    }
  }

  /** The output path rewrites a ".py" in a directory name as well as the extension. */
  lemma OutputPathRewritesDirectories()
    ensures OutputPath("a.py/b.py") == "a_fa.ipynb/b_fa.ipynb"
    ensures OutputPath("a.py/b.py") != IntendedOutputPath("a.py/b.py")
  {
    OutputSuffix();
    ReplaceExample();
    assert "a.py/b" + ".py" == "a.py/b.py";
    IntendedOfScript("a.py/b");
    ExampleResults();
  }

  lemma ReplaceExample()
    ensures Replace("a.py/b.py", ".py", "_fa.ipynb") == "a_fa.ipynb/b_fa.ipynb"
  {
    var p, r := ".py", "_fa.ipynb";
    ReplaceExampleMiddle();
    assert "a.py/b.py"[0] == 'a' && "a.py/b.py"[1..] == ".py/b.py";
    ReplaceKeep("a.py/b.py", p, r);
    ExampleResults();
  }

  lemma ReplaceExampleMiddle()
    ensures Replace(".py/b.py", ".py", "_fa.ipynb") == "_fa.ipynb" + "/b_fa.ipynb"
  {
    var p, r := ".py", "_fa.ipynb";
    ReplaceExampleTail();
    assert ".py/b.py"[..3] == p && ".py/b.py"[3..] == "/b.py";
    ReplaceMatch(".py/b.py", p, r);
  }

  lemma ReplaceExampleTail()
    ensures Replace("/b.py", ".py", "_fa.ipynb") == "/b_fa.ipynb"
  {
    var p, r := ".py", "_fa.ipynb";
    assert p[3..] == "";
    ReplaceMatch(p, p, r);
    assert "b.py"[0] == 'b' && "b.py"[1..] == p;
    ReplaceKeep("b.py", p, r);
    assert "/b.py"[0] == '/' && "/b.py"[1..] == "b.py";
    ReplaceKeep("/b.py", p, r);
  }

  lemma ExampleResults()
    ensures ['a'] + ("_fa.ipynb" + "/b_fa.ipynb") == "a_fa.ipynb/b_fa.ipynb"
    ensures "a.py/b_fa.ipynb" != "a_fa.ipynb/b_fa.ipynb"
  {
    assert "a.py/b_fa.ipynb"[1] != "a_fa.ipynb/b_fa.ipynb"[1];
  }

  /** The evidently intended output path: only a trailing ".py" is rewritten to "_fa.ipynb". */
  function IntendedOutputPath(path: string): string
  {
    if |path| >= 3 && path[|path| - 3..] == ".py" then path[..|path| - 3] + LangSuffix() + ".ipynb"
    else path
  }

  /** The intended rewrite keeps the whole stem, directories included. */
  lemma IntendedOfScript(stem: string)
    ensures IntendedOutputPath(stem + ".py") == stem + "_fa.ipynb"
  {
    var path := stem + ".py";
    assert path[|path| - 3..] == ".py";
    assert path[..|path| - 3] == stem;
  }

  /** Both rewrites agree on every script whose only ".py" is its extension. */
  lemma IntendedAgreesOnScripts(stem: string)
    requires !Contains(stem, ".py")
    ensures OutputPath(stem + ".py") == IntendedOutputPath(stem + ".py")
  {
    OutputPathOfScript(stem);
    IntendedOfScript(stem);
  }
}
