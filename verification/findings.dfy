/** The empty-string padding of the sorted renderers' key list, shown on a
    one-component graph. The key slice is created with a length equal to the
    number of keys, so it starts as that many empty strings rather than
    empty with room for them,
    so a selection that holds the empty name renders them as components. */
module Findings {
  import opened Sorting
  import opened Strings
  import opened Set
  import opened Graph
  import opened Print

  /** One component without dependencies. */
  function Single(): Graph
  {
    Graph(map["a" := []])
  }

  /** A selection holding the empty name besides the component. */
  function WithEmptyName(): seq<string>
  {
    ["", "a"]
  }

  lemma PaddedSingle()
    ensures PaddedSortedKeys(Single()) == ["", "a"]
  {
    SortSetSingle("a");
    assert Pad(1) == [""];
  }

  lemma TextLinesSingle(filter: set<string>)
    requires "" in filter && "a" in filter
    ensures TextLines(Single(), filter, ["", "a"], false) == [TextLine("", []), TextLine("a", [])]
  {
    assert ["", "a"][1..] == ["a"] && ["a"][1..] == [];
    assert Deps(Single(), "") == [] && Deps(Single(), "a") == [];
    assert TextLines(Single(), filter, ["a"], false) == [TextLine("a", [])];
  }

  lemma RenderTwoLines()
    ensures RenderText([TextLine("", []), TextLine("a", [])]) == ": \na: \n"
  {
    assert [TextLine("", []), TextLine("a", [])][1..] == [TextLine("a", [])];
    assert RenderText([TextLine("a", [])]) == "a: \n";
  }

  /** As written, `Text` lists a component named "" that the graph does not
      have, besides the one it has. */
  lemma TextPaddingLine()
    ensures Text(Single(), WithEmptyName(), false) == ": \na: \n"
  {
    PaddedSingle();
    var filter := New(WithEmptyName());
    assert "" in filter && "a" in filter;
    TextLinesSingle(filter);
    RenderTwoLines();
  }

  lemma DotStmtsSingle(filter: set<string>)
    requires "" in filter && "a" in filter
    ensures DotStmts(Single(), filter, ["a"]) == [Node("a")]
    ensures DotStmts(Single(), filter, ["", "a"]) == [Node(""), Node("a")]
  {
    assert ["", "a"][1..] == ["a"] && ["a"][1..] == [];
    assert Deps(Single(), "") == [] && Deps(Single(), "a") == [];
    assert DotBlock(Single(), filter, "a") == [Node("a")];
    assert DotBlock(Single(), filter, "") == [Node("")];
  }

  lemma DotSingleStmts()
    ensures Dot(Single(), WithEmptyName()) == DotHeader + RenderStmts([Node(""), Node("a")]) + Footer
  {
    PaddedSingle();
    var filter := New(WithEmptyName());
    assert "" in filter && "a" in filter;
    DotStmtsSingle(filter);
  }

  lemma RenderTwoNodes()
    ensures RenderStmts([Node(""), Node("a")]) == "  \"\"\n  \"a\"\n"
  {
    assert [Node(""), Node("a")][1..] == [Node("a")];
    assert RenderStmts([Node("a")]) == "  \"a\"\n";
  }

  lemma DotTwoNodesText()
    ensures DotHeader + "  \"\"\n  \"a\"\n" + Footer == "digraph dependencies {\n  \"\"\n  \"a\"\n}\n"
  {
  }

  /** As written, `Dot` declares a standalone node "" besides "a". */
  lemma DotPaddingNode()
    ensures Dot(Single(), WithEmptyName()) == "digraph dependencies {\n  \"\"\n  \"a\"\n}\n"
  {
    DotSingleStmts();
    RenderTwoNodes();
    DotTwoNodesText();
  }

  lemma MatrixNamesSingle(filter: set<string>)
    requires "" in filter && "a" in filter
    ensures MatrixNames(Single(), filter, ["a"]) == Success(["a"])
    ensures MatrixNames(Single(), filter, ["", "a"]) == Success(["", "a"])
  {
    assert ["", "a"][1..] == ["a"] && ["a"][1..] == [];
    assert Deps(Single(), "") == [] && Deps(Single(), "a") == [];
    assert SelectedEdges(filter, []) == [];
    assert MatrixNames(Single(), filter, ["a"][1..]) == Success([]);
    assert ["a"] + [] == ["a"];
    assert MatrixNames(Single(), filter, ["a"]) == Success(["a"]);
    assert MatrixNames(Single(), filter, ["", "a"]) == Success([""] + ["a"]);
    assert [""] + ["a"] == ["", "a"];
  }

  /** As written, `GithubMatrix` puts an empty entry in front of "a". */
  lemma GithubMatrixPaddingEntry()
    ensures GithubMatrix(Single(), WithEmptyName()) == Success("[, a]\n")
  {
    PaddedSingle();
    var filter := New(WithEmptyName());
    assert "" in filter && "a" in filter;
    MatrixNamesSingle(filter);
    assert GithubMatrix(Single(), WithEmptyName()) == MatrixOutput(Success(["", "a"]));
    assert ["", "a"][1..] == ["a"];
    assert Join(["", "a"], ", ") == "" + ", " + "a";
    assert "[" + ("" + ", " + "a") + "]\n" == "[, a]\n";
  }

  /** Over the keys alone the same input gives the one component. */
  lemma GithubMatrixSortedKeysSingle()
    ensures GithubMatrixSortedKeys(Single(), WithEmptyName()) == Success("[a]\n")
  {
    SortSetSingle("a");
    var filter := New(WithEmptyName());
    assert "" in filter && "a" in filter;
    assert Single().edges.Keys * filter == {"a"};
    assert forall c :: c in Single().edges ==> c == "a";
    assert NoneSelected(filter, Single().edges["a"]);
    var r := GithubMatrixSortedKeys(Single(), WithEmptyName());
    assert r.Success?;
    assert r.value == "[" + Join(["a"], ", ") + "]\n";
    assert Join(["a"], ", ") == "a";
    assert "[" + "a" + "]\n" == "[a]\n";
  }
}
