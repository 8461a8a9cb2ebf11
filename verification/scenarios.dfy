/** The renderers on small concrete graphs: the listing, DOT and matrix
    outputs for concrete inputs, and the standalone-node rules of `Dot` and
    `DotSchedule` side by side. */
module Scenarios {
  import opened Sorting
  import opened Strings
  import opened Set
  import opened Graph
  import opened Print

  /** A depends strongly on B and weakly on C; C has no edges; B is no key. */
  function Mixed(): Graph
  {
    Graph(map["A" := [Edge("B", Strong), Edge("C", Weak)], "C" := []])
  }

  /** A depends strongly on B; B has no edges. */
  function Chain(): Graph
  {
    Graph(map["A" := [Edge("B", Strong)], "B" := []])
  }

  lemma MixedKeys(filter: set<string>)
    requires filter == {"A", "B", "C"}
    ensures SortSet(Mixed().edges.Keys * filter) == ["A", "C"]
  {
    assert Mixed().edges.Keys * filter == {"A", "C"};
    SortSetPair("A", "C");
  }

  lemma MixedLines(filter: set<string>)
    requires filter == {"A", "B", "C"}
    ensures TextLines(Mixed(), filter, ["A", "C"], true) == [TextLine("A", ["!B", "C"]), TextLine("C", [])]
  {
    var deps := [Edge("B", Strong), Edge("C", Weak)];
    assert Deps(Mixed(), "A") == deps && Deps(Mixed(), "C") == [];
    assert deps[1..] == [Edge("C", Weak)] && deps[1..][1..] == [];
    assert KeptNames(filter, deps[1..][1..], true) == [];
    assert KeptNames(filter, deps[1..], true) == ["C"];
    assert Marked(deps[0], true) == "!B";
    assert KeptNames(filter, deps, true) == ["!B"] + ["C"];
    assert ["!B"] + ["C"] == ["!B", "C"];
    assert ["A", "C"][1..] == ["C"] && ["C"][1..] == [];
  }

  lemma MixedLineA()
    ensures TextLineString(TextLine("A", ["!B", "C"])) == "A: !B, C\n"
  {
    assert ["!B", "C"][1..] == ["C"];
    assert Join(["!B", "C"], ", ") == "!B, C";
  }

  lemma MixedLineC()
    ensures TextLineString(TextLine("C", [])) == "C: \n"
  {
  }

  lemma MixedRenderText()
    ensures RenderText([TextLine("A", ["!B", "C"]), TextLine("C", [])]) == "A: !B, C\n" + "C: \n"
  {
    var lines := [TextLine("A", ["!B", "C"]), TextLine("C", [])];
    assert lines[1..] == [TextLine("C", [])];
    MixedLineA();
    MixedLineC();
    assert RenderText(lines[1..]) == "C: \n";
  }

  /** The strong edge is marked, the weak one is not, and the component C
      without dependencies still gets its line. */
  lemma TextExample()
    ensures Text(Mixed(), ["A", "B", "C"], true) == "A: !B, C\n" + "C: \n"
  {
    var filter := New(["A", "B", "C"]);
    assert filter == {"A", "B", "C"};
    MixedKeys(filter);
    MixedLines(filter);
    MixedRenderText();
  }

  lemma MixedBlockA(filter: set<string>)
    requires filter == {"A", "B", "C"}
    ensures DotBlock(Mixed(), filter, "A") == [Arrow("A", "B", false), Arrow("A", "C", true)]
  {
    var deps := [Edge("B", Strong), Edge("C", Weak)];
    assert Deps(Mixed(), "A") == deps;
    assert deps[1..] == [Edge("C", Weak)] && deps[1..][1..] == [];
    assert !NoDeps(filter, deps);
    assert DotEdges("A", filter, deps[1..][1..]) == [];
    assert DotEdges("A", filter, deps[1..]) == [Arrow("A", "C", true)];
    assert DotEdges("A", filter, deps) == [Arrow("A", "B", false)] + [Arrow("A", "C", true)];
    assert [Arrow("A", "B", false)] + [Arrow("A", "C", true)] == [Arrow("A", "B", false), Arrow("A", "C", true)];
  }

  lemma MixedStmts(filter: set<string>)
    requires filter == {"A", "B", "C"}
    ensures DotStmts(Mixed(), filter, ["A", "C"]) == [Arrow("A", "B", false), Arrow("A", "C", true), Node("C")]
  {
    MixedBlockA(filter);
    assert Deps(Mixed(), "C") == [];
    assert DotEdges("C", filter, []) == [];
    assert DotBlock(Mixed(), filter, "C") == [Node("C")];
    assert ["A", "C"][1..] == ["C"] && ["C"][1..] == [];
    assert DotStmts(Mixed(), filter, ["C"]) == [Node("C")];
    assert DotStmts(Mixed(), filter, ["A", "C"]) == [Arrow("A", "B", false), Arrow("A", "C", true)] + [Node("C")];
  }

  lemma SolidLine()
    ensures StmtString(Arrow("A", "B", false)) == "  \"A\" -> \"B\"\n"
  {
  }

  lemma DashedLine()
    ensures StmtString(Arrow("A", "C", true)) == "  \"A\" -> \"C\" [style=dashed]\n"
  {
  }

  lemma NodeLine()
    ensures StmtString(Node("C")) == "  \"C\"\n"
  {
  }

  lemma MixedRender()
    ensures RenderStmts([Arrow("A", "B", false), Arrow("A", "C", true), Node("C")])
         == "  \"A\" -> \"B\"\n" + "  \"A\" -> \"C\" [style=dashed]\n" + "  \"C\"\n"
  {
    var ss := [Arrow("A", "B", false), Arrow("A", "C", true), Node("C")];
    assert ss[1..] == [Arrow("A", "C", true), Node("C")];
    assert ss[1..][1..] == [Node("C")];
    SolidLine();
    DashedLine();
    NodeLine();
    assert RenderStmts(ss[1..][1..]) == StmtString(Node("C"));
    assert RenderStmts(ss[1..]) == StmtString(Arrow("A", "C", true)) + StmtString(Node("C"));
  }

  lemma DotMixed()
    ensures Dot(Mixed(), ["A", "B", "C"])
         == DotHeader + RenderStmts([Arrow("A", "B", false), Arrow("A", "C", true), Node("C")]) + Footer
  {
    var filter := New(["A", "B", "C"]);
    assert filter == {"A", "B", "C"};
    MixedKeys(filter);
    MixedStmts(filter);
  }

  /** The strong edge is solid, the weak one dashed, and C, which has no
      selected dependency, is declared on its own. */
  lemma DotExample()
    ensures Dot(Mixed(), ["A", "B", "C"])
         == "digraph dependencies {\n"
          + ("  \"A\" -> \"B\"\n" + "  \"A\" -> \"C\" [style=dashed]\n" + "  \"C\"\n")
          + "}\n"
  {
    DotMixed();
    MixedRender();
  }

  /** Selecting both ends of the edge A -> B makes the matrix fail. */
  lemma MatrixRefusesEdge()
    ensures GithubMatrix(Chain(), ["A", "B"]).Failure?
  {
    var filter := New(["A", "B"]);
    assert "A" in Chain().edges && "A" in filter;
    assert Chain().edges["A"][0] in Chain().edges["A"];
  }

  lemma ChainOnlyB(filter: set<string>)
    requires filter == {"B"}
    ensures GithubMatrix(Chain(), ["B"]).Success?
    ensures SortSet(Chain().edges.Keys * filter) == ["B"]
  {
    assert Chain().edges.Keys * filter == {"B"};
    SortSetSingle("B");
    assert forall c :: c in Chain().edges ==> c == "A" || c == "B";
    assert NoneSelected(filter, Chain().edges["B"]);
  }

  lemma MatrixBText()
    ensures "[" + Join(["B"], ", ") + "]\n" == "[B]\n"
  {
    assert Join(["B"], ", ") == "B";
  }

  /** Selecting B alone leaves no edge inside the selection. */
  lemma MatrixListsSelection()
    ensures GithubMatrix(Chain(), ["B"]) == Success("[B]\n")
  {
    var filter := New(["B"]);
    assert filter == {"B"};
    ChainOnlyB(filter);
    MatrixBText();
  }

  /** With only A selected, `Dot` declares A on its own, because its one
      target B is unselected. */
  lemma DotKeepsIsolatedA()
    ensures Node("A") in DotStmts(Chain(), New(["A"]), PaddedSortedKeys(Chain()))
  {
    var filter := New(["A"]);
    assert filter == {"A"};
    assert "A" in PaddedSortedKeys(Chain());
    assert NoneSelected(filter, Deps(Chain(), "A"));
  }

  /** With only A selected, `DotSchedule` emits nothing at all for A: A has
      an edge, so it gets no standalone line, and the edge's target is
      unselected, so it gets no edge line either. The standalone-node rules
      of the two renderers differ. */
  lemma {:induction false} ScheduleDropsA(order: seq<string>)
    ensures ScheduleStmts(Chain(), New(["A"]), order) == []
  {
    var filter := New(["A"]);
    assert filter == {"A"};
    if order != [] {
      ScheduleDropsA(order[1..]);
      if order[0] in filter {
        var deps := Deps(Chain(), "A");
        assert deps == [Edge("B", Strong)] && deps[1..] == [];
        assert ScheduleEdges("A", filter, deps) == [];
        assert ScheduleBlock(Chain(), filter, order[0]) == [];
      }
    }
  }

  lemma EmptySchedule(order: seq<string>)
    requires multiset(order) == multiset(Chain().edges.Keys)
    ensures DotSchedule(Chain(), ["A"], order) == ScheduleHeader + Footer
  {
    ScheduleDropsA(order);
  }

  /** Under a selection of both ends, the schedule shows the edge A -> B as
      B -> A and never as A -> B. */
  lemma ScheduleReversesEdge(order: seq<string>)
    requires multiset(order) == multiset(Chain().edges.Keys)
    ensures Arrow("B", "A", false) in ScheduleStmts(Chain(), New(["A", "B"]), order)
    ensures forall dashed :: Arrow("A", "B", dashed) !in ScheduleStmts(Chain(), New(["A", "B"]), order)
  {
    var filter := New(["A", "B"]);
    assert filter == {"A", "B"};
    assert "A" in multiset(order);
    assert Deps(Chain(), "A")[0] in Deps(Chain(), "A");
    assert !DependsOn(Chain(), "B", "A");
  }
}
