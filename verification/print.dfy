/** The four renderers of a dependency graph: an adjacency listing (`Text`),
    a DOT dependency graph (`Dot`), a DOT build schedule with every edge
    reversed (`DotSchedule`) and a build-matrix array (`GithubMatrix`).

    Each renderer is modelled in two steps: the walk over the components
    decides which lines (or DOT statements) to emit and in which order, and
    a printer turns them into text with the formats of the source. */
module Print {
  import opened Sorting
  import opened Strings
  import opened Set
  import opened Graph

  // ----- The key list the sorted renderers walk -----

  function Pad(n: nat): seq<string>
  {
    seq(n, _ => "")
  }

  /** The key slice is created with one empty string per key before the
      keys are appended, and `sort.Strings` orders the lot. The
      empty strings sort first, so the list is the padding followed by the
      sorted keys. By `SortedUnique` no other sorted order of the same
      names exists. */
  ghost function PaddedSortedKeys(g: Graph): (cs: seq<string>)
    ensures Sorted(cs)
    ensures multiset(cs) == multiset(Pad(|g.edges|)) + multiset(g.edges.Keys)
    ensures forall c :: c in cs <==> c in g.edges || (c == "" && |g.edges| > 0)
  {
    var pad := Pad(|g.edges|);
    var keys := SortSet(g.edges.Keys);
    assert forall c :: c in keys <==> c in g.edges by {
      forall c ensures c in keys <==> c in g.edges {
        assert c in keys <==> c in multiset(keys);
      }
    }
    assert |g.edges| > 0 ==> pad[0] == "";
    pad + keys
  }

  /** The padding is invisible to a selection without the empty name:
      walking the padded list and skipping unselected names visits the
      selected keys in ascending order, each once. */
  lemma PaddingSkipped(g: Graph, filter: set<string>)
    requires "" !in filter
    ensures Selected(PaddedSortedKeys(g), filter) == SortSet(g.edges.Keys * filter)
  {
    var pad := Pad(|g.edges|);
    assert PaddedSortedKeys(g) == pad + SortSet(g.edges.Keys);
    SelectedAppend(pad, SortSet(g.edges.Keys), filter);
    SelectedNone(pad, filter);
    SelectedSortSet(g.edges.Keys, filter);
  }

  // ----- Text -----

  datatype TextLine = TextLine(component: string, names: seq<string>)

  /** The name printed for a kept edge: its target, prefixed with `!` exactly
      when types are shown and the edge is strong. */
  function Marked(e: Edge, showType: bool): (r: string)
    ensures r == e.target || r == "!" + e.target
    ensures r == "!" + e.target <==> showType && e.colour == Strong
  {
    if showType && e.colour == Strong then "!" + e.target else e.target
  }

  /** The inner loop of `Text`: the selected edges' names in edge order. */
  function KeptNames(filter: set<string>, deps: seq<Edge>, showType: bool): (r: seq<string>)
    ensures |r| == |SelectedEdges(filter, deps)|
    ensures forall i :: 0 <= i < |r| ==> r[i] == Marked(SelectedEdges(filter, deps)[i], showType)
  {
    if deps == [] then []
    else if deps[0].target !in filter then KeptNames(filter, deps[1..], showType)
    else [Marked(deps[0], showType)] + KeptNames(filter, deps[1..], showType)
  }

  /** The outer loop of `Text`: one line per selected entry of `cs`, in the
      order of `cs`, listing that component's kept names. */
  function TextLines(g: Graph, filter: set<string>, cs: seq<string>, showType: bool): (r: seq<TextLine>)
    ensures |r| == |Selected(cs, filter)|
    ensures forall i :: 0 <= i < |r| ==>
      r[i] == TextLine(Selected(cs, filter)[i], KeptNames(filter, Deps(g, Selected(cs, filter)[i]), showType))
  {
    if cs == [] then []
    else if cs[0] !in filter then TextLines(g, filter, cs[1..], showType)
    else [TextLine(cs[0], KeptNames(filter, Deps(g, cs[0]), showType))] + TextLines(g, filter, cs[1..], showType)
  }

  /** Only selected names reach the listing: every line is for a selected
      component of `cs`, and every name on it is the target of one of that
      component's edges, selected, marked or not. */
  lemma TextShowsOnlySelected(g: Graph, filter: set<string>, cs: seq<string>, showType: bool, l: TextLine, n: string)
    requires l in TextLines(g, filter, cs, showType)
    ensures l.component in cs && l.component in filter
    ensures n in l.names ==>
      exists e :: e in Deps(g, l.component) && e.target in filter && (n == e.target || n == "!" + e.target)
  {
    var lines := TextLines(g, filter, cs, showType);
    var i :| 0 <= i < |lines| && lines[i] == l;
    assert l.component == Selected(cs, filter)[i];
    if n in l.names {
      var sel := SelectedEdges(filter, Deps(g, l.component));
      var j :| 0 <= j < |l.names| && l.names[j] == n;
      assert sel[j] in sel;
    }
  }

  /** Unselected entries of the key list contribute nothing. */
  lemma {:induction false} TextLinesSelected(g: Graph, filter: set<string>, cs: seq<string>, showType: bool)
    ensures TextLines(g, filter, cs, showType) == TextLines(g, filter, Selected(cs, filter), showType)
  {
    if cs != [] {
      TextLinesSelected(g, filter, cs[1..], showType);
    }
  }

  /** A listing line: the component, a colon and a space, the names joined
      by a comma and a space, and a newline. */
  function TextLineString(l: TextLine): (r: string)
    ensures |r| == |l.component| + 3 + |Join(l.names, ", ")|
    ensures r[..|l.component|] == l.component && r[|l.component|..|l.component| + 2] == ": "
    ensures r[|r| - 1] == '\n'
  {
    l.component + ": " + Join(l.names, ", ") + "\n"
  }

  /** The lines in order; every line adds text, so only an empty listing
      prints nothing. */
  function RenderText(lines: seq<TextLine>): (r: string)
    ensures r == "" <==> lines == []
  {
    if lines == [] then "" else TextLineString(lines[0]) + RenderText(lines[1..])
  }

  lemma {:induction false} RenderTextAppend(a: seq<TextLine>, b: seq<TextLine>)
    ensures RenderText(a + b) == RenderText(a) + RenderText(b)
  {
    if a == [] {
      assert a + b == b;
    } else {
      assert (a + b)[0] == a[0];
      assert (a + b)[1..] == a[1..] + b;
      RenderTextAppend(a[1..], b);
    }
  }

  /** `Graph.Text`. Unless the empty name is selected, the listing has one
      line per selected key, in ascending order. */
  ghost function Text(g: Graph, selection: seq<string>, showType: bool): (r: string)
    ensures "" !in selection ==>
      r == RenderText(TextLines(g, New(selection), SortSet(g.edges.Keys * New(selection)), showType))
  {
    var filter := New(selection);
    TextPaddingSkipped(g, filter, showType);
    RenderText(TextLines(g, filter, PaddedSortedKeys(g), showType))
  }

  lemma TextPaddingSkipped(g: Graph, filter: set<string>, showType: bool)
    ensures "" !in filter ==>
      TextLines(g, filter, PaddedSortedKeys(g), showType) == TextLines(g, filter, SortSet(g.edges.Keys * filter), showType)
  {
    if "" !in filter {
      var sorted := SortSet(g.edges.Keys * filter);
      TextLinesSelected(g, filter, PaddedSortedKeys(g), showType);
      TextLinesSelected(g, filter, sorted, showType);
      PaddingSkipped(g, filter);
      SelectedSortSet(g.edges.Keys * filter, filter);
      assert g.edges.Keys * filter * filter == g.edges.Keys * filter;
    }
  }

  // ----- DOT statements, shared by Dot and DotSchedule -----

  /** A standalone node declaration or an edge; `dashed` adds the
      ` [style=dashed]` attribute. */
  datatype Stmt = Node(name: string) | Arrow(from: string, to: string, dashed: bool)

  /** One indented DOT line: a quoted node name, or two quoted names joined
      by an arrow, with the dashed style attribute for a weak edge. */
  function StmtString(s: Stmt): (r: string)
    ensures |r| >= 5 && r[..3] == "  \"" && r[|r| - 1] == '\n'
    ensures s.Node? ==> r[|r| - 2] == '"'
    ensures s.Arrow? ==> (s.dashed <==> |r| >= 16 && r[|r| - 16..] == " [style=dashed]\n")
  {
    match s
    case Node(c) => "  \"" + c + "\"\n"
    case Arrow(from, to, dashed) =>
      var r := "  \"" + from + "\" -> \"" + to + "\"" + (if dashed then " [style=dashed]" else "") + "\n";
      assert !dashed ==> r[|r| - 2] == '"' != " [style=dashed]\n"[14];
      r
  }

  /** The statements in order; every statement adds a line, so only an
      empty body prints nothing. */
  function RenderStmts(ss: seq<Stmt>): (r: string)
    ensures r == "" <==> ss == []
  {
    if ss == [] then "" else StmtString(ss[0]) + RenderStmts(ss[1..])
  }

  lemma {:induction false} RenderStmtsAppend(a: seq<Stmt>, b: seq<Stmt>)
    ensures RenderStmts(a + b) == RenderStmts(a) + RenderStmts(b)
  {
    if a == [] {
      assert a + b == b;
    } else {
      assert (a + b)[0] == a[0];
      assert (a + b)[1..] == a[1..] + b;
      RenderStmtsAppend(a[1..], b);
    }
  }

  const Footer := "}\n"

  lemma Framed(head: string, body: string, foot: string)
    ensures |head + body + foot| >= |head| + |foot|
    ensures (head + body + foot)[..|head|] == head
    ensures (head + body + foot)[|head + body + foot| - |foot|..] == foot
  {
    var s := head + body + foot;
    assert s[..|head|] == head;
    assert s[|s| - |foot|..] == foot;
  }

  // ----- Dot -----

  /** The opening line of the dependency digraph. */
  const DotHeader := "digraph dependencies {\n"

  /** The `noDeps` loop: true iff no edge leads to a selected component; it
      stops at the first edge that does. */
  function NoDeps(filter: set<string>, deps: seq<Edge>): (r: bool)
    ensures r <==> NoneSelected(filter, deps)
  {
    if deps == [] then true
    else if deps[0].target in filter then false
    else NoDeps(filter, deps[1..])
  }

  /** The edge loop of `Dot`: one edge from `c` per selected dependency, in
      edge order, dashed exactly when the edge is weak. */
  function DotEdges(c: string, filter: set<string>, deps: seq<Edge>): (r: seq<Stmt>)
    ensures |r| == |SelectedEdges(filter, deps)|
    ensures forall i :: 0 <= i < |r| ==>
      r[i] == Arrow(c, SelectedEdges(filter, deps)[i].target, SelectedEdges(filter, deps)[i].colour == Weak)
  {
    if deps == [] then []
    else if deps[0].target !in filter then DotEdges(c, filter, deps[1..])
    else [Arrow(c, deps[0].target, deps[0].colour == Weak)] + DotEdges(c, filter, deps[1..])
  }

  /** What one selected component contributes to `Dot`: a standalone node
      when none of its targets is selected, then its edges. */
  function DotBlock(g: Graph, filter: set<string>, c: string): (r: seq<Stmt>)
    ensures forall n :: Node(n) in r <==> n == c && NoneSelected(filter, Deps(g, c))
    ensures forall x, t, dashed :: Arrow(x, t, dashed) in r <==>
      x == c && t in filter && exists e :: e in Deps(g, c) && e.target == t && (dashed <==> e.colour == Weak)
  {
    var deps := Deps(g, c);
    var edges := DotEdges(c, filter, deps);
    var sel := SelectedEdges(filter, deps);
    assert forall x, t, dashed :: Arrow(x, t, dashed) in edges <==>
      x == c && t in filter && exists e :: e in deps && e.target == t && (dashed <==> e.colour == Weak)
    by {
      forall x, t, dashed
        ensures Arrow(x, t, dashed) in edges <==>
          x == c && t in filter && exists e :: e in deps && e.target == t && (dashed <==> e.colour == Weak)
      {
        if Arrow(x, t, dashed) in edges {
          var i :| 0 <= i < |edges| && edges[i] == Arrow(x, t, dashed);
          assert sel[i] in sel;
        }
        if x == c && t in filter && exists e :: e in deps && e.target == t && (dashed <==> e.colour == Weak) {
          var e :| e in deps && e.target == t && (dashed <==> e.colour == Weak);
          assert e in sel;
          var i :| 0 <= i < |sel| && sel[i] == e;
          assert edges[i] == Arrow(x, t, dashed);
        }
      }
    }
    (if NoDeps(filter, deps) then [Node(c)] else []) + edges
  }

  /** The component loop of `Dot`: the blocks of the selected entries of
      `cs`, in the order of `cs`. */
  function DotStmts(g: Graph, filter: set<string>, cs: seq<string>): (r: seq<Stmt>)
    ensures forall n :: Node(n) in r <==> n in cs && n in filter && NoneSelected(filter, Deps(g, n))
    ensures forall x, t, dashed :: Arrow(x, t, dashed) in r <==>
      x in cs && x in filter && t in filter
      && exists e :: e in Deps(g, x) && e.target == t && (dashed <==> e.colour == Weak)
  {
    if cs == [] then []
    else if cs[0] !in filter then DotStmts(g, filter, cs[1..])
    else DotBlock(g, filter, cs[0]) + DotStmts(g, filter, cs[1..])
  }

  /** Unselected entries of the key list contribute nothing, and the
      statements come block by block in key-list order. */
  lemma {:induction false} DotStmtsAppend(g: Graph, filter: set<string>, a: seq<string>, b: seq<string>)
    ensures DotStmts(g, filter, a + b) == DotStmts(g, filter, a) + DotStmts(g, filter, b)
  {
    if a == [] {
      assert a + b == b;
    } else {
      assert (a + b)[0] == a[0];
      assert (a + b)[1..] == a[1..] + b;
      DotStmtsAppend(g, filter, a[1..], b);
    }
  }

  lemma {:induction false} DotStmtsSelected(g: Graph, filter: set<string>, cs: seq<string>)
    ensures DotStmts(g, filter, cs) == DotStmts(g, filter, Selected(cs, filter))
  {
    if cs != [] {
      DotStmtsSelected(g, filter, cs[1..]);
    }
  }

  /** `Graph.Dot`. The output is framed by the digraph header and the
      closing brace; unless the empty name is selected, it holds the blocks
      of the selected keys in ascending order. */
  ghost function Dot(g: Graph, selection: seq<string>): (r: string)
    ensures |r| >= |DotHeader| + |Footer|
    ensures r[..|DotHeader|] == DotHeader && r[|r| - |Footer|..] == Footer
    ensures "" !in selection ==>
      r == DotHeader + RenderStmts(DotStmts(g, New(selection), SortSet(g.edges.Keys * New(selection)))) + Footer
  {
    var filter := New(selection);
    var body := RenderStmts(DotStmts(g, filter, PaddedSortedKeys(g)));
    DotPaddingSkipped(g, filter);
    Framed(DotHeader, body, Footer);
    DotHeader + body + Footer
  }

  lemma DotPaddingSkipped(g: Graph, filter: set<string>)
    ensures "" !in filter ==>
      DotStmts(g, filter, PaddedSortedKeys(g)) == DotStmts(g, filter, SortSet(g.edges.Keys * filter))
  {
    if "" !in filter {
      var sorted := SortSet(g.edges.Keys * filter);
      DotStmtsSelected(g, filter, PaddedSortedKeys(g));
      DotStmtsSelected(g, filter, sorted);
      PaddingSkipped(g, filter);
      SelectedSortSet(g.edges.Keys * filter, filter);
      assert g.edges.Keys * filter * filter == g.edges.Keys * filter;
    }
  }

  // ----- DotSchedule -----

  /** The opening of the schedule digraph: left-to-right layout, boxed nodes. */
  const ScheduleHeader := "digraph schedule {\n  rankdir=\"LR\"\n  node [shape=box]\n"

  /** The edge loop of `DotSchedule`: every selected dependency of `c`,
      reversed so that it points from the target to `c`, never dashed. */
  function ScheduleEdges(c: string, filter: set<string>, deps: seq<Edge>): (r: seq<Stmt>)
    ensures |r| == |SelectedEdges(filter, deps)|
    ensures forall i :: 0 <= i < |r| ==> r[i] == Arrow(SelectedEdges(filter, deps)[i].target, c, false)
  {
    if deps == [] then []
    else if deps[0].target !in filter then ScheduleEdges(c, filter, deps[1..])
    else [Arrow(deps[0].target, c, false)] + ScheduleEdges(c, filter, deps[1..])
  }

  /** What one selected component contributes to `DotSchedule`: a standalone
      node when it has no edges at all, selected or not, then its reversed
      edges. */
  function ScheduleBlock(g: Graph, filter: set<string>, c: string): (r: seq<Stmt>)
    ensures forall n :: Node(n) in r <==> n == c && |Deps(g, c)| == 0
    ensures forall t, x, dashed :: Arrow(t, x, dashed) in r <==>
      x == c && !dashed && t in filter && DependsOn(g, c, t)
  {
    var deps := Deps(g, c);
    var edges := ScheduleEdges(c, filter, deps);
    var sel := SelectedEdges(filter, deps);
    assert forall t, x, dashed :: Arrow(t, x, dashed) in edges <==>
      x == c && !dashed && t in filter && DependsOn(g, c, t)
    by {
      forall t, x, dashed
        ensures Arrow(t, x, dashed) in edges <==> x == c && !dashed && t in filter && DependsOn(g, c, t)
      {
        if Arrow(t, x, dashed) in edges {
          var i :| 0 <= i < |edges| && edges[i] == Arrow(t, x, dashed);
          assert sel[i] in sel;
        }
        if x == c && !dashed && t in filter && DependsOn(g, c, t) {
          var e :| e in deps && e.target == t;
          assert e in sel;
          var i :| 0 <= i < |sel| && sel[i] == e;
          assert edges[i] == Arrow(t, x, dashed);
        }
      }
    }
    (if |deps| < 1 then [Node(c)] else []) + edges
  }

  /** The component loop of `DotSchedule`, over the keys in the order the
      map iteration yields them. */
  function ScheduleStmts(g: Graph, filter: set<string>, order: seq<string>): (r: seq<Stmt>)
    ensures forall n :: Node(n) in r <==> n in order && n in filter && |Deps(g, n)| == 0
    ensures forall t, c, dashed :: Arrow(t, c, dashed) in r <==>
      c in order && c in filter && t in filter && !dashed && DependsOn(g, c, t)
  {
    if order == [] then []
    else if order[0] !in filter then ScheduleStmts(g, filter, order[1..])
    else ScheduleBlock(g, filter, order[0]) + ScheduleStmts(g, filter, order[1..])
  }

  /** `Graph.DotSchedule`. Go leaves the order of map iteration open, so the
      order is a parameter: any listing of the keys. */
  function DotSchedule(g: Graph, selection: seq<string>, order: seq<string>): (r: string)
    requires multiset(order) == multiset(g.edges.Keys)
    ensures |r| >= |ScheduleHeader| + |Footer|
    ensures r[..|ScheduleHeader|] == ScheduleHeader && r[|r| - |Footer|..] == Footer
  {
    ScheduleHeader + RenderStmts(ScheduleStmts(g, New(selection), order)) + Footer
  }

  lemma {:induction false} ScheduleStmtsAppend(g: Graph, filter: set<string>, a: seq<string>, b: seq<string>)
    ensures ScheduleStmts(g, filter, a + b) == ScheduleStmts(g, filter, a) + ScheduleStmts(g, filter, b)
  {
    if a == [] {
      assert a + b == b;
    } else {
      assert (a + b)[0] == a[0];
      assert (a + b)[1..] == a[1..] + b;
      ScheduleStmtsAppend(g, filter, a[1..], b);
    }
  }

  /** Where the first name of `o1` sits in a permutation `o2` of it, and
      what is left of both once it is taken out. */
  lemma TakeOut(o1: seq<string>, o2: seq<string>) returns (j: nat)
    requires o1 != [] && multiset(o1) == multiset(o2)
    ensures j < |o2| && o2[j] == o1[0]
    ensures multiset(o1[1..]) == multiset(o2[..j] + o2[j + 1..])
  {
    assert o1[0] in multiset(o2);
    j :| 0 <= j < |o2| && o2[j] == o1[0];
    var before, after := o2[..j], o2[j + 1..];
    assert o1 == [o1[0]] + o1[1..];
    assert o2 == before + [o2[j]] + after;
    assert multiset(o1[1..]) == multiset(o1) - multiset{o1[0]};
    assert multiset(before + after) == multiset(before) + multiset(after);
  }

  /** Moving a block to the front keeps the statements, each as often. */
  lemma MoveToFront(before: seq<Stmt>, block: seq<Stmt>, after: seq<Stmt>, rest: seq<Stmt>)
    requires multiset(rest) == multiset(before + after)
    ensures multiset(before + (block + after)) == multiset(block + rest)
  {
  }

  /** The map iteration order only permutes the schedule: any two orders of
      the same keys yield the same statements, each as often. */
  lemma {:induction false} ScheduleOrderIrrelevant(g: Graph, filter: set<string>, o1: seq<string>, o2: seq<string>)
    requires multiset(o1) == multiset(o2)
    ensures multiset(ScheduleStmts(g, filter, o1)) == multiset(ScheduleStmts(g, filter, o2))
    decreases |o1|
  {
    if o1 == [] {
      assert |o2| == |multiset(o2)| == 0;
    } else {
      var j := TakeOut(o1, o2);
      var k, before, after := o1[0], o2[..j], o2[j + 1..];
      assert o2 == before + ([k] + after);
      assert o1 == [k] + o1[1..];
      ScheduleOrderIrrelevant(g, filter, o1[1..], before + after);
      ScheduleStmtsAppend(g, filter, [k], o1[1..]);
      ScheduleStmtsAppend(g, filter, before, [k] + after);
      ScheduleStmtsAppend(g, filter, [k], after);
      ScheduleStmtsAppend(g, filter, before, after);
      MoveToFront(ScheduleStmts(g, filter, before), ScheduleStmts(g, filter, [k]), ScheduleStmts(g, filter, after),
        ScheduleStmts(g, filter, o1[1..]));
    }
  }

  /** The schedule holds Dot's edges between selected components with their
      direction reversed and their style dropped, and no others. */
  lemma ScheduleReversesDot(g: Graph, filter: set<string>, cs: seq<string>, order: seq<string>, t: string, c: string)
    requires forall x :: x in filter ==> (x in cs <==> x in order)
    ensures Arrow(t, c, false) in ScheduleStmts(g, filter, order) <==>
      Arrow(c, t, true) in DotStmts(g, filter, cs) || Arrow(c, t, false) in DotStmts(g, filter, cs)
  {
    if Arrow(t, c, false) in ScheduleStmts(g, filter, order) {
      var e :| e in Deps(g, c) && e.target == t;
      assert Arrow(c, t, e.colour == Weak) in DotStmts(g, filter, cs);
    }
  }

  // ----- GithubMatrix -----

  /** The one failure of the renderers: a selected component has an edge to
      a selected component, which a flat build matrix cannot express. */
  datatype MatrixError = SubDependency(component: string, target: string)

  datatype Result<T> = Success(value: T) | Failure(error: MatrixError)

  /** The component loop of `GithubMatrix`: the selected entries of `cs` in
      order, or the first selected edge found between selected components. */
  function MatrixNames(g: Graph, filter: set<string>, cs: seq<string>): (r: Result<seq<string>>)
    ensures r.Failure? <==> exists c :: c in cs && c in filter && !NoneSelected(filter, Deps(g, c))
    ensures r.Success? ==> r.value == Selected(cs, filter)
    ensures r.Failure? ==>
      && r.error.component in cs && r.error.component in filter
      && r.error.target in filter && DependsOn(g, r.error.component, r.error.target)
  {
    if cs == [] then Success([])
    else if cs[0] !in filter then MatrixNames(g, filter, cs[1..])
    else
      var sel := SelectedEdges(filter, Deps(g, cs[0]));
      if sel != [] then
        assert sel[0] in sel;
        Failure(SubDependency(cs[0], sel[0].target))
      else
        match MatrixNames(g, filter, cs[1..])
        case Failure(e) => Failure(e)
        case Success(names) => Success([cs[0]] + names)
  }

  /** The names joined by a comma and a space inside square brackets, with a
      newline; a failure passes through. */
  function MatrixOutput(names: Result<seq<string>>): (r: Result<string>)
    ensures r.Failure? <==> names.Failure?
    ensures r.Failure? ==> r.error == names.error
    ensures r.Success? ==> |r.value| == 3 + |Join(names.value, ", ")| && r.value[0] == '[' && r.value[|r.value| - 2..] == "]\n"
  {
    match names
    case Failure(e) => Failure(e)
    case Success(ns) => Success("[" + Join(ns, ", ") + "]\n")
  }

  lemma {:induction false} MatrixNamesSelected(g: Graph, filter: set<string>, cs: seq<string>)
    ensures MatrixNames(g, filter, cs) == MatrixNames(g, filter, Selected(cs, filter))
  {
    if cs != [] {
      MatrixNamesSelected(g, filter, cs[1..]);
    }
  }

  /** `Graph.GithubMatrix`. It fails exactly when a selected key has an edge
      to a selected component, and returns no text then; unless the empty
      name is selected, the array lists the selected keys in ascending
      order. */
  ghost function GithubMatrix(g: Graph, selection: seq<string>): (r: Result<string>)
    ensures r.Failure? <==> exists c :: c in g.edges && c in New(selection) && !NoneSelected(New(selection), g.edges[c])
    ensures r.Success? && "" !in selection ==>
      r.value == "[" + Join(SortSet(g.edges.Keys * New(selection)), ", ") + "]\n"
  {
    var filter := New(selection);
    var cs := PaddedSortedKeys(g);
    if "" !in selection then
      PaddingSkipped(g, filter);
      MatrixOutput(MatrixNames(g, filter, cs))
    else
      MatrixOutput(MatrixNames(g, filter, cs))
  }

  // ----- The renderers over the keys alone -----

  /** The sorted renderers as they evidently were meant to walk the map:
      over its sorted keys, without the empty strings `make` leaves in
      front. Each selected key then shows exactly once, in ascending
      order, whatever the selection holds. */
  ghost function TextSortedKeys(g: Graph, selection: seq<string>, showType: bool): (r: string)
    ensures r == RenderText(TextLines(g, New(selection), SortSet(g.edges.Keys * New(selection)), showType))
  {
    var filter := New(selection);
    TextLinesSelected(g, filter, SortSet(g.edges.Keys), showType);
    TextLinesSelected(g, filter, SortSet(g.edges.Keys * filter), showType);
    SelectedSortSet(g.edges.Keys, filter);
    SelectedSortSet(g.edges.Keys * filter, filter);
    assert g.edges.Keys * filter * filter == g.edges.Keys * filter;
    RenderText(TextLines(g, filter, SortSet(g.edges.Keys), showType))
  }

  ghost function DotSortedKeys(g: Graph, selection: seq<string>): (r: string)
    ensures r == DotHeader + RenderStmts(DotStmts(g, New(selection), SortSet(g.edges.Keys * New(selection)))) + Footer
  {
    var filter := New(selection);
    DotStmtsSelected(g, filter, SortSet(g.edges.Keys));
    DotStmtsSelected(g, filter, SortSet(g.edges.Keys * filter));
    SelectedSortSet(g.edges.Keys, filter);
    SelectedSortSet(g.edges.Keys * filter, filter);
    assert g.edges.Keys * filter * filter == g.edges.Keys * filter;
    DotHeader + RenderStmts(DotStmts(g, filter, SortSet(g.edges.Keys))) + Footer
  }

  ghost function GithubMatrixSortedKeys(g: Graph, selection: seq<string>): (r: Result<string>)
    ensures r.Failure? <==> exists c :: c in g.edges && c in New(selection) && !NoneSelected(New(selection), g.edges[c])
    ensures r.Success? ==> r.value == "[" + Join(SortSet(g.edges.Keys * New(selection)), ", ") + "]\n"
  {
    var filter := New(selection);
    var keys := SortSet(g.edges.Keys);
    assert forall c :: c in keys <==> c in g.edges by {
      forall c ensures c in keys <==> c in g.edges {
        assert c in keys <==> c in multiset(keys);
      }
    }
    SelectedSortSet(g.edges.Keys, filter);
    MatrixOutput(MatrixNames(g, filter, keys))
  }
}
