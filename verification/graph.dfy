/** The dependency graph the renderers read: each component maps to its
    outgoing edges, in the order they were added. */
module Graph {

  /** Edge colours: a weak edge shows as a dashed line, a strong one as a
      solid line. Colours are plain integers, so an edge may carry a value
      that is neither. */
  const Weak: int := 1
  const Strong: int := 2

  /** One dependency of the owning component on the component `target` (the `Label` of the source). */
  datatype Edge = Edge(target: string, colour: int)

  datatype Graph = Graph(edges: map<string, seq<Edge>>)

  /** `g.edges[c]`: a name that is not a key has no edges, as a missing key
      of a Go map yields a nil slice. */
  function Deps(g: Graph, c: string): (r: seq<Edge>)
    ensures c !in g.edges ==> r == []
  {
    if c in g.edges then g.edges[c] else []
  }

  /** Component `c` has an edge to `t`, whatever its colour. */
  ghost predicate DependsOn(g: Graph, c: string, t: string)
  {
    exists e :: e in Deps(g, c) && e.target == t
  }

  /** No edge of `deps` leads to a selected component. */
  ghost predicate NoneSelected(filter: set<string>, deps: seq<Edge>)
  {
    forall e :: e in deps ==> e.target !in filter
  }

  /** The edges whose target passes the filter, in their original order. */
  function SelectedEdges(filter: set<string>, deps: seq<Edge>): (r: seq<Edge>)
    ensures forall e :: e in r <==> e in deps && e.target in filter
    ensures r == [] <==> NoneSelected(filter, deps)
  {
    if deps == [] then []
    else if deps[0].target in filter then [deps[0]] + SelectedEdges(filter, deps[1..])
    else SelectedEdges(filter, deps[1..])
  }

  /** Selecting from a concatenation selects from each part in turn: the
      kept edges stay in the order the component lists them. */
  lemma {:induction false} SelectedEdgesAppend(filter: set<string>, a: seq<Edge>, b: seq<Edge>)
    ensures SelectedEdges(filter, a + b) == SelectedEdges(filter, a) + SelectedEdges(filter, b)
  {
    if a == [] {
      assert a + b == b;
    } else {
      assert (a + b)[0] == a[0];
      assert (a + b)[1..] == a[1..] + b;
      SelectedEdgesAppend(filter, a[1..], b);
      if a[0].target in filter {
        calc {
          SelectedEdges(filter, a + b);
          [a[0]] + SelectedEdges(filter, a[1..] + b);
          [a[0]] + (SelectedEdges(filter, a[1..]) + SelectedEdges(filter, b));
          ([a[0]] + SelectedEdges(filter, a[1..])) + SelectedEdges(filter, b);
        }
      }
    }
  }

  /** An edge to a selected component is kept as often as the component
      lists it, so a repeated edge is printed each time; any other edge is
      dropped. */
  lemma {:induction false} SelectedEdgesCount(filter: set<string>, deps: seq<Edge>, e: Edge)
    ensures multiset(SelectedEdges(filter, deps))[e] == if e.target in filter then multiset(deps)[e] else 0
  {
    if deps != [] {
      assert deps == [deps[0]] + deps[1..];
      SelectedEdgesCount(filter, deps[1..], e);
    }
  }
}
