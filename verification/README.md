# monobuild graph printing, modelled in Dafny

This project models the rendering layer of monobuild, a build tool for
monorepos. The rendering layer lives in `graph/print.go`. It takes a
dependency graph and a selection of component names. It turns them into
text in one of four formats:

- `Text` prints an adjacency listing, one `component: dep, dep` line per
  selected component. With `showType`, strong dependencies get a `!` prefix.
- `Dot` prints a DOT `digraph dependencies`. Weak edges are dashed. A
  selected component with no selected dependency gets its own node line.
- `DotSchedule` prints a DOT `digraph schedule` with every edge reversed, so
  a dependency points at the components that wait for it.
- `GithubMatrix` prints the selected components as a flat array. It refuses
  when an edge joins two selected components.

The graph maps each component name to its edges. An edge has a target name
and a colour: `Weak` = 1 or `Strong` = 2. Every renderer applies the
selection to the components it walks and to the targets of their edges.

Files and modules:

- `sorting.dfy` (`Sorting`): the lexicographic order `sort.Strings` uses.
  It also defines sorted sequences and the sorted listing `SortSet` of a
  finite set of names. `SortedUnique` proves that a multiset of names has
  only one sorted order.
- `strings.dfy` (`Strings`): `strings.Join`.
- `set.dfy` (`Set`): the selection filter `set.New`, and `Selected`, which
  filters a name list by it.
- `graph.dfy` (`Graph`): edges, colours, the graph, and the selected edges
  of a component.
- `print.dfy` (`Print`): the four renderers. Each one is split in two. A
  walk over the components decides which lines or DOT statements to emit,
  and in which order. A printer then concatenates them with the source's
  `Sprintf` formats.
- `findings.dfy` (`Findings`): the key-list padding defect (see Findings).
- `scenarios.dfy` (`Scenarios`): the renderers on small concrete graphs.

The sorted renderers walk a key list built like this.
`cs := make([]string, len(g.edges))` already holds `len(g.edges)` empty
strings. The keys are appended after them, and then `sort.Strings` sorts
the whole list. The model keeps this exactly. `PaddedSortedKeys` is that
list: the empty strings sort first, so the padding comes before the sorted
keys. Because it uses `SortSet`, which chooses the least name, `Text`, `Dot`
and `GithubMatrix` are ghost functions. `DotSchedule` ranges over the Go map
itself, whose order Go leaves open. So its model takes that order as a
parameter: any listing of the keys.

Go compares strings byte by byte in UTF-8. For valid UTF-8, comparing
Unicode scalar values one at a time gives the same order, so `LessEq`
compares characters.

## Model

| member | source | states |
|---|---|---|
| Sorting.LessEq | graph/print.go:26 | the order `sort.Strings` uses: the first differing character decides, and a name comes no later than any name it is a prefix of |
| Sorting.LessEqTotal | graph/print.go:26 | any two names are comparable |
| Sorting.LessEqAntisymmetric | graph/print.go:26 | two names each at most the other are equal |
| Sorting.LessEqTransitive | graph/print.go:26 | the order is transitive |
| Sorting.SortedUnique | graph/print.go:26 | two sorted sequences holding the same names, each as often, are equal, so the result of `sort.Strings` depends only on the names it is given |
| Sorting.SortSet | graph/print.go:23-26 | the listing of a set of names is sorted and holds each name of the set exactly once |
| Strings.Join | graph/print.go:49 | `strings.Join`: joining no parts gives the empty string, and otherwise the result is exactly as long as the parts plus one separator per gap between neighbours |
| Strings.JoinAppend | graph/print.go:49 | joining two non-empty lists one after the other gives the two joins with one separator between them |
| Set.New | graph/print.go:20 | a name passes the filter iff it occurs in the selection list |
| Set.Selected | graph/print.go:28-31 | the filtered list holds exactly the names that are both in the list and in the filter, and a sorted list stays sorted |
| Set.SelectedCount | graph/print.go:28-31 | filtering keeps each selected name as often as the list holds it and drops every unselected name |
| Set.SelectedAppend | graph/print.go:28-31 | filtering a concatenation gives the concatenation of the filtered parts, so kept names stay in their original order |
| Set.SelectedNone | graph/print.go:28-31 | a list without selected names filters to the empty list |
| Set.SelectedSortSet | graph/print.go:22-31 | walking the sorted keys and skipping unselected ones visits exactly the selected keys, in ascending order, each once |
| Graph.Deps | graph/print.go:33 | a name that is not a key has no edges, as a missing key of a Go map yields a nil slice |
| Graph.SelectedEdges | graph/print.go:36-39 | an edge is kept iff it is one of the component's edges and its target is selected; nothing is kept iff no target is selected |
| Graph.SelectedEdgesAppend | graph/print.go:36-39 | selecting from a concatenation gives the concatenation of the selections, so kept edges stay in the component's edge order |
| Graph.SelectedEdgesCount | graph/print.go:36-39 | an edge to a selected target is kept as often as the component lists it, so a repeated edge prints each time; any other edge is dropped |
| Print.PaddedSortedKeys | graph/print.go:22-26 | the walked key list is sorted and holds one empty string per key plus every key; a name is on it iff it is a key, or it is the empty name and the graph is not empty |
| Print.PaddingSkipped | graph/print.go:22-31 | when the empty name is not selected, the selected entries of the padded list are exactly the selected keys in ascending order |
| Print.Marked | graph/print.go:41-44 | the printed name is the target, with a `!` prefix iff types are shown and the edge is strong; weak edges and edges of any other colour are never marked |
| Print.KeptNames | graph/print.go:35-47 | the names of one line are the targets of the selected edges, in the order `SelectedEdges` keeps them, each marked as `Marked` says |
| Print.TextLines | graph/print.go:28-50 | there is one line per selected entry of the key list, in key-list order, and the i-th line lists the kept names of the i-th selected entry's edges |
| Print.TextShowsOnlySelected | graph/print.go:28-47 | every line is for a selected component, and every name on it is a selected target of that component's edges, with or without `!` |
| Print.TextLinesSelected | graph/print.go:28-31 | unselected entries of the key list contribute no line |
| Print.TextPaddingSkipped | graph/print.go:22-31 | when the empty name is not selected, the lines over the padded key list equal the lines over the sorted selected keys |
| Print.TextLineString | graph/print.go:49 | a listing line is the component, then `: `, then the joined names, then a newline, and nothing else |
| Print.RenderText | graph/print.go:49 | the listing prints nothing iff it has no lines |
| Print.RenderTextAppend | graph/print.go:28-50 | the text of a concatenation of lines is the concatenation of their texts, so lines print in walk order |
| Print.Text | graph/print.go:18-53 | when the empty name is not selected, the listing is one `c: names` line per selected key, in ascending key order |
| Print.StmtString | graph/print.go:82-95 | every DOT line is indented by two spaces, starts with a quoted name and ends with a newline; a node line ends in a closing quote; an edge line ends in ` [style=dashed]` and a newline iff the edge is dashed |
| Print.RenderStmts | graph/print.go:82-95 | the DOT body prints nothing iff it has no statements |
| Print.RenderStmtsAppend | graph/print.go:66-97 | the text of a concatenation of statements is the concatenation of their texts, so statements print in walk order |
| Print.NoDeps | graph/print.go:73-79 | the `noDeps` loop, which stops at the first selected target, is true iff no edge target is selected |
| Print.DotEdges | graph/print.go:85-96 | one edge from the component per selected dependency, in the order `SelectedEdges` keeps them, dashed iff the edge is weak |
| Print.DotBlock | graph/print.go:71-96 | a component gets a standalone node iff none of its targets is selected, and an edge to `t` iff it has an edge to selected `t`, dashed iff that edge is weak |
| Print.DotStmts | graph/print.go:66-97 | a node statement for `n` appears iff `n` is a selected entry whose targets are all unselected; an edge `x -> t` appears iff `x` is a selected entry with an edge to selected `t`, dashed iff that edge is weak; no unselected name appears |
| Print.DotStmtsAppend | graph/print.go:66-97 | the statements come block by block, in key-list order |
| Print.DotStmtsSelected | graph/print.go:66-69 | unselected entries of the key list contribute no statement |
| Print.DotPaddingSkipped | graph/print.go:60-69 | when the empty name is not selected, the statements over the padded key list equal those over the sorted selected keys |
| Print.Dot | graph/print.go:56-100 | the output starts with `digraph dependencies {` and a newline and ends with `}` and a newline; when the empty name is not selected, it holds the blocks of the selected keys in ascending order |
| Print.ScheduleEdges | graph/print.go:117-124 | every selected dependency of `c` is emitted reversed, from the target to `c`, in the order `SelectedEdges` keeps them, never dashed |
| Print.ScheduleBlock | graph/print.go:113-124 | a component gets a standalone node iff it has no edges at all before filtering, and an edge from `t` iff it has an edge to selected `t` |
| Print.ScheduleStmts | graph/print.go:108-125 | a node for `n` appears iff `n` is a selected key with no edges; an edge `t -> c` appears iff `c` is selected, `t` is selected and `c` has an edge to `t`, so a dependency is never printed in its own direction unless the reverse edge exists |
| Print.ScheduleStmtsAppend | graph/print.go:108-125 | the statements come block by block, in iteration order |
| Print.ScheduleOrderIrrelevant | graph/print.go:108 | any two iteration orders of the same keys give the same statements, each as often; only their order differs |
| Print.ScheduleReversesDot | graph/print.go:117-124 | over the same selected keys, the schedule has `t -> c` iff `Dot` has `c -> t`, dashed or not |
| Print.DotSchedule | graph/print.go:104-128 | the output starts with the `digraph schedule` header and its `rankdir` and `node` lines, and ends with `}` and a newline |
| Print.MatrixNames | graph/print.go:141-157 | the walk fails iff some selected entry has an edge to a selected component, and the failure names such an edge; otherwise it returns the selected entries in order |
| Print.MatrixNamesSelected | graph/print.go:141-144 | unselected entries of the key list neither fail nor contribute a name |
| Print.MatrixOutput | graph/print.go:153-159 | a failure passes through with the same edge; otherwise the text is `[`, the names joined by `, `, then `]` and a newline |
| Print.GithubMatrix | graph/print.go:131-160 | the matrix fails iff a selected key has an edge to a selected component, and then it returns no text; when the empty name is not selected, it is `[` plus the selected keys in ascending order joined by `, `, plus `]` and a newline |
| Print.TextSortedKeys | graph/print.go:22-50 | walking the sorted keys without padding gives one line per selected key, in ascending order, for every selection |
| Print.DotSortedKeys | graph/print.go:60-99 | walking the sorted keys without padding gives the blocks of the selected keys, in ascending order, for every selection |
| Print.GithubMatrixSortedKeys | graph/print.go:135-159 | walking the sorted keys without padding fails iff a selected key has a selected target, and otherwise lists exactly the selected keys, in ascending order, for every selection |
| Findings.TextPaddingLine | graph/print.go:22-31 | for the graph `{a: []}` and the selection `["", "a"]`, `Text` prints `: ` and a newline before `a: ` and a newline |
| Findings.DotPaddingNode | graph/print.go:60-83 | for the same input, `Dot` declares a node `""` before node `a` |
| Findings.GithubMatrixPaddingEntry | graph/print.go:135-159 | for the same input, `GithubMatrix` returns `[, a]` and a newline |
| Findings.GithubMatrixSortedKeysSingle | graph/print.go:135-159 | for the same input, the walk over the keys alone returns `[a]` and a newline |
| Scenarios.TextExample | graph/print.go:28-49 | for `{A: [B strong, C weak], C: []}`, all selected, with types shown, the listing is `A: !B, C` then `C: ` |
| Scenarios.DotExample | graph/print.go:66-99 | for the same input, `Dot` prints `A -> B` solid, then `A -> C` dashed, then a standalone `C` |
| Scenarios.MatrixRefusesEdge | graph/print.go:148-154 | for `{A: [B], B: []}`, selecting A and B makes the matrix fail |
| Scenarios.MatrixListsSelection | graph/print.go:141-159 | for the same graph, selecting B alone gives `[B]` and a newline |
| Scenarios.DotKeepsIsolatedA | graph/print.go:73-83 | with only A selected, `Dot` declares A on its own, since its one target is unselected |
| Scenarios.ScheduleDropsA | graph/print.go:113-124 | with only A selected, `DotSchedule` emits no statement at all for A, in any iteration order |
| Scenarios.ScheduleReversesEdge | graph/print.go:117-124 | with A and B selected, the schedule holds `B -> A` and never `A -> B` |

## Left out

- `sort.Strings` is not modelled as an algorithm. The walked key list is defined as the sorted order of its names, and `SortedUnique` proves that any correct sort yields that same list.
- Go's map iteration order in `DotSchedule` is a parameter, so any listing of the keys is allowed. Only properties that hold for every order are stated. `DotSchedule` has no ensures about the statements between its header and footer; those are stated on `ScheduleStmts`.
- The `panic` in `GithubMatrix`, with its fixed message, becomes a `Failure` result. The failure carries the first offending edge found. Go's message does not name that edge.
- Component names are assumed to be valid UTF-8. A Go string can hold any bytes, but a Dafny string holds only Unicode scalar values, and only for valid UTF-8 does character order agree with the byte order of `sort.Strings`.
- `fmt.Sprintf` and `fmt.Sprintln` are plain concatenation of the literal formats shown in the source.
- How the graph is built and how the `set` package is implemented are not part of this model. The graph is a map and the filter is a Dafny set.
- Colours are plain integers, as in the source. An edge whose colour is neither 1 nor 2 is not marked in `Text` and not dashed in `Dot`.
- Names are written into the DOT output without escaping, as the source does. The model does not judge whether such output parses as DOT.
- `Text`, `Dot` and `GithubMatrix` are ghost functions. The sorted key list is defined by choosing least names, which Dafny does not compile.

## Findings

| source | as written | input that shows it | evidently intended | confidence | as-written member | corrected member |
|---|---|---|---|---|---|---|
| graph/print.go:22-26 | `make([]string, len(g.edges))` makes one empty string per key, and `append` adds the keys after them; with the empty name selected, `Text` prints a line `: ` for each empty string | graph `{a: []}`, selection `["", "a"]`: `Text` gives `: \na: \n` | `make([]string, 0, len(g.edges))`, giving `a: \n` | high; not executed | Findings.TextPaddingLine | Print.TextSortedKeys |
| graph/print.go:60-64 | the same padding in `Dot` declares a standalone node `""` | graph `{a: []}`, selection `["", "a"]`: `Dot` declares `""` and `a` | only `a` is declared | high; not executed | Findings.DotPaddingNode | Print.DotSortedKeys |
| graph/print.go:135-139 | the same padding in `GithubMatrix` adds an empty entry to the array | graph `{a: []}`, selection `["", "a"]`: `GithubMatrix` gives `[, a]\n` | `[a]\n` | high; not executed | Findings.GithubMatrixPaddingEntry | Print.GithubMatrixSortedKeys |

`Text`, `Dot` and `GithubMatrix` model the code as written. The renderers
behave the same with and without the padding whenever the empty name is
not selected: their contracts say so, through `TextPaddingSkipped`,
`DotPaddingSkipped` and `PaddingSkipped`.

There is one more difference. It may well be intended, so it is not
listed as a defect. `Dot` decides on a standalone
node after filtering. `DotSchedule` decides before filtering. As a result,
a selected component whose only targets are unselected disappears
completely from the schedule (`Scenarios.DotKeepsIsolatedA`,
`Scenarios.ScheduleDropsA`).
