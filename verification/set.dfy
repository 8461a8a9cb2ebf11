/** The selection filter: Go's `set` package reduced to the membership test
    the renderers use, and the filtering of a name list by it. */
module Set {
  import opened Sorting

  /** `set.New(selection)`: a name is a member iff the list holds it;
      duplicates collapse and nothing is normalised. */
  function New(names: seq<string>): (s: set<string>)
    ensures forall n :: n in s <==> n in names
  {
    set n | n in names
  }

  /** The entries of `cs` that pass `filter.Has`, in their original order;
      every loop of the renderers starts by skipping the names the filter
      does not hold. Each kept name keeps its multiplicity, and a sorted list
      stays sorted. */
  function Selected(cs: seq<string>, filter: set<string>): (r: seq<string>)
    ensures forall x :: x in r <==> x in cs && x in filter
    ensures Sorted(cs) ==> Sorted(r)
  {
    if cs == [] then []
    else
      var rest := Selected(cs[1..], filter);
      assert Sorted(cs) ==> Sorted(cs[1..]) && forall x :: x in cs[1..] ==> LessEq(cs[0], x);
      if cs[0] in filter then [cs[0]] + rest else rest
  }

  /** Filtering keeps every selected name as often as the list holds it and
      drops every other name. */
  lemma {:induction false} SelectedCount(cs: seq<string>, filter: set<string>, x: string)
    ensures multiset(Selected(cs, filter))[x] == if x in filter then multiset(cs)[x] else 0
  {
    if cs != [] {
      assert cs == [cs[0]] + cs[1..];
      SelectedCount(cs[1..], filter, x);
    }
  }

  lemma {:induction false} SelectedAppend(a: seq<string>, b: seq<string>, filter: set<string>)
    ensures Selected(a + b, filter) == Selected(a, filter) + Selected(b, filter)
  {
    if a == [] {
      assert a + b == b;
    } else {
      assert (a + b)[0] == a[0];
      assert (a + b)[1..] == a[1..] + b;
      SelectedAppend(a[1..], b, filter);
      if a[0] in filter {
        calc {
          Selected(a + b, filter);
          [a[0]] + Selected(a[1..] + b, filter);
          [a[0]] + (Selected(a[1..], filter) + Selected(b, filter));
          ([a[0]] + Selected(a[1..], filter)) + Selected(b, filter);
        }
      }
    }
  }

  /** A list without selected names filters to nothing. */
  lemma {:induction false} SelectedNone(cs: seq<string>, filter: set<string>)
    requires forall i :: 0 <= i < |cs| ==> cs[i] !in filter
    ensures Selected(cs, filter) == []
  {
    if cs != [] {
      SelectedNone(cs[1..], filter);
    }
  }

  /** Walking the sorted names of `s` and skipping the unselected ones visits
      exactly the selected names of `s`, in ascending order, each once. */
  lemma SelectedSortSet(s: set<string>, filter: set<string>)
    ensures Selected(SortSet(s), filter) == SortSet(s * filter)
  {
    var a := Selected(SortSet(s), filter);
    var b := SortSet(s * filter);
    assert multiset(a) == multiset(b) by {
      forall x
        ensures multiset(a)[x] == multiset(b)[x]
      {
        SelectedCount(SortSet(s), filter, x);
      }
    }
    SortedUnique(a, b);
  }
}
