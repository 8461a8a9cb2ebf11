/** The lexicographic order on strings that Go's `sort.Strings` uses, sorted
    sequences, and the sorted listing of a finite set of names.

    Go compares strings byte by byte; for names in valid UTF-8, comparing
    Unicode scalar values one by one gives the same order, so the model
    compares characters and takes names to be valid UTF-8. */
module Sorting {

  /** `a <= b` in lexicographic order: a proper prefix comes first. */
  predicate LessEq(a: string, b: string)
    ensures a <= b ==> LessEq(a, b)
  {
    |a| == 0 || (|b| > 0 && (a[0] < b[0] || (a[0] == b[0] && LessEq(a[1..], b[1..]))))
  }

  lemma LessEqReflexive(a: string)
    ensures LessEq(a, a)
  {
  }

  lemma {:induction false} LessEqTotal(a: string, b: string)
    ensures LessEq(a, b) || LessEq(b, a)
  {
    if |a| > 0 && |b| > 0 && a[0] == b[0] {
      LessEqTotal(a[1..], b[1..]);
    }
  }

  lemma {:induction false} LessEqAntisymmetric(a: string, b: string)
    requires LessEq(a, b) && LessEq(b, a)
    ensures a == b
  {
    if |a| > 0 && |b| > 0 {
      LessEqAntisymmetric(a[1..], b[1..]);
      assert a == [a[0]] + a[1..];
      assert b == [b[0]] + b[1..];
    }
  }

  lemma {:induction false} LessEqTransitive(a: string, b: string, c: string)
    requires LessEq(a, b) && LessEq(b, c)
    ensures LessEq(a, c)
  {
    if |a| > 0 && |b| > 0 && |c| > 0 && a[0] == b[0] && b[0] == c[0] {
      LessEqTransitive(a[1..], b[1..], c[1..]);
    }
  }

  /** Every pair, not just neighbours, is in order. */
  predicate Sorted(s: seq<string>)
  {
    forall i, j :: 0 <= i < j < |s| ==> LessEq(s[i], s[j])
  }

  predicate IsLeast(m: string, s: set<string>)
  {
    m in s && forall x :: x in s ==> LessEq(m, x)
  }

  lemma {:induction false} LeastExists(s: set<string>)
    requires s != {}
    ensures exists m :: IsLeast(m, s)
    decreases s
  {
    var x :| x in s;
    var rest := s - {x};
    if rest == {} {
      assert s == {x};
      LessEqReflexive(x);
      assert IsLeast(x, s);
    } else {
      LeastExists(rest);
      var m :| IsLeast(m, rest);
      LessEqTotal(x, m);
      if LessEq(x, m) {
        forall y | y in s
          ensures LessEq(x, y)
        {
          if y == x {
            LessEqReflexive(x);
          } else {
            LessEqTransitive(x, m, y);
          }
        }
        assert IsLeast(x, s);
      } else {
        assert IsLeast(m, s);
      }
    }
  }

  /** The names of `s` in ascending order, each once. */
  ghost function SortSet(s: set<string>): (r: seq<string>)
    ensures Sorted(r)
    ensures multiset(r) == multiset(s)
    decreases s
  {
    if s == {} then []
    else
      LeastExists(s);
      var m :| IsLeast(m, s);
      var rest := SortSet(s - {m});
      assert forall k :: 0 <= k < |rest| ==> LessEq(m, rest[k]) by {
        forall k | 0 <= k < |rest|
          ensures LessEq(m, rest[k])
        {
          assert rest[k] in multiset(s - {m});
        }
      }
      assert multiset({m}) + multiset(s - {m}) == multiset(s);
      [m] + rest
  }

  /** The head of a sorted sequence is below every name it holds. */
  lemma HeadLeast(a: seq<string>, x: string)
    requires Sorted(a) && x in a
    ensures LessEq(a[0], x)
  {
    var i :| 0 <= i < |a| && a[i] == x;
    if i == 0 {
      LessEqReflexive(x);
    }
  }

  /** Two sorted orders of the same names start with the same name. */
  lemma SameHead(a: seq<string>, b: seq<string>)
    requires Sorted(a) && Sorted(b) && a != []
    requires multiset(a) == multiset(b)
    ensures b != [] && a[0] == b[0]
  {
    assert a[0] in multiset(b);
    HeadLeast(b, a[0]);
    assert b[0] in multiset(a);
    HeadLeast(a, b[0]);
    LessEqAntisymmetric(a[0], b[0]);
  }

  /** A sorted order of a multiset of names is unique: whichever algorithm
      sorts, the result is the same sequence. */
  lemma {:induction false} SortedUnique(a: seq<string>, b: seq<string>)
    requires Sorted(a) && Sorted(b)
    requires multiset(a) == multiset(b)
    ensures a == b
  {
    if a != [] {
      SameHead(a, b);
      assert a == [a[0]] + a[1..];
      assert b == [b[0]] + b[1..];
      assert multiset(a[1..]) == multiset(a) - multiset{a[0]};
      assert multiset(b[1..]) == multiset(b) - multiset{b[0]};
      SortedUnique(a[1..], b[1..]);
    } else {
      assert |b| == |multiset(b)| == 0;
    }
  }

  lemma SortSetSingle(x: string)
    ensures SortSet({x}) == [x]
  {
    assert multiset([x]) == multiset({x});
    SortedUnique(SortSet({x}), [x]);
  }

  lemma SortSetPair(x: string, y: string)
    requires LessEq(x, y) && x != y
    ensures SortSet({x, y}) == [x, y]
  {
    assert multiset([x, y]) == multiset({x, y});
    SortedUnique(SortSet({x, y}), [x, y]);
  }
}
