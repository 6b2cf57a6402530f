/** Stable sorting, filtering, and relations between the elements of a sequence. */
module Sorting {
  /** Every element stands in `rel` to all that come after it. */
  ghost predicate Pairwise<T(!new)>(l: seq<T>, rel: (T, T) -> bool) {
    forall i, j :: 0 <= i < j < |l| ==> rel(l[i], l[j])
  }

  ghost predicate Symmetric<T(!new)>(rel: (T, T) -> bool) {
    forall a, b :: rel(a, b) ==> rel(b, a)
  }

  ghost predicate TotalPreorder<T(!new)>(le: (T, T) -> bool) {
    && (forall a, b :: le(a, b) || le(b, a))
    && (forall a, b, c :: le(a, b) && le(b, c) ==> le(a, c))
  }

  /** Stable insertion: behind everything that is not greater. */
  function Insert<T>(l: seq<T>, x: T, le: (T, T) -> bool): seq<T> {
    if l == [] || le(l[|l| - 1], x) then l + [x]
    else Insert(l[..|l| - 1], x, le) + [l[|l| - 1]]
  }

  /** The stable sort. */
  function Sort<T>(l: seq<T>, le: (T, T) -> bool): seq<T> {
    if l == [] then [] else Insert(Sort(l[..|l| - 1], le), l[|l| - 1], le)
  }

  function Filter<T>(l: seq<T>, keep: T -> bool): seq<T> {
    if l == [] then []
    else Filter(l[..|l| - 1], keep) + if keep(l[|l| - 1]) then [l[|l| - 1]] else []
  }

  // ---- sorting ----

  lemma {:induction false} InsertContents<T(!new)>(l: seq<T>, x: T, le: (T, T) -> bool)
    ensures |Insert(l, x, le)| == |l| + 1
    ensures forall y :: y in Insert(l, x, le) <==> y in l || y == x
    decreases |l|
  {
    if l == [] || le(l[|l| - 1], x) {
    } else {
      var front, last := l[..|l| - 1], l[|l| - 1];
      InsertContents(front, x, le);
      assert l == front + [last];
    }
  }

  /** Insertion keeps a relation that the new element has to the others in both directions. */
  lemma {:induction false} InsertPairwise<T(!new)>(l: seq<T>, x: T, le: (T, T) -> bool, rel: (T, T) -> bool)
    requires Pairwise(l, rel)
    requires forall y :: y in l ==> rel(y, x) && rel(x, y)
    ensures Pairwise(Insert(l, x, le), rel)
    decreases |l|
  {
    if l == [] || le(l[|l| - 1], x) {
    } else {
      var front, last := l[..|l| - 1], l[|l| - 1];
      assert l == front + [last];
      InsertPairwise(front, x, le, rel);
      InsertContents(front, x, le);
      SnocPairwise(Insert(front, x, le), last, rel);
    }
  }

  lemma SnocPairwise<T(!new)>(l: seq<T>, x: T, rel: (T, T) -> bool)
    requires Pairwise(l, rel)
    requires forall y :: y in l ==> rel(y, x)
    ensures Pairwise(l + [x], rel)
  {
  }

  lemma ConsPairwise<T(!new)>(x: T, l: seq<T>, rel: (T, T) -> bool)
    requires Pairwise(l, rel)
    requires forall y :: y in l ==> rel(x, y)
    ensures Pairwise([x] + l, rel)
  {
  }

  lemma {:induction false} InsertOrdered<T(!new)>(l: seq<T>, x: T, le: (T, T) -> bool)
    requires TotalPreorder(le) && Pairwise(l, le)
    ensures Pairwise(Insert(l, x, le), le)
    decreases |l|
  {
    if l == [] {
    } else {
      var front, last := l[..|l| - 1], l[|l| - 1];
      assert l == front + [last];
      if le(last, x) {
        forall y | y in l
          ensures le(y, x)
        {
          assert y != last ==> y in front;
          assert le(last, last) || y in front;
        }
        SnocPairwise(l, x, le);
      } else {
        InsertOrdered(front, x, le);
        InsertContents(front, x, le);
        SnocPairwise(Insert(front, x, le), last, le);
      }
    }
  }

  lemma {:induction false} SortContents<T(!new)>(l: seq<T>, le: (T, T) -> bool)
    ensures |Sort(l, le)| == |l|
    ensures forall y :: y in Sort(l, le) <==> y in l
    decreases |l|
  {
    if l != [] {
      var front, last := l[..|l| - 1], l[|l| - 1];
      assert l == front + [last];
      SortContents(front, le);
      InsertContents(Sort(front, le), last, le);
    }
  }

  lemma {:induction false} SortOrdered<T(!new)>(l: seq<T>, le: (T, T) -> bool)
    requires TotalPreorder(le)
    ensures Pairwise(Sort(l, le), le)
    decreases |l|
  {
    if l != [] {
      SortOrdered(l[..|l| - 1], le);
      InsertOrdered(Sort(l[..|l| - 1], le), l[|l| - 1], le);
    }
  }

  lemma {:induction false} SortPairwise<T(!new)>(l: seq<T>, le: (T, T) -> bool, rel: (T, T) -> bool)
    requires Pairwise(l, rel) && Symmetric(rel)
    ensures Pairwise(Sort(l, le), rel)
    decreases |l|
  {
    if l != [] {
      var front, last := l[..|l| - 1], l[|l| - 1];
      assert l == front + [last];
      SortPairwise(front, le, rel);
      SortContents(front, le);
      InsertPairwise(Sort(front, le), last, le, rel);
    }
  }

  /** A listing in strict order is determined by its elements. */
  lemma {:induction false} OrderedUnique<T(!new)>(a: seq<T>, b: seq<T>, lt: (T, T) -> bool)
    requires Pairwise(a, lt) && Pairwise(b, lt)
    requires forall x, y :: !(lt(x, y) && lt(y, x))
    requires forall x :: x in a <==> x in b
    ensures a == b
    decreases |a|
  {
    if a == [] {
      NonEmpty(b);
    } else {
      assert a[0] in b;
      assert b[0] in a;
      FirstIsLeast(a, b[0], lt);
      FirstIsLeast(b, a[0], lt);
      TailElements(a, lt);
      TailElements(b, lt);
      OrderedUnique(a[1..], b[1..], lt);
      assert a == [a[0]] + a[1..] && b == [b[0]] + b[1..];
    }
  }

  lemma FirstIsLeast<T(!new)>(a: seq<T>, x: T, lt: (T, T) -> bool)
    requires Pairwise(a, lt) && x in a
    ensures x == a[0] || lt(a[0], x)
  {
    var i :| 0 <= i < |a| && a[i] == x;
  }

  lemma TailElements<T(!new)>(a: seq<T>, lt: (T, T) -> bool)
    requires a != [] && Pairwise(a, lt)
    requires forall x, y :: !(lt(x, y) && lt(y, x))
    ensures forall x :: x in a[1..] <==> x in a && x != a[0]
  {
    assert !lt(a[0], a[0]);
    forall x
      ensures x in a[1..] <==> x in a && x != a[0]
    {
      if x in a[1..] {
        var i :| 0 <= i < |a[1..]| && a[1..][i] == x;
        assert lt(a[0], a[i + 1]);
      }
      if x in a && x != a[0] {
        var i :| 0 <= i < |a| && a[i] == x;
        assert a[1..][i - 1] == x;
      }
    }
  }

  lemma NonEmpty<T(!new)>(b: seq<T>)
    ensures b == [] || exists x :: x in b
  {
    if b != [] {
      assert b[0] in b;
    }
  }

  // ---- filtering ----

  lemma {:induction false} FilterSnoc<T(!new)>(l: seq<T>, x: T, keep: T -> bool)
    ensures Filter(l + [x], keep) == Filter(l, keep) + if keep(x) then [x] else []
  {
    assert (l + [x])[..|l|] == l;
  }

  lemma {:induction false} FilterContents<T(!new)>(l: seq<T>, keep: T -> bool)
    ensures |Filter(l, keep)| <= |l|
    ensures forall y :: y in Filter(l, keep) <==> y in l && keep(y)
    ensures (forall y :: y in l ==> keep(y)) ==> Filter(l, keep) == l
    decreases |l|
  {
    if l != [] {
      var front, last := l[..|l| - 1], l[|l| - 1];
      FilterContents(front, keep);
      assert l == front + [last];
      assert last in l;
    }
  }

  lemma {:induction false} FilterNone<T(!new)>(l: seq<T>, keep: T -> bool)
    requires forall y :: y in l ==> !keep(y)
    ensures Filter(l, keep) == []
    decreases |l|
  {
    if l != [] {
      assert l[|l| - 1] in l;
      FilterNone(l[..|l| - 1], keep);
    }
  }

  lemma {:induction false} FilterPairwise<T(!new)>(l: seq<T>, keep: T -> bool, rel: (T, T) -> bool)
    requires Pairwise(l, rel)
    ensures Pairwise(Filter(l, keep), rel)
    decreases |l|
  {
    if l != [] {
      var front, last := l[..|l| - 1], l[|l| - 1];
      FilterPairwise(front, keep, rel);
      FilterContents(front, keep);
      if keep(last) {
        SnocPairwise(Filter(front, keep), last, rel);
      }
    }
  }

  lemma FilterNothing<T(!new)>(keep: T -> bool)
    ensures Filter([], keep) == []
  {
  }

  lemma {:induction false} FilterConcat<T(!new)>(a: seq<T>, b: seq<T>, keep: T -> bool)
    ensures Filter(a + b, keep) == Filter(a, keep) + Filter(b, keep)
    decreases |b|
  {
    hide Filter;
    if b == [] {
      FilterNothing(keep);
      assert a + b == a;
    } else {
      var front, last := b[..|b| - 1], b[|b| - 1];
      FilterConcat(a, front, keep);
      FilterSnoc(a + front, last, keep);
      FilterSnoc(front, last, keep);
      assert a + b == a + front + [last] && b == front + [last];
    }
  }

  lemma {:induction false} FilterSame<T(!new)>(l: seq<T>, f: T -> bool, g: T -> bool)
    requires forall x :: x in l ==> f(x) == g(x)
    ensures Filter(l, f) == Filter(l, g)
    decreases |l|
  {
    if l != [] {
      assert l[|l| - 1] in l;
      FilterSame(l[..|l| - 1], f, g);
    }
  }

  lemma {:induction false} InsertAtEnd<T(!new)>(l: seq<T>, x: T, le: (T, T) -> bool)
    ensures (forall y :: y in l ==> le(y, x)) ==> Insert(l, x, le) == l + [x]
  {
    if l != [] {
      assert l[|l| - 1] in l;
    }
  }

  lemma {:induction false} InsertBefore<T(!new)>(l: seq<T>, last: T, x: T, le: (T, T) -> bool)
    requires !le(last, x)
    ensures Insert(l + [last], x, le) == Insert(l, x, le) + [last]
  {
    assert (l + [last])[..|l|] == l;
  }

  lemma AllBelow<T(!new)>(l: seq<T>, x: T, le: (T, T) -> bool)
    requires TotalPreorder(le) && Pairwise(l, le) && l != [] && le(l[|l| - 1], x)
    ensures forall y :: y in l ==> le(y, x)
  {
    forall y | y in l
      ensures le(y, x)
    {
      var i :| 0 <= i < |l| && l[i] == y;
      assert i == |l| - 1 || le(l[i], l[|l| - 1]);
    }
  }

  lemma {:induction false} InsertFilter<T(!new)>(l: seq<T>, x: T, le: (T, T) -> bool, keep: T -> bool)
    requires TotalPreorder(le) && Pairwise(l, le)
    ensures Filter(Insert(l, x, le), keep) == if keep(x) then Insert(Filter(l, keep), x, le) else Filter(l, keep)
    decreases |l|
  {
    hide Filter, Insert, TotalPreorder;
    FilterContents(l, keep);
    if l == [] || le(l[|l| - 1], x) {
      if l != [] {
        AllBelow(l, x, le);
      }
      InsertAtEnd(l, x, le);
      FilterSnoc(l, x, keep);
      InsertAtEnd(Filter(l, keep), x, le);
    } else {
      var front, last := l[..|l| - 1], l[|l| - 1];
      assert l == front + [last];
      InsertFilter(front, x, le, keep);
      InsertBefore(front, last, x, le);
      FilterSnoc(Insert(front, x, le), last, keep);
      FilterSnoc(front, last, keep);
      InsertBefore(Filter(front, keep), last, x, le);
      assert Filter(front, keep) + [] == Filter(front, keep);
      assert Insert(Filter(front, keep), x, le) + [] == Insert(Filter(front, keep), x, le);
    }
  }

  /** Sorting and filtering commute, because the sort is stable. */
  lemma {:induction false} SortFilter<T(!new)>(l: seq<T>, le: (T, T) -> bool, keep: T -> bool)
    requires TotalPreorder(le)
    ensures Sort(Filter(l, keep), le) == Filter(Sort(l, le), keep)
    decreases |l|
  {
    hide Filter, Sort, Insert, TotalPreorder;
    if l == [] {
      SortNothing(le);
      FilterContents(l, keep);
      FilterContents(Sort(l, le), keep);
    } else {
      var front, last := l[..|l| - 1], l[|l| - 1];
      SortFilter(front, le, keep);
      SortOrdered(front, le);
      assert l == front + [last];
      SortSnoc(front, last, le);
      InsertFilter(Sort(front, le), last, le, keep);
      FilterSnoc(front, last, keep);
      SortSnoc(Filter(front, keep), last, le);
      assert Filter(front, keep) + [] == Filter(front, keep);
    }
  }

  lemma SortNothing<T(!new)>(le: (T, T) -> bool)
    ensures Sort([], le) == []
  {
  }

  lemma {:induction false} SortSnoc<T(!new)>(l: seq<T>, x: T, le: (T, T) -> bool)
    ensures Sort(l + [x], le) == Insert(Sort(l, le), x, le)
  {
    assert (l + [x])[..|l|] == l;
  }
}
