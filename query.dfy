/**
 * Selection and ordering of rows. SQLite's `WHERE` and Go's
 * `slices.DeleteFunc` are both an order-keeping filter; SQLite's `ORDER BY`
 * and Go's `sort.Slice` are both modelled by one stable insertion sort,
 * parameterised by the comparison, whose result is sorted and a permutation
 * of its input.
 */
module Query {

  /** The elements of `xs` that satisfy `keep`, in their original order. */
  function Filter<T>(xs: seq<T>, keep: T -> bool): (r: seq<T>)
    ensures |r| <= |xs|
    decreases |xs|
  {
    if |xs| == 0 then []
    else
      var init := xs[..|xs| - 1];
      var last := xs[|xs| - 1];
      assert xs == init + [last];
      var r := Filter(init, keep);
      if keep(last) then r + [last] else r
  }

  /** A filter keeps exactly the elements that pass. */
  lemma {:induction false} FilterMembers<T(!new)>(xs: seq<T>, keep: T -> bool)
    ensures forall x :: x in Filter(xs, keep) <==> x in xs && keep(x)
    decreases |xs|
  {
    if |xs| > 0 {
      var init := xs[..|xs| - 1];
      FilterMembers(init, keep);
      assert xs == init + [xs[|xs| - 1]];
    }
  }

  /** A filter keeps the relative order: an element kept from a prefix stays in front. */
  lemma {:induction false} FilterSnoc<T(!new)>(xs: seq<T>, x: T, keep: T -> bool)
    ensures Filter(xs + [x], keep) == if keep(x) then Filter(xs, keep) + [x] else Filter(xs, keep)
  {
    assert (xs + [x])[..|xs|] == xs;
  }

  /** A filter that rejects every element leaves nothing. */
  lemma {:induction false} FilterNone<T(!new)>(xs: seq<T>, keep: T -> bool)
    requires forall i :: 0 <= i < |xs| ==> !keep(xs[i])
    ensures Filter(xs, keep) == []
    decreases |xs|
  {
    if |xs| > 0 {
      FilterNone(xs[..|xs| - 1], keep);
    }
  }

  /** Two conditions that agree on every element select the same elements. */
  lemma {:induction false} FilterCongruent<T(!new)>(xs: seq<T>, f: T -> bool, g: T -> bool)
    requires forall x :: x in xs ==> f(x) == g(x)
    ensures Filter(xs, f) == Filter(xs, g)
    decreases |xs|
  {
    if |xs| > 0 {
      FilterCongruent(xs[..|xs| - 1], f, g);
      assert xs[|xs| - 1] in xs;
    }
  }

  /** The first element a filter keeps is the first element of the input that passes. */
  lemma {:induction false} FilterFirst<T(!new)>(xs: seq<T>, keep: T -> bool)
    requires |Filter(xs, keep)| > 0
    ensures exists k :: 0 <= k < |xs| && xs[k] == Filter(xs, keep)[0]
                && forall j :: 0 <= j < k ==> !keep(xs[j])
    decreases |xs|
  {
    var n := |xs| - 1;
    var init := xs[..n];
    var last := xs[n];
    assert init + [last] == xs;
    FilterSnoc(init, last, keep);
    if |Filter(init, keep)| > 0 {
      FilterFirst(init, keep);
      var k :| 0 <= k < |init| && init[k] == Filter(init, keep)[0]
                && forall j :: 0 <= j < k ==> !keep(init[j]);
      assert Filter(xs, keep)[0] == Filter(init, keep)[0];
      assert forall j :: 0 <= j <= k ==> xs[j] == init[j];
    } else {
      FilterMembers(init, keep);
      forall j | 0 <= j < n ensures !keep(xs[j]) {
        assert xs[j] == init[j];
        assert init[j] in init;
      }
      assert Filter(xs, keep) == [last];
    }
  }

  /** `le` is total and transitive: a valid sort order with ties allowed. */
  ghost predicate TotalPreorder<T(!new)>(le: (T, T) -> bool) {
    && (forall a, b :: le(a, b) || le(b, a))
    && (forall a, b, c :: le(a, b) && le(b, c) ==> le(a, c))
  }

  predicate SortedBy<T>(xs: seq<T>, le: (T, T) -> bool) {
    forall i, j :: 0 <= i < j < |xs| ==> le(xs[i], xs[j])
  }

  /** Insert `x` into `xs` after every element that is not above it. */
  function InsertBy<T>(x: T, xs: seq<T>, le: (T, T) -> bool): (r: seq<T>)
    ensures |r| == |xs| + 1
    ensures multiset(r) == multiset(xs) + multiset{x}
    decreases |xs|
  {
    if |xs| == 0 then [x]
    else if le(xs[|xs| - 1], x) then xs + [x]
    else
      var init := xs[..|xs| - 1];
      assert xs == init + [xs[|xs| - 1]];
      InsertBy(x, init, le) + [xs[|xs| - 1]]
  }

  /** Stable insertion sort: equal elements keep their input order. */
  function SortBy<T>(xs: seq<T>, le: (T, T) -> bool): (r: seq<T>)
    ensures |r| == |xs|
    ensures multiset(r) == multiset(xs)
    decreases |xs|
  {
    if |xs| == 0 then []
    else
      var init := xs[..|xs| - 1];
      assert xs == init + [xs[|xs| - 1]];
      InsertBy(xs[|xs| - 1], SortBy(init, le), le)
  }

  lemma {:induction false} InsertBySorted<T(!new)>(x: T, xs: seq<T>, le: (T, T) -> bool)
    requires TotalPreorder(le)
    requires SortedBy(xs, le)
    ensures SortedBy(InsertBy(x, xs, le), le)
    decreases |xs|
  {
    if |xs| > 0 && !le(xs[|xs| - 1], x) {
      var init := xs[..|xs| - 1];
      var last := xs[|xs| - 1];
      assert SortedBy(init, le);
      InsertBySorted(x, init, le);
      var r := InsertBy(x, init, le);
      assert le(x, last);
      forall e | e in multiset(r) ensures le(e, last) {
        assert e in multiset(init) + multiset{x};
        if e in multiset(init) {
          var k :| 0 <= k < |init| && init[k] == e;
        }
      }
      forall i | 0 <= i < |r| ensures le(r[i], last) {
        assert r[i] in multiset(r);
      }
    }
  }

  /** The sorted result is in order. */
  lemma {:induction false} SortBySorted<T(!new)>(xs: seq<T>, le: (T, T) -> bool)
    requires TotalPreorder(le)
    ensures SortedBy(SortBy(xs, le), le)
    decreases |xs|
  {
    if |xs| > 0 {
      var init := xs[..|xs| - 1];
      SortBySorted(init, le);
      InsertBySorted(xs[|xs| - 1], SortBy(init, le), le);
    }
  }

  /** Sorting neither adds nor drops an element. */
  lemma SortByKeeps<T>(xs: seq<T>, le: (T, T) -> bool, x: T)
    ensures x in SortBy(xs, le) <==> x in xs
  {
    var r := SortBy(xs, le);
    assert x in r <==> x in multiset(r);
    assert x in xs <==> x in multiset(xs);
  }
}
