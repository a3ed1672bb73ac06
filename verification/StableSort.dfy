/** Stable sorting by a comparator, the way sort.SliceStable orders a slice. */
module StableSort {

  /** less is a strict weak order: "not less" is transitive. */
  ghost predicate WeakOrder<T(!new)>(less: (T, T) -> bool) {
    && (forall a, b :: less(a, b) ==> !less(b, a))
    && (forall a, b, c :: !less(a, b) && !less(b, c) ==> !less(a, c))
  }

  ghost predicate Sorted<T(!new)>(xs: seq<T>, less: (T, T) -> bool) {
    forall i, j :: 0 <= i < j < |xs| ==> !less(xs[j], xs[i])
  }

  /** Puts x behind everything that is not greater. */
  function Insert<T>(xs: seq<T>, x: T, less: (T, T) -> bool): seq<T> {
    if xs == [] || !less(x, xs[|xs| - 1]) then xs + [x]
    else Insert(xs[..|xs| - 1], x, less) + [xs[|xs| - 1]]
  }

  function Sort<T>(xs: seq<T>, less: (T, T) -> bool): (r: seq<T>) {
    if xs == [] then [] else Insert(Sort(xs[..|xs| - 1], less), xs[|xs| - 1], less)
  }

  lemma {:induction false} InsertPermutes<T>(xs: seq<T>, x: T, less: (T, T) -> bool)
    ensures multiset(Insert(xs, x, less)) == multiset(xs) + multiset{x}
  {
    if !(xs == [] || !less(x, xs[|xs| - 1])) {
      InsertPermutes(xs[..|xs| - 1], x, less);
      assert xs == xs[..|xs| - 1] + [xs[|xs| - 1]];
    }
  }

  lemma {:induction false} SortPermutes<T>(xs: seq<T>, less: (T, T) -> bool)
    ensures multiset(Sort(xs, less)) == multiset(xs)
    ensures |Sort(xs, less)| == |xs|
  {
    if xs != [] {
      SortPermutes(xs[..|xs| - 1], less);
      InsertPermutes(Sort(xs[..|xs| - 1], less), xs[|xs| - 1], less);
      assert xs == xs[..|xs| - 1] + [xs[|xs| - 1]];
    }
    assert |multiset(Sort(xs, less))| == |Sort(xs, less)|;
  }

  lemma {:induction false} InsertSorts<T(!new)>(xs: seq<T>, x: T, less: (T, T) -> bool)
    requires WeakOrder(less) && Sorted(xs, less)
    ensures Sorted(Insert(xs, x, less), less)
  {
    if xs != [] && less(x, xs[|xs| - 1]) {
      var front, last := xs[..|xs| - 1], xs[|xs| - 1];
      InsertSorts(front, x, less);
      InsertPermutes(front, x, less);
      var r := Insert(front, x, less);
      forall i | 0 <= i < |r|
        ensures !less(last, r[i])
      {
        assert r[i] in multiset(front) + multiset{x};
        if r[i] != x {
          assert r[i] in front;
        }
      }
    } else {
      forall i | 0 <= i < |xs|
        ensures !less(x, xs[i])
      {
        assert i < |xs| - 1 ==> !less(xs[|xs| - 1], xs[i]);
      }
    }
  }

  lemma SortOne<T>(x: T, less: (T, T) -> bool)
    ensures Sort([x], less) == [x]
  {
    assert [x][..0] == [];
    assert Sort([x], less) == Insert(Sort([], less), x, less);
    assert Sort([], less) == [];
  }

  /** Two elements change places exactly when the second is less. */
  lemma SortTwo<T>(x: T, y: T, less: (T, T) -> bool)
    ensures Sort([x, y], less) == if less(y, x) then [y, x] else [x, y]
  {
    hide Insert;
    SortOne(x, less);
    assert [x, y][..1] == [x];
    assert Sort([x, y], less) == Insert([x], y, less);
    InsertTwo(x, y, less);
  }

  lemma InsertTwo<T>(x: T, y: T, less: (T, T) -> bool)
    ensures Insert([x], y, less) == if less(y, x) then [y, x] else [x, y]
  {
    if less(y, x) {
      assert [x][..0] == [];
      assert Insert([x], y, less) == Insert([x][..0], y, less) + [x];
    }
  }

  lemma {:induction false} SortSorts<T(!new)>(xs: seq<T>, less: (T, T) -> bool)
    requires WeakOrder(less)
    ensures Sorted(Sort(xs, less), less)
  {
    if xs != [] {
      SortSorts(xs[..|xs| - 1], less);
      InsertSorts(Sort(xs[..|xs| - 1], less), xs[|xs| - 1], less);
    }
  }

  function Where<T>(xs: seq<T>, p: T -> bool): seq<T> {
    if xs == [] then [] else Where(xs[..|xs| - 1], p) + if p(xs[|xs| - 1]) then [xs[|xs| - 1]] else []
  }

  lemma WhereSnoc<T>(xs: seq<T>, x: T, p: T -> bool)
    ensures Where(xs + [x], p) == Where(xs, p) + if p(x) then [x] else []
  {
    assert (xs + [x])[..|xs|] == xs;
  }

  lemma {:induction false} InsertStable<T(!new)>(xs: seq<T>, x: T, less: (T, T) -> bool, p: T -> bool)
    requires forall a, b :: p(a) && p(b) ==> !less(a, b)
    ensures Where(Insert(xs, x, less), p) == Where(xs, p) + if p(x) then [x] else []
  {
    if xs == [] || !less(x, xs[|xs| - 1]) {
      WhereSnoc(xs, x, p);
    } else {
      var front, last := xs[..|xs| - 1], xs[|xs| - 1];
      InsertStable(front, x, less, p);
      WhereSnoc(Insert(front, x, less), last, p);
    }
  }

  /** Elements that compare equal keep their order. */
  lemma {:induction false} SortIsStable<T(!new)>(xs: seq<T>, less: (T, T) -> bool, p: T -> bool)
    requires forall a, b :: p(a) && p(b) ==> !less(a, b)
    ensures Where(Sort(xs, less), p) == Where(xs, p)
  {
    if xs != [] {
      SortIsStable(xs[..|xs| - 1], less, p);
      InsertStable(Sort(xs[..|xs| - 1], less), xs[|xs| - 1], less, p);
    }
  }

  lemma LastIsGreatest<T(!new)>(xs: seq<T>, less: (T, T) -> bool, x: T)
    requires Sorted(xs, less) && x in xs
    ensures x == xs[|xs| - 1] || !less(xs[|xs| - 1], x)
  {
    var i :| 0 <= i < |xs| && xs[i] == x;
  }

  lemma FrontOf<T(!new)>(xs: seq<T>, less: (T, T) -> bool)
    requires xs != [] && Sorted(xs, less)
    ensures multiset(xs[..|xs| - 1]) == multiset(xs) - multiset{xs[|xs| - 1]}
    ensures Sorted(xs[..|xs| - 1], less)
    ensures TiesAreEqual(multiset(xs), less) ==> TiesAreEqual(multiset(xs[..|xs| - 1]), less)
  {
    LastOut(xs);
    hide Sorted;
    SortedFront(xs, less);
  }

  lemma LastOut<T>(xs: seq<T>)
    requires xs != []
    ensures multiset(xs[..|xs| - 1]) == multiset(xs) - multiset{xs[|xs| - 1]}
  {
    assert xs == xs[..|xs| - 1] + [xs[|xs| - 1]];
  }

  lemma SortedFront<T(!new)>(xs: seq<T>, less: (T, T) -> bool)
    requires xs != [] && Sorted(xs, less)
    ensures Sorted(xs[..|xs| - 1], less)
  {
  }

  lemma SameLength<T>(xs: seq<T>, ys: seq<T>)
    requires multiset(xs) == multiset(ys)
    ensures |xs| == |ys|
  {
    assert |multiset(xs)| == |xs| && |multiset(ys)| == |ys|;
  }

  ghost predicate TiesAreEqual<T(!new)>(xs: multiset<T>, less: (T, T) -> bool) {
    forall a, b :: a in xs && b in xs && !less(a, b) && !less(b, a) ==> a == b
  }

  lemma LastAgrees<T(!new)>(xs: seq<T>, ys: seq<T>, less: (T, T) -> bool)
    requires Sorted(xs, less) && Sorted(ys, less) && multiset(xs) == multiset(ys)
    requires TiesAreEqual(multiset(xs), less) && xs != [] && ys != []
    ensures xs[|xs| - 1] == ys[|ys| - 1]
  {
    var x, y := xs[|xs| - 1], ys[|ys| - 1];
    assert x in multiset(ys) && y in multiset(xs);
    LastIsGreatest(xs, less, y);
    LastIsGreatest(ys, less, x);
  }

  /** When ties mean equality there is only one sorted arrangement. */
  lemma {:induction false} SortedIsUnique<T(!new)>(xs: seq<T>, ys: seq<T>, less: (T, T) -> bool)
    requires Sorted(xs, less) && Sorted(ys, less) && multiset(xs) == multiset(ys)
    requires TiesAreEqual(multiset(xs), less)
    ensures xs == ys
  {
    hide Sorted, TiesAreEqual;
    SameLength(xs, ys);
    if xs != [] {
      LastAgrees(xs, ys, less);
      FrontOf(xs, less);
      FrontOf(ys, less);
      SortedIsUnique(xs[..|xs| - 1], ys[..|ys| - 1], less);
      assert xs == xs[..|xs| - 1] + [xs[|xs| - 1]] && ys == ys[..|ys| - 1] + [ys[|ys| - 1]];
    }
  }
}
