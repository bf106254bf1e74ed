/** A stable insertion sort standing for Python's `sorted`, and the order Python gives strings
    and pairs of strings. */
module Sorting {

  ghost predicate TotalPreorder<T(!new)>(le: (T, T) -> bool) {
    && (forall x, y :: le(x, y) || le(y, x))
    && (forall x, y, z :: le(x, y) && le(y, z) ==> le(x, z))
  }

  ghost predicate SortedBy<T>(xs: seq<T>, le: (T, T) -> bool) {
    |xs| > 1 ==> le(xs[|xs| - 2], xs[|xs| - 1]) && SortedBy(xs[..|xs| - 1], le)
  }

  /** Put `x` behind everything that is not greater. */
  function Insert<T>(xs: seq<T>, x: T, le: (T, T) -> bool): seq<T> {
    if xs == [] || le(xs[|xs| - 1], x) then xs + [x]
    else Insert(xs[..|xs| - 1], x, le) + [xs[|xs| - 1]]
  }

  function Sort<T>(xs: seq<T>, le: (T, T) -> bool): seq<T> {
    if xs == [] then [] else Insert(Sort(xs[..|xs| - 1], le), xs[|xs| - 1], le)
  }

  lemma {:induction false} InsertKeepsElements<T>(xs: seq<T>, x: T, le: (T, T) -> bool)
    ensures multiset(Insert(xs, x, le)) == multiset(xs) + multiset{x}
    ensures |Insert(xs, x, le)| == |xs| + 1
  {
    if xs != [] && !le(xs[|xs| - 1], x) {
      InsertKeepsElements(xs[..|xs| - 1], x, le);
      assert xs == xs[..|xs| - 1] + [xs[|xs| - 1]];
    }
  }

  lemma {:induction false} InsertIsSorted<T(!new)>(xs: seq<T>, x: T, le: (T, T) -> bool)
    requires TotalPreorder(le) && SortedBy(xs, le)
    ensures SortedBy(Insert(xs, x, le), le)
  {
    if xs != [] && !le(xs[|xs| - 1], x) {
      var init, last := xs[..|xs| - 1], xs[|xs| - 1];
      InsertIsSorted(init, x, le);
      InsertKeepsElements(init, x, le);
      var r := Insert(init, x, le);
      assert (r + [last])[..|r|] == r;
      assert r[|r| - 1] == x || (init != [] && r[|r| - 1] == init[|init| - 1]);
    } else {
      assert (xs + [x])[..|xs|] == xs;
    }
  }

  lemma {:induction false} SortKeepsElements<T>(xs: seq<T>, le: (T, T) -> bool)
    ensures multiset(Sort(xs, le)) == multiset(xs)
    ensures |Sort(xs, le)| == |xs|
  {
    if xs != [] {
      SortKeepsElements(xs[..|xs| - 1], le);
      InsertKeepsElements(Sort(xs[..|xs| - 1], le), xs[|xs| - 1], le);
      assert xs == xs[..|xs| - 1] + [xs[|xs| - 1]];
    }
  }

  lemma {:induction false} SortIsSorted<T(!new)>(xs: seq<T>, le: (T, T) -> bool)
    requires TotalPreorder(le)
    ensures SortedBy(Sort(xs, le), le)
  {
    if xs != [] {
      SortIsSorted(xs[..|xs| - 1], le);
      InsertIsSorted(Sort(xs[..|xs| - 1], le), xs[|xs| - 1], le);
    }
  }

  lemma SameElement<T>(xs: seq<T>, ys: seq<T>, x: T)
    requires multiset(xs) == multiset(ys)
    ensures x in xs <==> x in ys
  {
    assert x in xs <==> x in multiset(xs);
    assert x in ys <==> x in multiset(ys);
  }

  ghost predicate Distinct<T>(xs: seq<T>) {
    forall i, j :: 0 <= i < j < |xs| ==> xs[i] != xs[j]
  }

  lemma DistinctSnoc<T>(init: seq<T>, last: T)
    ensures Distinct(init + [last]) <==> Distinct(init) && last !in init
  {
    var xs := init + [last];
    if Distinct(xs) {
      forall i, j | 0 <= i < j < |init| ensures init[i] != init[j] {
        assert xs[i] != xs[j];
      }
      forall i | 0 <= i < |init| ensures init[i] != last {
        assert xs[i] != xs[|init|];
      }
    }
  }

  lemma {:induction false} DistinctByCount<T>(xs: seq<T>)
    ensures Distinct(xs) <==> forall x :: multiset(xs)[x] <= 1
  {
    if xs != [] {
      var init, last := xs[..|xs| - 1], xs[|xs| - 1];
      DistinctByCount(init);
      DistinctSnoc(init, last);
      assert xs == init + [last];
      hide Distinct;
      assert forall x :: multiset(xs)[x] == multiset(init)[x] + (if x == last then 1 else 0);
      assert last in init <==> multiset(init)[last] >= 1;
      if forall x :: multiset(xs)[x] <= 1 {
        forall x ensures multiset(init)[x] <= 1 {
          assert multiset(xs)[x] <= 1;
        }
      }
    }
  }

  lemma PermutationIsDistinct<T>(xs: seq<T>, ys: seq<T>)
    requires multiset(xs) == multiset(ys) && Distinct(xs)
    ensures Distinct(ys)
  {
    DistinctByCount(xs);
    DistinctByCount(ys);
  }

  // ----- images -----

  function Image<T, U>(xs: seq<T>, f: T -> U): (r: seq<U>)
    ensures |r| == |xs| && forall i :: 0 <= i < |xs| ==> r[i] == f(xs[i])
  {
    seq(|xs|, i requires 0 <= i < |xs| => f(xs[i]))
  }

  lemma ImageSnoc<T, U>(xs: seq<T>, x: T, f: T -> U)
    ensures Image(xs + [x], f) == Image(xs, f) + [f(x)]
  {
  }

  lemma {:induction false} InsertImage<T, U>(xs: seq<T>, x: T, le: (T, T) -> bool, f: T -> U)
    ensures multiset(Image(Insert(xs, x, le), f)) == multiset(Image(xs, f)) + multiset{f(x)}
  {
    if xs == [] || le(xs[|xs| - 1], x) {
      ImageSnoc(xs, x, f);
    } else {
      var init, last := xs[..|xs| - 1], xs[|xs| - 1];
      InsertImage(init, x, le, f);
      ImageSnoc(Insert(init, x, le), last, f);
      ImageSnoc(init, last, f);
      assert xs == init + [last];
    }
  }

  /** Sorting only rearranges what is computed from the elements. */
  lemma {:induction false} SortImage<T, U>(xs: seq<T>, le: (T, T) -> bool, f: T -> U)
    ensures multiset(Image(Sort(xs, le), f)) == multiset(Image(xs, f))
  {
    if xs != [] {
      var init, last := xs[..|xs| - 1], xs[|xs| - 1];
      SortImage(init, le, f);
      InsertImage(Sort(init, le), last, le, f);
      ImageSnoc(init, last, f);
      assert xs == init + [last];
    }
  }

  // ----- folds -----

  function Fold<A, T>(xs: seq<T>, zero: A, step: (A, T) -> A): A {
    if xs == [] then zero else step(Fold(xs[..|xs| - 1], zero, step), xs[|xs| - 1])
  }

  /** The order of two elements makes no difference. */
  ghost predicate Commutes<A(!new), T(!new)>(step: (A, T) -> A) {
    forall a, x, y :: step(step(a, x), y) == step(step(a, y), x)
  }

  lemma FoldSnoc<A, T>(xs: seq<T>, x: T, zero: A, step: (A, T) -> A)
    ensures Fold(xs + [x], zero, step) == step(Fold(xs, zero, step), x)
  {
    assert (xs + [x])[..|xs|] == xs;
  }

  lemma {:induction false} FoldInsert<A(!new), T(!new)>(xs: seq<T>, x: T, le: (T, T) -> bool, zero: A, step: (A, T) -> A)
    requires Commutes(step)
    ensures Fold(Insert(xs, x, le), zero, step) == step(Fold(xs, zero, step), x)
  {
    if xs == [] || le(xs[|xs| - 1], x) {
      FoldSnoc(xs, x, zero, step);
    } else {
      var init, last := xs[..|xs| - 1], xs[|xs| - 1];
      FoldInsert(init, x, le, zero, step);
      FoldSnoc(Insert(init, x, le), last, zero, step);
    }
  }

  /** What does not depend on the order is the same after sorting. */
  lemma {:induction false} FoldSort<A(!new), T(!new)>(xs: seq<T>, le: (T, T) -> bool, zero: A, step: (A, T) -> A)
    requires Commutes(step)
    ensures Fold(Sort(xs, le), zero, step) == Fold(xs, zero, step)
  {
    if xs != [] {
      FoldSort(xs[..|xs| - 1], le, zero, step);
      FoldInsert(Sort(xs[..|xs| - 1], le), xs[|xs| - 1], le, zero, step);
    }
  }

  // ----- strings and pairs -----

  predicate StringLe(a: string, b: string) {
    a == "" || (b != "" && (a[0] < b[0] || (a[0] == b[0] && StringLe(a[1..], b[1..]))))
  }

  predicate PairLe(p: (string, string), q: (string, string)) {
    if p.0 == q.0 then StringLe(p.1, q.1) else StringLe(p.0, q.0)
  }

  lemma {:induction false} StringLeTotal(a: string, b: string)
    ensures StringLe(a, b) || StringLe(b, a)
    ensures StringLe(a, b) && StringLe(b, a) ==> a == b
  {
    if a != "" && b != "" && a[0] == b[0] {
      StringLeTotal(a[1..], b[1..]);
      assert a == [a[0]] + a[1..] && b == [b[0]] + b[1..];
    }
  }

  lemma {:induction false} StringLeTransitive(a: string, b: string, c: string)
    requires StringLe(a, b) && StringLe(b, c)
    ensures StringLe(a, c)
  {
    if a != "" && a[0] == b[0] && b[0] == c[0] {
      StringLeTransitive(a[1..], b[1..], c[1..]);
    }
  }

  lemma PairLeIsTotal()
    ensures TotalPreorder(PairLe)
  {
    forall p, q ensures PairLe(p, q) || PairLe(q, p) {
      StringLeTotal(p.0, q.0);
      StringLeTotal(p.1, q.1);
    }
    forall p, q, r | PairLe(p, q) && PairLe(q, r) ensures PairLe(p, r) {
      StringLeTotal(p.0, q.0);
      StringLeTotal(q.0, r.0);
      if p.0 == q.0 && q.0 == r.0 {
        StringLeTransitive(p.1, q.1, r.1);
      } else {
        if p.0 != q.0 && q.0 != r.0 {
          StringLeTransitive(p.0, q.0, r.0);
        }
      }
    }
  }

  lemma PairLeIsAntisymmetric(p: (string, string), q: (string, string))
    requires PairLe(p, q) && PairLe(q, p)
    ensures p == q
  {
    StringLeTotal(p.0, q.0);
    StringLeTotal(p.1, q.1);
  }

  lemma {:induction false} LastIsGreatest(xs: seq<(string, string)>, p: (string, string))
    requires SortedBy(xs, PairLe) && p in xs
    ensures PairLe(p, xs[|xs| - 1])
  {
    PairLeIsTotal();
    hide PairLe;
    var n := |xs| - 1;
    if p != xs[n] {
      assert p in xs[..n];
      LastIsGreatest(xs[..n], p);
    } else {
      assert PairLe(p, p);
    }
  }

  lemma WithoutLast<T>(xs: seq<T>)
    requires xs != [] && Distinct(xs)
    ensures Distinct(xs[..|xs| - 1])
    ensures forall p :: p in xs[..|xs| - 1] <==> p in xs && p != xs[|xs| - 1]
  {
    var init, last := xs[..|xs| - 1], xs[|xs| - 1];
    assert xs == init + [last];
    DistinctSnoc(init, last);
  }

  /** There is one way only to sort different pairs. */
  lemma {:induction false} SortedIsUnique(xs: seq<(string, string)>, ys: seq<(string, string)>)
    requires SortedBy(xs, PairLe) && SortedBy(ys, PairLe) && Distinct(xs) && Distinct(ys)
    requires forall p :: p in xs <==> p in ys
    ensures xs == ys
  {
    if xs == [] {
      assert forall i :: 0 <= i < |ys| ==> ys[i] in ys;
    } else {
      assert xs[0] in ys;
      var m, n := |xs| - 1, |ys| - 1;
      LastIsGreatest(xs, ys[n]);
      LastIsGreatest(ys, xs[m]);
      PairLeIsAntisymmetric(xs[m], ys[n]);
      hide PairLe, Distinct;
      WithoutLast(xs);
      WithoutLast(ys);
      forall p ensures p in xs[..m] <==> p in ys[..n] {
        assert p in xs[..m] <==> p in xs && p != xs[m];
        assert p in ys[..n] <==> p in ys && p != ys[n];
      }
      SortedIsUnique(xs[..m], ys[..n]);
      assert xs == xs[..m] + [xs[m]] && ys == ys[..n] + [ys[n]];
    }
  }

  /** Sorting different pairs: the same pairs, in order, still different. */
  lemma PairSort(ps: seq<(string, string)>)
    requires Distinct(ps)
    ensures forall p :: p in Sort(ps, PairLe) <==> p in ps
    ensures Distinct(Sort(ps, PairLe)) && SortedBy(Sort(ps, PairLe), PairLe)
  {
    hide Sort, SortedBy, Distinct, PairLe;
    SortKeepsElements(ps, PairLe);
    forall p ensures p in Sort(ps, PairLe) <==> p in ps {
      SameElement(ps, Sort(ps, PairLe), p);
    }
    PermutationIsDistinct(ps, Sort(ps, PairLe));
    PairLeIsTotal();
    SortIsSorted(ps, PairLe);
  }
}
