/** Sums over finite sets and the stable sort the ranking loops rely on. */
module Collections {

  function Min(a: nat, b: nat): nat {
    if a < b then a else b
  }

  function Max(a: nat, b: nat): nat {
    if a < b then b else a
  }

  // ---- Sums

  ghost function Sum<K(!new)>(ks: set<K>, f: K -> nat): nat {
    if ks == {} then 0
    else
      var k :| k in ks;
      f(k) + Sum(ks - {k}, f)
  }

  lemma {:induction false} SumRemove<K(!new)>(ks: set<K>, f: K -> nat, k: K)
    requires k in ks
    ensures Sum(ks, f) == f(k) + Sum(ks - {k}, f)
    decreases ks
  {
    var q :| q in ks && Sum(ks, f) == f(q) + Sum(ks - {q}, f);
    if q != k {
      SumRemove(ks - {q}, f, k);
      SumRemove(ks - {k}, f, q);
      assert ks - {q} - {k} == ks - {k} - {q};
    }
  }

  lemma {:induction false} SumSame<K(!new)>(ks: set<K>, f: K -> nat, g: K -> nat)
    requires forall k | k in ks :: f(k) == g(k)
    ensures Sum(ks, f) == Sum(ks, g)
    decreases ks
  {
    if ks == {} {
    } else {
      var k :| k in ks;
      SumRemove(ks, f, k);
      SumRemove(ks, g, k);
      SumSame(ks - {k}, f, g);
    }
  }

  // ---- A stable sort

  /** Inserts after every element with the same or a smaller key. */
  function InsertAfter<T>(xs: seq<T>, x: T, key: T -> real): (r: seq<T>)
    ensures multiset(r) == multiset(xs) + multiset{x}
  {
    if xs == [] then [x]
    else if key(x) < key(xs[|xs| - 1]) then
      assert xs == xs[..|xs| - 1] + [xs[|xs| - 1]];
      InsertAfter(xs[..|xs| - 1], x, key) + [xs[|xs| - 1]]
    else xs + [x]
  }

  function SortBy<T>(xs: seq<T>, key: T -> real): (r: seq<T>)
    ensures multiset(r) == multiset(xs)
  {
    if xs == [] then []
    else
      assert xs == xs[..|xs| - 1] + [xs[|xs| - 1]];
      InsertAfter(SortBy(xs[..|xs| - 1], key), xs[|xs| - 1], key)
  }

  /** By key, and by `tie` among equal keys. */
  predicate Before<T>(x: T, y: T, key: T -> real, tie: T -> real) {
    key(x) < key(y) || (key(x) == key(y) && tie(x) <= tie(y))
  }

  ghost predicate Ranked<T>(xs: seq<T>, key: T -> real, tie: T -> real) {
    forall i, j | 0 <= i < j < |xs| :: Before(xs[i], xs[j], key, tie)
  }

  lemma RankedSnoc<T(!new)>(xs: seq<T>, y: T, key: T -> real, tie: T -> real)
    requires Ranked(xs, key, tie) && forall x | x in xs :: Before(x, y, key, tie)
    ensures Ranked(xs + [y], key, tie)
  {
    hide Before;
  }

  lemma RankedInit<T(!new)>(xs: seq<T>, y: T, key: T -> real, tie: T -> real)
    requires Ranked(xs + [y], key, tie)
    ensures Ranked(xs, key, tie) && forall x | x in xs :: Before(x, y, key, tie)
  {
    hide Before;
    forall i, j | 0 <= i < j < |xs| ensures Before(xs[i], xs[j], key, tie) {
      assert (xs + [y])[i] == xs[i] && (xs + [y])[j] == xs[j];
    }
    forall x | x in xs ensures Before(x, y, key, tie) {
      var i :| 0 <= i < |xs| && xs[i] == x;
      assert (xs + [y])[i] == x && (xs + [y])[|xs|] == y;
    }
  }

  lemma InsertAfterElements<T(!new)>(xs: seq<T>, x: T, key: T -> real)
    ensures forall y :: y in InsertAfter(xs, x, key) <==> y in xs || y == x
  {
    hide InsertAfter;
    forall y ensures y in InsertAfter(xs, x, key) <==> y in xs || y == x {
      assert y in InsertAfter(xs, x, key) <==> y in multiset(InsertAfter(xs, x, key));
    }
  }

  lemma {:induction false} InsertRanked<T(!new)>(xs: seq<T>, x: T, key: T -> real, tie: T -> real)
    requires Ranked(xs, key, tie) && forall y | y in xs :: key(y) == key(x) ==> tie(y) <= tie(x)
    ensures Ranked(InsertAfter(xs, x, key), key, tie)
  {
    hide Ranked;
    if xs == [] {
      RankedNone(key, tie);
      RankedSnoc([], x, key, tie);
      assert [] + [x] == [x];
    } else {
      var n := |xs| - 1;
      var last := xs[n];
      assert xs == xs[..n] + [last];
      RankedInit(xs[..n], last, key, tie);
      if key(x) < key(last) {
        InsertRanked(xs[..n], x, key, tie);
        InsertAfterElements(xs[..n], x, key);
        RankedSnoc(InsertAfter(xs[..n], x, key), last, key, tie);
      } else {
        forall y | y in xs ensures Before(y, x, key, tie) {
          assert y == last || Before(y, last, key, tie);
        }
        RankedSnoc(xs, x, key, tie);
      }
    }
  }

  lemma RankedNone<T(!new)>(key: T -> real, tie: T -> real)
    ensures Ranked([], key, tie)
  {
  }

  lemma SortByElements<T(!new)>(xs: seq<T>, key: T -> real)
    ensures forall y :: y in SortBy(xs, key) <==> y in xs
  {
    hide SortBy;
    forall y ensures y in SortBy(xs, key) <==> y in xs {
      assert y in SortBy(xs, key) <==> y in multiset(SortBy(xs, key));
    }
  }

  /** Sorting by one key a list in the order of another ranks it by the first, ties by the second. */
  lemma {:induction false} SortRanks<T(!new)>(xs: seq<T>, key: T -> real, tie: T -> real)
    requires forall i, j | 0 <= i < j < |xs| :: tie(xs[i]) <= tie(xs[j])
    ensures Ranked(SortBy(xs, key), key, tie)
  {
    hide Ranked, InsertAfter;
    if xs == [] {
      RankedNone(key, tie);
    } else {
      var n := |xs| - 1;
      SortRanks(xs[..n], key, tie);
      SortByElements(xs[..n], key);
      InsertRanked(SortBy(xs[..n], key), xs[n], key, tie);
    }
  }

  lemma {:induction false} SortOrders<T(!new)>(xs: seq<T>, key: T -> real)
    ensures Ranked(SortBy(xs, key), key, key)
  {
    hide Ranked, InsertAfter;
    if xs == [] {
      RankedNone(key, key);
    } else {
      var n := |xs| - 1;
      SortOrders(xs[..n], key);
      InsertRanked(SortBy(xs[..n], key), xs[n], key, key);
    }
  }

  /** The loop form of the sort. */
  method Sort<T>(xs: seq<T>, key: T -> real) returns (sorted: seq<T>)
    ensures sorted == SortBy(xs, key)
  {
    sorted := [];
    for i := 0 to |xs|
      invariant sorted == SortBy(xs[..i], key)
    {
      assert xs[..i + 1][..i] == xs[..i];
      sorted := InsertAfter(sorted, xs[i], key);
    }
    assert xs[..|xs|] == xs;
  }

  // ---- Lists without repetition

  ghost predicate Distinct<T>(xs: seq<T>) {
    forall i, j | 0 <= i < j < |xs| :: xs[i] != xs[j]
  }

  lemma {:induction false} DistinctByCount<T>(xs: seq<T>, x: T)
    requires Distinct(xs)
    ensures multiset(xs)[x] <= 1
  {
    if xs == [] {
    } else {
      var n := |xs| - 1;
      assert xs == xs[..n] + [xs[n]];
      DistinctByCount(xs[..n], x);
      assert x == xs[n] ==> x !in xs[..n];
    }
  }

  lemma CountTwo<T>(xs: seq<T>, i: nat, j: nat)
    requires i < j < |xs| && xs[i] == xs[j]
    ensures multiset(xs)[xs[i]] >= 2
  {
    assert xs == xs[..j] + [xs[j]] + xs[j + 1..];
    assert xs[i] in xs[..j];
  }

  /** A permutation has the same elements, each still once. */
  lemma PermutedDistinct<T(!new)>(xs: seq<T>, ys: seq<T>)
    requires Distinct(xs) && multiset(ys) == multiset(xs)
    ensures Distinct(ys) && forall x :: x in ys <==> x in xs
  {
    forall x ensures x in ys <==> x in xs { assert x in ys <==> x in multiset(ys); }
    forall i, j | 0 <= i < j < |ys| ensures ys[i] != ys[j] {
      if ys[i] == ys[j] {
        CountTwo(ys, i, j);
        DistinctByCount(xs, ys[i]);
      }
    }
  }
}
