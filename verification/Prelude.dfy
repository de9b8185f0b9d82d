/** Small vocabulary shared by the modules: options, limits, maxima of sets, and sorting. */
module Prelude {

  datatype Option<+T> = None | Some(value: T)

  /** What `if limit > 0 && len(xs) > limit { xs = xs[:limit] }` leaves of a slice. */
  function Limited<T>(xs: seq<T>, limit: int): seq<T> {
    if 0 < limit < |xs| then xs[..limit] else xs
  }

  lemma NonEmpty<T>(xs: set<T>)
    requires xs != {}
    ensures exists x :: x in xs
  {
    assert (forall x :: x !in xs) ==> xs == {};
  }

  ghost function Pick<T>(xs: set<T>): (x: T)
    requires xs != {}
    ensures x in xs
  {
    NonEmpty(xs);
    var x :| x in xs;
    x
  }

  /** SQL's COALESCE(MAX(x), 0): the greatest element, or 0 of nothing. */
  ghost function Max0(xs: set<int>): (m: int)
    ensures xs == {} ==> m == 0
    ensures xs != {} ==> m in xs
    ensures forall x :: x in xs ==> x <= m
  {
    if xs == {} then 0 else Max(xs)
  }

  ghost function Max(xs: set<int>): (m: int)
    requires xs != {}
    ensures m in xs
    ensures forall x :: x in xs ==> x <= m
  {
    var x := Pick(xs);
    if xs == {x} then x
    else
      assert xs - {x} != {};
      var m := Max(xs - {x});
      assert forall y | y in xs :: y == x || y in xs - {x};
      if x > m then x else m
  }

  /** The greatest element is determined by its two defining properties. */
  lemma Max0Is(xs: set<int>, m: int)
    requires xs == {} ==> m == 0
    requires xs != {} ==> m in xs
    requires forall x | x in xs :: x <= m
    ensures Max0(xs) == m
  {
  }

  ghost predicate StrictlyDescending<T>(xs: seq<T>, key: T -> int) {
    forall i, j | 0 <= i < j < |xs| :: key(xs[i]) > key(xs[j])
  }

  /** A strictly sorted sequence is determined by its elements. */
  lemma {:induction false} SortedUnique<T>(xs: seq<T>, ys: seq<T>, key: T -> int)
    requires StrictlyDescending(xs, key) && StrictlyDescending(ys, key)
    requires forall x :: x in xs <==> x in ys
    ensures xs == ys
    decreases |xs|
  {
    if xs == [] {
      NoMembers(ys, xs);
    } else if ys == [] {
      NoMembers(xs, ys);
    } else {
      assert xs[0] in ys && ys[0] in xs;
      assert xs[0] == ys[0];
      forall x ensures x in xs[1..] <==> x in ys[1..] {
        TailMembers(xs, key, x);
        TailMembers(ys, key, x);
      }
      SortedUnique(xs[1..], ys[1..], key);
      assert xs == [xs[0]] + xs[1..] && ys == [ys[0]] + ys[1..];
    }
  }

  lemma NoMembers<T>(xs: seq<T>, ys: seq<T>)
    requires forall x :: x in xs ==> x in ys
    ensures ys == [] ==> xs == []
  {
    if |xs| > 0 {
      assert xs[0] in ys;
    }
  }

  lemma TailMembers<T>(xs: seq<T>, key: T -> int, x: T)
    requires xs != [] && StrictlyDescending(xs, key)
    ensures x in xs[1..] <==> x in xs && x != xs[0]
  {
    if x in xs && x != xs[0] {
      var i :| 0 <= i < |xs| && xs[i] == x;
      assert xs[1..][i - 1] == x;
    }
    if x in xs[1..] {
      var i :| 0 <= i < |xs| - 1 && xs[1..][i] == x;
      assert xs[i + 1] == x;
      assert key(xs[0]) > key(xs[i + 1]);
    }
  }

  ghost predicate Descending<T>(xs: seq<T>, key: T -> int) {
    forall i, j | 0 <= i < j < |xs| :: key(xs[i]) >= key(xs[j])
  }

  /** Stands for the library sort: any order that is sorted and a permutation. */
  method SortDescending<T>(xs: seq<T>, key: T -> int) returns (ys: seq<T>)
    ensures multiset(ys) == multiset(xs)
    ensures Descending(ys, key)
  {
    ys := [];
    for n := 0 to |xs|
      invariant multiset(ys) == multiset(xs[..n])
      invariant Descending(ys, key)
    {
      assert xs[..n + 1] == xs[..n] + [xs[n]];
      ys := Insert(ys, xs[n], key);
    }
    assert xs[..|xs|] == xs;
  }

  /** Sorting elements with distinct keys leaves one possible result. */
  lemma SortedDistinct<T>(xs: seq<T>, ys: seq<T>, key: T -> int)
    requires multiset(ys) == multiset(xs) && Descending(ys, key)
    requires forall i, j | 0 <= i < j < |xs| :: key(xs[i]) != key(xs[j])
    ensures StrictlyDescending(ys, key)
    ensures forall x :: x in ys <==> x in xs
  {
    assert forall x :: x in ys <==> x in multiset(ys);
    assert forall x :: x in xs <==> x in multiset(xs);
    forall i, j | 0 <= i < j < |ys| ensures key(ys[i]) > key(ys[j]) {
      var e := ys[i];
      assert ys[i] in xs && ys[j] in xs;
      var p :| 0 <= p < |xs| && xs[p] == e;
      if key(ys[j]) == key(e) {
        var q :| 0 <= q < |xs| && xs[q] == ys[j];
        assert p == q;
        Twice(ys, i, j);
        Once(xs, p, key);
      }
    }
  }

  lemma Twice<T>(ys: seq<T>, i: int, j: int)
    requires 0 <= i < j < |ys| && ys[i] == ys[j]
    ensures multiset(ys)[ys[i]] >= 2
  {
    assert ys == ys[..j] + ys[j..];
    assert ys[..j][i] == ys[i] && ys[j..][0] == ys[i];
    assert ys[i] in multiset(ys[..j]) && ys[i] in multiset(ys[j..]);
  }

  lemma Once<T>(xs: seq<T>, p: int, key: T -> int)
    requires 0 <= p < |xs|
    requires forall i, j | 0 <= i < j < |xs| :: key(xs[i]) != key(xs[j])
    ensures multiset(xs)[xs[p]] == 1
  {
    assert xs == xs[..p] + [xs[p]] + xs[p + 1..];
    assert forall i | 0 <= i < p :: xs[..p][i] == xs[i];
    assert forall i | p < i < |xs| :: xs[i] == xs[p + 1..][i - p - 1];
    assert xs[p] !in xs[..p] && xs[p] !in xs[p + 1..];
    assert xs[p] !in multiset(xs[..p]) && xs[p] !in multiset(xs[p + 1..]);
  }

  /** The next key of a map iteration: any key not visited yet. */
  method Next<K(==)>(rest: set<K>) returns (k: K)
    requires rest != {}
    ensures k in rest
  {
    NonEmpty(rest);
    k :| k in rest;
  }

  method Insert<T>(xs: seq<T>, x: T, key: T -> int) returns (ys: seq<T>)
    requires Descending(xs, key)
    ensures multiset(ys) == multiset(xs) + multiset{x}
    ensures Descending(ys, key)
  {
    var k := |xs|;
    while k > 0 && key(xs[k - 1]) < key(x)
      invariant 0 <= k <= |xs|
      invariant forall i | k <= i < |xs| :: key(xs[i]) < key(x)
    {
      k := k - 1;
    }
    ys := xs[..k] + [x] + xs[k..];
    InsertKeepsMultiset(xs, x, k);
    InsertKeepsOrder(xs, x, k, key);
  }

  lemma InsertKeepsMultiset<T>(xs: seq<T>, x: T, k: nat)
    requires k <= |xs|
    ensures multiset(xs[..k] + [x] + xs[k..]) == multiset(xs) + multiset{x}
  {
    assert xs == xs[..k] + xs[k..];
  }

  lemma InsertKeepsOrder<T>(xs: seq<T>, x: T, k: nat, key: T -> int)
    requires k <= |xs| && Descending(xs, key)
    requires forall i | k <= i < |xs| :: key(xs[i]) < key(x)
    requires k > 0 ==> key(xs[k - 1]) >= key(x)
    ensures Descending(xs[..k] + [x] + xs[k..], key)
  {
    var ys := xs[..k] + [x] + xs[k..];
    forall i, j | 0 <= i < j < |ys| ensures key(ys[i]) >= key(ys[j]) {
      assert ys[i] == if i < k then xs[i] else if i == k then x else xs[i - 1];
      assert ys[j] == if j < k then xs[j] else if j == k then x else xs[j - 1];
    }
  }
}
