/** The LINQ operators the handlers use, on Dafny sequences:
    `Where` (Filter), `Select` (Map), `OrderBy` (SortBy, a stable sort) and `Reverse`. */
module Seqs {
  import opened Common

  /** `xs.Where(p)`: the elements satisfying `p`, in their original order. */
  function Filter<X(!new)>(xs: seq<X>, p: X -> bool): (r: seq<X>)
    ensures |r| <= |xs|
    ensures forall i :: 0 <= i < |r| ==> p(r[i])
    ensures forall x :: x in r <==> x in xs && p(x)
  {
    if xs == [] then []
    else (if p(xs[0]) then [xs[0]] else []) + Filter(xs[1..], p)
  }

  /** The predicate "the key of this element is `k`". */
  function KeyIs<X, K(==)>(key: X -> K, k: K): X -> bool {
    (x: X) => key(x) == k
  }

  /** `xs.Select(f)`. */
  function Map<X, Y>(xs: seq<X>, f: X -> Y): (r: seq<Y>)
    ensures |r| == |xs|
    ensures forall i :: 0 <= i < |xs| ==> r[i] == f(xs[i])
  {
    if xs == [] then [] else [f(xs[0])] + Map(xs[1..], f)
  }

  /** `Select` distributes over concatenation. */
  lemma {:induction false} MapAppend<X, Y>(xs: seq<X>, ys: seq<X>, f: X -> Y)
    ensures Map(xs + ys, f) == Map(xs, f) + Map(ys, f)
  {
    var l, r := Map(xs + ys, f), Map(xs, f) + Map(ys, f);
    forall i | 0 <= i < |l|
      ensures l[i] == r[i]
    {
      if i < |xs| {
        assert (xs + ys)[i] == xs[i];
      } else {
        assert (xs + ys)[i] == ys[i - |xs|];
      }
    }
    assert l == r;
  }

  /** A prefix one element longer. */
  lemma TakeOneMore<X>(xs: seq<X>, i: nat)
    requires i < |xs|
    ensures xs[..i + 1] == xs[..i] + [xs[i]]
  {
  }

  /** `Select` on a list with a last element. */
  lemma MapSnoc<X, Y>(xs: seq<X>, f: X -> Y)
    requires xs != []
    ensures Map(xs, f) == Map(xs[..|xs| - 1], f) + [f(xs[|xs| - 1])]
  {
    var l, r := Map(xs, f), Map(xs[..|xs| - 1], f) + [f(xs[|xs| - 1])];
    assert forall i :: 0 <= i < |l| ==> l[i] == r[i];
  }

  /** Filtering distributes over concatenation: `Where` keeps the relative order. */
  lemma {:induction false} FilterAppend<X(!new)>(xs: seq<X>, ys: seq<X>, p: X -> bool)
    ensures Filter(xs + ys, p) == Filter(xs, p) + Filter(ys, p)
  {
    if xs == [] {
      assert xs + ys == ys;
    } else {
      assert (xs + ys)[1..] == xs[1..] + ys;
      FilterAppend(xs[1..], ys, p);
    }
  }

  /** Filtering a list whose elements all pass returns the list itself. */
  lemma {:induction false} FilterKeepsAll<X(!new)>(xs: seq<X>, p: X -> bool)
    requires forall i :: 0 <= i < |xs| ==> p(xs[i])
    ensures Filter(xs, p) == xs
  {
    if xs != [] {
      FilterKeepsAll(xs[1..], p);
    }
  }

  /** Filtering a list none of whose elements passes gives the empty list. */
  lemma {:induction false} FilterNone<X(!new)>(xs: seq<X>, p: X -> bool)
    requires forall x :: x in xs ==> !p(x)
    ensures Filter(xs, p) == []
  {
    if xs != [] {
      assert xs[0] in xs;
      FilterNone(xs[1..], p);
    }
  }

  /** Filtering never adds occurrences. */
  lemma {:induction false} FilterSubMultiset<X(!new)>(xs: seq<X>, p: X -> bool)
    ensures multiset(Filter(xs, p)) <= multiset(xs)
  {
    if xs != [] {
      FilterSubMultiset(xs[1..], p);
      assert xs == [xs[0]] + xs[1..];
    }
  }

  /** Filtering keeps every occurrence of a passing value and none of the others. */
  lemma {:induction false} FilterCount<X(!new)>(xs: seq<X>, p: X -> bool, x: X)
    ensures multiset(Filter(xs, p))[x] == if p(x) then multiset(xs)[x] else 0
  {
    if xs != [] {
      FilterCount(xs[1..], p, x);
      assert xs == [xs[0]] + xs[1..];
    }
  }

  /** Filtering two permutations of each other gives permutations of each other. */
  lemma FilterPermutation<X(!new)>(xs: seq<X>, ys: seq<X>, p: X -> bool)
    requires multiset(xs) == multiset(ys)
    ensures multiset(Filter(xs, p)) == multiset(Filter(ys, p))
  {
    forall x
      ensures multiset(Filter(xs, p))[x] == multiset(Filter(ys, p))[x]
    {
      FilterCount(xs, p, x);
      FilterCount(ys, p, x);
    }
  }

  /** `Where` after `Select` is `Select` after `Where` with the composed test. */
  lemma {:induction false} FilterMap<X(!new), Y(!new)>(xs: seq<X>, f: X -> Y, p: Y -> bool, q: X -> bool)
    requires forall x :: q(x) == p(f(x))
    ensures Filter(Map(xs, f), p) == Map(Filter(xs, q), f)
  {
    if xs != [] {
      FilterMap(xs[1..], f, p, q);
      assert Map(xs, f)[1..] == Map(xs[1..], f);
    }
  }

  /** Two `Where` clauses can be applied in either order. */
  lemma {:induction false} FilterCommute<X(!new)>(xs: seq<X>, p: X -> bool, q: X -> bool)
    ensures Filter(Filter(xs, p), q) == Filter(Filter(xs, q), p)
  {
    if xs != [] {
      FilterCommute(xs[1..], p, q);
      var head := if p(xs[0]) then [xs[0]] else [];
      FilterAppend(head, Filter(xs[1..], p), q);
      var head' := if q(xs[0]) then [xs[0]] else [];
      FilterAppend(head', Filter(xs[1..], q), p);
    }
  }

  /** The keys of the elements are pairwise distinct. */
  predicate DistinctKeys<X, K(==)>(xs: seq<X>, key: X -> K) {
    forall i, j :: 0 <= i < j < |xs| ==> key(xs[i]) != key(xs[j])
  }

  /** A list of pairwise distinct values. */
  predicate Distinct<K(==)>(ks: seq<K>) {
    forall i, j :: 0 <= i < j < |ks| ==> ks[i] != ks[j]
  }

  /** `ys` without its element at `i`. */
  function RemoveAt<X>(ys: seq<X>, i: nat): (r: seq<X>)
    requires i < |ys|
    ensures multiset(r) == multiset(ys) - multiset{ys[i]}
  {
    assert ys == ys[..i] + [ys[i]] + ys[i + 1..];
    ys[..i] + ys[i + 1..]
  }

  /** A value occurs at most once in a list of distinct values. */
  lemma {:induction false} DistinctCount<K>(ks: seq<K>, k: K)
    requires Distinct(ks)
    ensures multiset(ks)[k] <= 1
  {
    if ks != [] {
      DistinctCount(ks[1..], k);
      assert ks == [ks[0]] + ks[1..];
      if ks[0] == k {
        assert k !in ks[1..];
      }
    }
  }

  /** Two positions holding the same value make it occur twice. */
  lemma CountTwo<K>(ks: seq<K>, i: nat, j: nat)
    requires i < j < |ks|
    ensures multiset(ks)[ks[i]] >= if ks[i] == ks[j] then 2 else 1
  {
    assert ks == ks[..i] + [ks[i]] + ks[i + 1..j] + [ks[j]] + ks[j + 1..];
  }

  /** A permutation of a list of distinct values has distinct values. */
  lemma DistinctPermutation<K>(xs: seq<K>, ys: seq<K>)
    requires multiset(xs) == multiset(ys) && Distinct(xs)
    ensures Distinct(ys)
  {
    forall i, j | 0 <= i < j < |ys|
      ensures ys[i] != ys[j]
    {
      CountTwo(ys, i, j);
      DistinctCount(xs, ys[i]);
    }
  }

  /** A filtered list keeps distinct keys distinct. */
  lemma {:induction false} FilterDistinctKeys<X(!new), K>(xs: seq<X>, key: X -> K, p: X -> bool)
    requires DistinctKeys(xs, key)
    ensures DistinctKeys(Filter(xs, p), key)
  {
    if xs != [] {
      var rest := Filter(xs[1..], p);
      FilterDistinctKeys(xs[1..], key, p);
      forall y | y in rest
        ensures key(y) != key(xs[0])
      {
        var j :| 0 <= j < |xs[1..]| && xs[1..][j] == y;
        assert key(xs[0]) != key(xs[j + 1]);
      }
      if p(xs[0]) {
        var r := Filter(xs, p);
        assert r == [xs[0]] + rest;
        forall i, j | 0 <= i < j < |r|
          ensures key(r[i]) != key(r[j])
        {
          if i == 0 {
            assert r[j] == rest[j - 1] && rest[j - 1] in rest;
          } else {
            assert r[i] == rest[i - 1] && r[j] == rest[j - 1];
          }
        }
      } else {
        assert Filter(xs, p) == rest;
      }
    }
  }

  /** `le` is total and transitive: a valid ordering key for `OrderBy`. */
  ghost predicate TotalPreorder<X(!new)>(le: (X, X) -> bool) {
    (forall a, b :: le(a, b) || le(b, a)) &&
    (forall a, b, c :: le(a, b) && le(b, c) ==> le(a, c))
  }

  /** Ascending order under `le`. */
  predicate Sorted<X>(xs: seq<X>, le: (X, X) -> bool) {
    forall i, j :: 0 <= i < j < |xs| ==> le(xs[i], xs[j])
  }

  /** Insertion before the first element that `x` does not exceed. `SortBy` inserts each
      element into the sorted rest of the list, so among equal keys the element that came
      first stays first: the stable order `OrderBy` gives. */
  function Insert<X>(x: X, xs: seq<X>, le: (X, X) -> bool): (r: seq<X>)
    ensures |r| == |xs| + 1
  {
    if xs == [] then [x]
    else if le(x, xs[0]) then [x] + xs
    else [xs[0]] + Insert(x, xs[1..], le)
  }

  /** `OrderBy` under `le`: a stable insertion sort. */
  function SortBy<X>(xs: seq<X>, le: (X, X) -> bool): (r: seq<X>)
    ensures |r| == |xs|
  {
    if xs == [] then [] else Insert(xs[0], SortBy(xs[1..], le), le)
  }

  lemma {:induction false} InsertPermutes<X>(x: X, xs: seq<X>, le: (X, X) -> bool)
    ensures multiset(Insert(x, xs, le)) == multiset(xs) + multiset{x}
  {
    if xs != [] && !le(x, xs[0]) {
      InsertPermutes(x, xs[1..], le);
      assert xs == [xs[0]] + xs[1..];
    }
  }

  lemma {:induction false} InsertSorted<X(!new)>(x: X, xs: seq<X>, le: (X, X) -> bool)
    requires TotalPreorder(le) && Sorted(xs, le)
    ensures Sorted(Insert(x, xs, le), le)
  {
    if xs == [] {
    } else if le(x, xs[0]) {
      var r := [x] + xs;
      forall i, j | 0 <= i < j < |r|
        ensures le(r[i], r[j])
      {
        if i == 0 && j > 1 {
          assert le(xs[0], xs[j - 1]);
        }
      }
    } else {
      assert le(xs[0], x);
      var rest := Insert(x, xs[1..], le);
      InsertSorted(x, xs[1..], le);
      InsertPermutes(x, xs[1..], le);
      var r := [xs[0]] + rest;
      forall i, j | 0 <= i < j < |r|
        ensures le(r[i], r[j])
      {
        if i == 0 {
          assert r[j] in multiset(rest);
          assert r[j] == x || r[j] in multiset(xs[1..]);
          if r[j] != x {
            var k :| 0 <= k < |xs[1..]| && xs[1..][k] == r[j];
            assert le(xs[0], xs[k + 1]);
          }
        } else {
          assert r[i] == rest[i - 1] && r[j] == rest[j - 1];
        }
      }
    }
  }

  /** The sorted list is a permutation of the input. */
  lemma {:induction false} SortByPermutes<X>(xs: seq<X>, le: (X, X) -> bool)
    ensures multiset(SortBy(xs, le)) == multiset(xs)
  {
    if xs != [] {
      SortByPermutes(xs[1..], le);
      InsertPermutes(xs[0], SortBy(xs[1..], le), le);
      assert xs == [xs[0]] + xs[1..];
    }
  }

  /** The sorted list is in ascending order. */
  lemma {:induction false} SortBySorted<X(!new)>(xs: seq<X>, le: (X, X) -> bool)
    requires TotalPreorder(le)
    ensures Sorted(SortBy(xs, le), le)
  {
    if xs != [] {
      SortBySorted(xs[1..], le);
      InsertSorted(xs[0], SortBy(xs[1..], le), le);
    }
  }

  /** The elements that `le` ranks level with `e`. */
  function LevelWith<X>(le: (X, X) -> bool, e: X): X -> bool {
    (x: X) => le(x, e) && le(e, x)
  }

  /** Filtering a list with a first element. */
  lemma FilterCons<X(!new)>(x: X, xs: seq<X>, p: X -> bool)
    ensures Filter([x] + xs, p) == (if p(x) then [x] else []) + Filter(xs, p)
  {
    assert ([x] + xs)[1..] == xs;
  }

  /** Two elements ranked level with `e` are ranked level with each other. */
  lemma LevelMates<X(!new)>(le: (X, X) -> bool, e: X, x: X, y: X)
    requires TotalPreorder(le)
    requires LevelWith(le, e)(x) && LevelWith(le, e)(y)
    ensures le(x, y)
  {
    assert le(x, e) && le(e, y);
  }

  /** Inserting `x` never moves it past an element ranked level with it, when `le` puts
      `x` before each such element. */
  lemma {:induction false} InsertStable<X(!new)>(x: X, xs: seq<X>, le: (X, X) -> bool, e: X)
    requires LevelWith(le, e)(x) ==> forall y :: y in xs && LevelWith(le, e)(y) ==> le(x, y)
    ensures Filter(Insert(x, xs, le), LevelWith(le, e)) == Filter([x] + xs, LevelWith(le, e))
  {
    var p := LevelWith(le, e);
    if xs != [] && !le(x, xs[0]) {
      var y, rest := xs[0], xs[1..];
      assert xs == [y] + rest;
      var hx, hy := if p(x) then [x] else [], if p(y) then [y] else [];
      assert forall z :: z in rest ==> z in xs;
      InsertStable(x, rest, le, e);
      var tail := Filter(rest, p);
      assert hy + (hx + tail) == hx + (hy + tail) by {
        assert y in xs;
        if hx == [] {
          assert hx + tail == tail && hx + (hy + tail) == hy + tail;
        } else {
          assert hy == [];
          assert hy + tail == tail && hy + (hx + tail) == hx + tail;
        }
      }
      calc {
        Filter(Insert(x, xs, le), p);
        { assert Insert(x, xs, le) == [y] + Insert(x, rest, le); }
        Filter([y] + Insert(x, rest, le), p);
        { FilterCons(y, Insert(x, rest, le), p); }
        hy + Filter([x] + rest, p);
        { FilterCons(x, rest, p); }
        hy + (hx + tail);
        hx + (hy + tail);
        { FilterCons(y, rest, p); }
        hx + Filter(xs, p);
        { FilterCons(x, xs, p); }
        Filter([x] + xs, p);
      }
    }
  }

  /** `SortBy` is stable: the elements ranked level with any `e` keep their input order. */
  lemma {:induction false} SortByStable<X(!new)>(xs: seq<X>, le: (X, X) -> bool, e: X)
    requires TotalPreorder(le)
    ensures Filter(SortBy(xs, le), LevelWith(le, e)) == Filter(xs, LevelWith(le, e))
  {
    if xs != [] {
      var p := LevelWith(le, e);
      var sorted := SortBy(xs[1..], le);
      SortByStable(xs[1..], le, e);
      forall y | y in sorted && p(xs[0]) && p(y)
        ensures le(xs[0], y)
      {
        LevelMates(le, e, xs[0], y);
      }
      InsertStable(xs[0], sorted, le, e);
      FilterCons(xs[0], sorted, p);
      FilterCons(xs[0], xs[1..], p);
      assert xs == [xs[0]] + xs[1..];
    }
  }

  /** `Reverse()`. */
  function Reverse<X>(xs: seq<X>): (r: seq<X>)
    ensures |r| == |xs|
    ensures forall i :: 0 <= i < |xs| ==> r[i] == xs[|xs| - 1 - i]
  {
    if xs == [] then [] else Reverse(xs[1..]) + [xs[0]]
  }

  lemma {:induction false} ReversePermutes<X>(xs: seq<X>)
    ensures multiset(Reverse(xs)) == multiset(xs)
  {
    if xs != [] {
      ReversePermutes(xs[1..]);
      assert xs == [xs[0]] + xs[1..];
    }
  }

  lemma ReverseAppend<X>(xs: seq<X>, ys: seq<X>)
    ensures Reverse(xs + ys) == Reverse(ys) + Reverse(xs)
  {
    var l, r := Reverse(xs + ys), Reverse(ys) + Reverse(xs);
    forall i | 0 <= i < |l|
      ensures l[i] == r[i]
    {
      if i < |ys| {
        assert (xs + ys)[|xs + ys| - 1 - i] == ys[|ys| - 1 - i];
      } else {
        assert (xs + ys)[|xs + ys| - 1 - i] == xs[|xs| - 1 - (i - |ys|)];
      }
    }
    assert l == r;
  }

  /** Filtering a reversed list is reversing the filtered list. */
  lemma {:induction false} FilterReverse<X(!new)>(xs: seq<X>, p: X -> bool)
    ensures Filter(Reverse(xs), p) == Reverse(Filter(xs, p))
  {
    if xs != [] {
      var head := if p(xs[0]) then [xs[0]] else [];
      FilterReverse(xs[1..], p);
      FilterAppend(Reverse(xs[1..]), [xs[0]], p);
      assert Filter([xs[0]], p) == head;
      ReverseAppend(head, Filter(xs[1..], p));
      assert Reverse(head) == head;
    }
  }

  /** `FirstOrDefault(p)` as a position: the first index whose element satisfies `p`. */
  function FirstIndex<X>(xs: seq<X>, p: X -> bool): (r: Option<nat>)
    ensures r.Some? ==> r.value < |xs| && p(xs[r.value])
    ensures r.Some? ==> forall j :: 0 <= j < r.value ==> !p(xs[j])
    ensures r.None? <==> forall j :: 0 <= j < |xs| ==> !p(xs[j])
  {
    if xs == [] then None
    else if p(xs[0]) then Some(0)
    else match FirstIndex(xs[1..], p) {
      case None => None
      case Some(i) => Some(i + 1)
    }
  }

  /** The first index is the one found by scanning: an element satisfying `p` with none
      before it. */
  lemma FirstIndexAt<X>(xs: seq<X>, p: X -> bool, i: nat)
    requires i < |xs| && p(xs[i])
    requires forall j :: 0 <= j < i ==> !p(xs[j])
    ensures FirstIndex(xs, p) == Some(i)
  {
    var r := FirstIndex(xs, p);
    assert r.Some?;
    assert !(r.value < i) && !(i < r.value);
  }

  /** The set of elements of a list. */
  function Elements<X>(xs: seq<X>): set<X> {
    set x | x in xs
  }

  /** A list has at least as many positions as elements, and exactly as many when its
      elements are pairwise distinct. */
  lemma {:induction false} ElementsCard<X>(xs: seq<X>)
    ensures |Elements(xs)| <= |xs|
    ensures |Elements(xs)| == |xs| <==> Distinct(xs)
  {
    if xs != [] {
      var t := xs[1..];
      ElementsCard(t);
      assert Elements(xs) == {xs[0]} + Elements(t);
      if xs[0] in t {
        var j :| 0 <= j < |t| && t[j] == xs[0];
        assert xs[j + 1] == xs[0];
      } else {
        assert Distinct(xs) <==> Distinct(t) by {
          if Distinct(t) {
            forall i, j | 0 <= i < j < |xs|
              ensures xs[i] != xs[j]
            {
              if i > 0 {
                assert xs[i] == t[i - 1] && xs[j] == t[j - 1];
              } else {
                assert xs[j] in t;
              }
            }
          }
        }
      }
    }
  }

  /** A subset as large as its superset is the superset. */
  lemma SubsetCard<X>(a: set<X>, b: set<X>)
    requires a <= b && |a| == |b|
    ensures a == b
  {
    assert |b - a| == |b| - |a|;
  }

  /** A subset is no larger than its superset. */
  lemma SubsetSmaller<X>(a: set<X>, b: set<X>)
    requires a <= b
    ensures |a| <= |b|
  {
    assert b == a + (b - a);
  }
}
