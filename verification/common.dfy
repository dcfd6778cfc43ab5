/** A value that may be absent: a map lookup that misses, a branch that sets nothing. */
module Optional {
  datatype Option<+T> = None | Some(value: T)
}

/**
 * Sequence helpers shared by the search and the tactics: the standard-library
 * algorithms the source leans on (`std::min_element`, `std::max_element`,
 * `erase`, pushing to the front of a list) stated once.
 */
module Seqs {

  /** The elements of `s` in reverse order. */
  function Reverse<T>(s: seq<T>): (r: seq<T>)
    ensures |r| == |s|
    ensures forall i :: 0 <= i < |s| ==> r[i] == s[|s| - 1 - i]
  {
    if s == [] then [] else Reverse(s[1..]) + [s[0]]
  }

  /** `s` with position `k` erased; every other element keeps its relative order. */
  function RemoveAt<T>(s: seq<T>, k: nat): (r: seq<T>)
    requires k < |s|
    ensures |r| == |s| - 1
    ensures forall i :: 0 <= i < k ==> r[i] == s[i]
    ensures forall i :: k <= i < |r| ==> r[i] == s[i + 1]
    ensures multiset(r) + multiset{s[k]} == multiset(s)
  {
    assert s == s[..k] + [s[k]] + s[k + 1..];
    s[..k] + s[k + 1..]
  }

  /** The elements of `s` that satisfy `keep`, in order. */
  function Filter<T(!new)>(keep: T -> bool, s: seq<T>): (r: seq<T>)
    ensures |r| <= |s|
    ensures forall x :: x in r <==> x in s && keep(x)
  {
    if s == [] then []
    else
      assert s == [s[0]] + s[1..];
      (if keep(s[0]) then [s[0]] else []) + Filter(keep, s[1..])
  }

  /** Filtering a concatenation filters each part, in order. */
  lemma {:induction false} FilterConcat<T(!new)>(keep: T -> bool, a: seq<T>, b: seq<T>)
    ensures Filter(keep, a + b) == Filter(keep, a) + Filter(keep, b)
    decreases |a|
  {
    if a != [] {
      assert (a + b)[0] == a[0] && (a + b)[1..] == a[1..] + b;
      FilterConcat(keep, a[1..], b);
      var head := if keep(a[0]) then [a[0]] else [];
      assert Filter(keep, a) == head + Filter(keep, a[1..]);
      assert Filter(keep, a + b) == head + Filter(keep, a[1..] + b);
    } else {
      assert a + b == b;
    }
  }

  /** Every kept value occurs in the result as often as in `s`; every other value not at all. */
  lemma {:induction false} FilterCount<T(!new)>(keep: T -> bool, s: seq<T>)
    ensures forall x :: multiset(Filter(keep, s))[x] == if keep(x) then multiset(s)[x] else 0
    decreases |s|
  {
    if s != [] {
      FilterCount(keep, s[1..]);
      assert s == [s[0]] + s[1..];
    }
  }

  /** The first part of a concatenation of three is the first of them. */
  lemma TakeConcat<T>(a: seq<T>, b: seq<T>, c: seq<T>)
    ensures (a + b + c)[..|a|] == a
  {
    assert a + b + c == a + (b + c);
  }

  /** `f` applied to every element of `s`. */
  function Map<T, U>(f: T -> U, s: seq<T>): (r: seq<U>)
    ensures |r| == |s|
    ensures forall i :: 0 <= i < |s| ==> r[i] == f(s[i])
  {
    if s == [] then [] else [f(s[0])] + Map(f, s[1..])
  }

  /**
   * A loop that `emplace_front`s `f(x)` for every `x` of `s` that `keep`
   * accepts: the kept images end up in reverse order ahead of `acc`.
   */
  function PushFrontEach<T(!new), U>(keep: T -> bool, f: T -> U, s: seq<T>, acc: seq<U>): (r: seq<U>)
    ensures r == Reverse(Map(f, Filter(keep, s))) + acc
  {
    if s == [] then acc
    else
      var rest := Filter(keep, s[1..]);
      if keep(s[0]) then
        assert Filter(keep, s) == [s[0]] + rest;
        assert Map(f, [s[0]] + rest) == [f(s[0])] + Map(f, rest);
        assert Reverse([f(s[0])] + Map(f, rest)) == Reverse(Map(f, rest)) + [f(s[0])];
        PushFrontEach(keep, f, s[1..], [f(s[0])] + acc)
      else
        assert Filter(keep, s) == rest;
        PushFrontEach(keep, f, s[1..], acc)
  }

  /** Reversing keeps the elements. */
  lemma InReverse<T>(s: seq<T>, y: T)
    ensures y in Reverse(s) <==> y in s
  {
    if y in Reverse(s) {
      var i :| 0 <= i < |s| && Reverse(s)[i] == y;
      assert s[|s| - 1 - i] == y;
    }
    if y in s {
      var i :| 0 <= i < |s| && s[i] == y;
      assert Reverse(s)[|s| - 1 - i] == y;
    }
  }

  /** The elements of `Map(f, s)` are the images of the elements of `s`. */
  lemma InMap<T, U>(f: T -> U, s: seq<T>, y: U)
    ensures y in Map(f, s) <==> exists x :: x in s && y == f(x)
  {
    if y in Map(f, s) {
      var i :| 0 <= i < |s| && Map(f, s)[i] == y;
      assert s[i] in s;
    }
    if exists x :: x in s && y == f(x) {
      var x :| x in s && y == f(x);
      var i :| 0 <= i < |s| && s[i] == x;
      assert Map(f, s)[i] == y;
    }
  }

  /** `y` is among the images `PushFrontEach` adds iff it is the image of a kept element. */
  lemma KeptImage<T(!new), U>(keep: T -> bool, f: T -> U, s: seq<T>, y: U)
    ensures y in Reverse(Map(f, Filter(keep, s))) <==> exists x :: x in s && keep(x) && y == f(x)
  {
    var kept := Filter(keep, s);
    InReverse(Map(f, kept), y);
    InMap(f, kept, y);
  }

  /** No element occurs twice. */
  predicate NoDup<T(==)>(s: seq<T>) {
    forall i, j :: 0 <= i < j < |s| ==> s[i] != s[j]
  }

  lemma {:induction false} NoDupCount<T>(s: seq<T>, x: T)
    requires NoDup(s)
    ensures multiset(s)[x] <= 1
  {
    if s != [] {
      assert s == [s[0]] + s[1..];
      NoDupCount(s[1..], x);
      if s[0] == x {
        assert x !in s[1..];
      }
    }
  }

  lemma PairCount<T>(t: seq<T>, i: nat, j: nat)
    requires i < j < |t|
    ensures t[i] == t[j] ==> multiset(t)[t[i]] >= 2
  {
    assert t == t[..i] + [t[i]] + t[i + 1..j] + [t[j]] + t[j + 1..];
  }

  /** A rearrangement of a sequence without repetitions has none either. */
  lemma NoDupPermutation<T>(s: seq<T>, t: seq<T>)
    requires NoDup(s) && multiset(s) == multiset(t)
    ensures NoDup(t)
  {
    forall i, j | 0 <= i < j < |t|
      ensures t[i] != t[j]
    {
      NoDupCount(s, t[i]);
      PairCount(t, i, j);
    }
  }

  /**
   * `std::min_element` with the comparator `key(a) < key(b)`: the FIRST
   * position whose key is smallest.
   */
  function ArgMin<T>(s: seq<T>, key: T -> real): (k: nat)
    requires |s| > 0
    ensures k < |s|
    ensures forall j :: 0 <= j < |s| ==> key(s[k]) <= key(s[j])
    ensures forall j :: 0 <= j < k ==> key(s[k]) < key(s[j])
  {
    ArgMinFrom(s, key, 0, 1)
  }

  /** The scan behind `ArgMin`: `best` is the first minimum of `s[..i]`. */
  function ArgMinFrom<T>(s: seq<T>, key: T -> real, best: nat, i: nat): (k: nat)
    requires best < i <= |s|
    requires forall j :: 0 <= j < i ==> key(s[best]) <= key(s[j])
    requires forall j :: 0 <= j < best ==> key(s[best]) < key(s[j])
    ensures best <= k < |s|
    ensures forall j :: 0 <= j < |s| ==> key(s[k]) <= key(s[j])
    ensures forall j :: 0 <= j < k ==> key(s[k]) < key(s[j])
    decreases |s| - i
  {
    if i == |s| then best
    else ArgMinFrom(s, key, if key(s[i]) < key(s[best]) then i else best, i + 1)
  }

  /**
   * `std::max_element` with the comparator `key(a) < key(b)`: the FIRST
   * position whose key is largest.
   */
  function ArgMax<T>(s: seq<T>, key: T -> real): (k: nat)
    requires |s| > 0
    ensures k < |s|
    ensures forall j :: 0 <= j < |s| ==> key(s[j]) <= key(s[k])
    ensures forall j :: 0 <= j < k ==> key(s[j]) < key(s[k])
  {
    ArgMin(s, x => -key(x))
  }
}

/** An insertion sort by a real-valued key, standing for `std::sort` with `key(a) < key(b)`. */
module Sorting {

  ghost predicate SortedBy<T>(s: seq<T>, key: T -> real) {
    forall i, j :: 0 <= i < j < |s| ==> key(s[i]) <= key(s[j])
  }

  /** A sorted sequence stays sorted behind a head no larger than any of its elements. */
  lemma SortedCons<T>(h: T, s: seq<T>, key: T -> real)
    requires SortedBy(s, key)
    requires s != [] ==> key(h) <= key(s[0])
    ensures SortedBy([h] + s, key)
  {
    var r := [h] + s;
    forall i, j | 0 <= i < j < |r|
      ensures key(r[i]) <= key(r[j])
    {
      assert r[j] == s[j - 1];
      if 0 < i {
        assert r[i] == s[i - 1];
      } else if 1 < j {
        assert key(s[0]) <= key(s[j - 1]);
      }
    }
  }

  /** The tail of a sorted sequence is sorted. */
  lemma SortedTail<T>(s: seq<T>, key: T -> real)
    requires SortedBy(s, key) && s != []
    ensures SortedBy(s[1..], key)
  {
    forall i, j | 0 <= i < j < |s| - 1
      ensures key(s[1..][i]) <= key(s[1..][j])
    {
      assert s[1..][i] == s[i + 1] && s[1..][j] == s[j + 1];
    }
  }

  /** `x` placed before the first element whose key is not smaller. */
  function Insert<T>(x: T, s: seq<T>, key: T -> real): (r: seq<T>)
    requires SortedBy(s, key)
    ensures SortedBy(r, key)
    ensures |r| == |s| + 1
    ensures r[0] == x || (s != [] && r[0] == s[0])
  {
    if s == [] || key(x) <= key(s[0]) then
      SortedCons(x, s, key);
      [x] + s
    else
      SortedTail(s, key);
      var rest := Insert(x, s[1..], key);
      assert key(s[0]) <= key(rest[0]);
      SortedCons(s[0], rest, key);
      assert s == [s[0]] + s[1..];
      [s[0]] + rest
  }

  /** Inserting adds exactly `x` to the elements. */
  lemma {:induction false} InsertPermutes<T>(x: T, s: seq<T>, key: T -> real)
    requires SortedBy(s, key)
    ensures multiset(Insert(x, s, key)) == multiset(s) + multiset{x}
  {
    if s != [] && key(s[0]) < key(x) {
      SortedTail(s, key);
      InsertPermutes(x, s[1..], key);
      var rest := Insert(x, s[1..], key);
      assert Insert(x, s, key) == [s[0]] + rest;
      assert s == [s[0]] + s[1..];
    }
  }

  function SortBy<T>(s: seq<T>, key: T -> real): (r: seq<T>)
    ensures SortedBy(r, key)
    ensures multiset(r) == multiset(s)
  {
    if s == [] then []
    else
      assert s == [s[0]] + s[1..];
      InsertPermutes(s[0], SortBy(s[1..], key), key);
      Insert(s[0], SortBy(s[1..], key), key)
  }

  /** Sorting a sequence that is already in order leaves it exactly as it was. */
  lemma {:induction false} SortSortedIsIdentity<T>(s: seq<T>, key: T -> real)
    requires SortedBy(s, key)
    ensures SortBy(s, key) == s
  {
    if s != [] {
      assert SortedBy(s[1..], key);
      SortSortedIsIdentity(s[1..], key);
      assert s == [s[0]] + s[1..];
    }
  }
}
