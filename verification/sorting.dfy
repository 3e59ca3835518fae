/** Stable sorting by a string key. Java's `List.sort` with a `Comparator`
    and Python's `sorted` are both stable; the model sorts by insertion, which
    is stable too, and proves the sortedness, permutation and stability facts
    that the connector relies on. */
module Sorting {
  import opened Strings

  function Id(s: string): string
  {
    s
  }

  predicate SortedBy<T>(xs: seq<T>, key: T -> string)
  {
    forall i, j :: 0 <= i < j < |xs| ==> LessEq(key(xs[i]), key(xs[j]))
  }

  /** Strings in lexicographic order. */
  predicate Sorted(xs: seq<string>)
  {
    SortedBy(xs, Id)
  }

  /** The key of every element, in order. */
  function KeysOf<T>(xs: seq<T>, key: T -> string): (r: seq<string>)
    ensures |r| == |xs|
    ensures forall i :: 0 <= i < |xs| ==> r[i] == key(xs[i])
  {
    if |xs| == 0 then [] else [key(xs[0])] + KeysOf(xs[1..], key)
  }

  /** The elements whose key is `k`, in their original order. */
  function FilterKey<T>(xs: seq<T>, key: T -> string, k: string): seq<T>
  {
    if |xs| == 0 then []
    else (if key(xs[0]) == k then [xs[0]] else []) + FilterKey(xs[1..], key, k)
  }

  /** Puts `x` before the first element whose key is not smaller than its own. */
  function Insert<T>(x: T, s: seq<T>, key: T -> string): seq<T>
  {
    if |s| == 0 then [x]
    else if LessEq(key(x), key(s[0])) then [x] + s
    else [s[0]] + Insert(x, s[1..], key)
  }

  /** Stable insertion sort by key. */
  function SortBy<T>(xs: seq<T>, key: T -> string): seq<T>
  {
    if |xs| == 0 then []
    else Insert(xs[0], SortBy(xs[1..], key), key)
  }

  lemma {:induction false} InsertPermutes<T>(x: T, s: seq<T>, key: T -> string)
    ensures multiset(Insert(x, s, key)) == multiset(s) + multiset{x}
  {
    if |s| > 0 && !LessEq(key(x), key(s[0])) {
      InsertPermutes(x, s[1..], key);
      assert s == [s[0]] + s[1..];
    }
  }

  /** Sorting rearranges the elements and neither adds nor drops any. */
  lemma {:induction false} SortByPermutes<T>(xs: seq<T>, key: T -> string)
    ensures multiset(SortBy(xs, key)) == multiset(xs)
  {
    if |xs| > 0 {
      SortByPermutes(xs[1..], key);
      InsertPermutes(xs[0], SortBy(xs[1..], key), key);
      assert xs == [xs[0]] + xs[1..];
    }
  }

  /** Python `sorted` on a list of strings. */
  function SortStrings(xs: seq<string>): (r: seq<string>)
    ensures multiset(r) == multiset(xs)
    ensures Sorted(r)
  {
    SortByIsSorted(xs, Id);
    SortByPermutes(xs, Id);
    SortBy(xs, Id)
  }

  lemma {:induction false} InsertSorted<T>(x: T, s: seq<T>, key: T -> string)
    requires SortedBy(s, key)
    ensures SortedBy(Insert(x, s, key), key)
  {
    if |s| == 0 {
    } else if LessEq(key(x), key(s[0])) {
      forall y | y in s
        ensures LessEq(key(x), key(y))
      {
        var j :| 0 <= j < |s| && s[j] == y;
        if j > 0 {
          LessEqTransitive(key(x), key(s[0]), key(y));
        }
      }
      SortedByCons(x, s, key);
    } else {
      LessEqTotal(key(x), key(s[0]));
      var t := Insert(x, s[1..], key);
      InsertSorted(x, s[1..], key);
      InsertPermutes(x, s[1..], key);
      forall y | y in t
        ensures LessEq(key(s[0]), key(y))
      {
        assert y in multiset(t);
        if y != x {
          assert y in multiset(s[1..]);
          var m :| 0 <= m < |s[1..]| && s[1..][m] == y;
          assert s[m + 1] == y;
        }
      }
      SortedByCons(s[0], t, key);
    }
  }

  lemma SortedByCons<T>(h: T, t: seq<T>, key: T -> string)
    requires SortedBy(t, key)
    requires forall y :: y in t ==> LessEq(key(h), key(y))
    ensures SortedBy([h] + t, key)
  {
    forall i, j | 0 <= i < j < |[h] + t|
      ensures LessEq(key(([h] + t)[i]), key(([h] + t)[j]))
    {
      if i > 0 {
        assert ([h] + t)[i] == t[i - 1];
      }
      assert ([h] + t)[j] == t[j - 1];
    }
  }

  lemma {:induction false} SortByIsSorted<T>(xs: seq<T>, key: T -> string)
    ensures SortedBy(SortBy(xs, key), key)
  {
    if |xs| > 0 {
      SortByIsSorted(xs[1..], key);
      InsertSorted(xs[0], SortBy(xs[1..], key), key);
    }
  }

  /** Insertion never moves `x` past an element with the same key. */
  lemma {:induction false} InsertFilter<T>(x: T, s: seq<T>, key: T -> string, k: string)
    ensures FilterKey(Insert(x, s, key), key, k)
         == (if key(x) == k then [x] else []) + FilterKey(s, key, k)
  {
    if |s| > 0 && !LessEq(key(x), key(s[0])) {
      var t := Insert(x, s[1..], key);
      var mine: seq<T> := if key(x) == k then [x] else [];
      var head: seq<T> := if key(s[0]) == k then [s[0]] else [];
      var rest := FilterKey(s[1..], key, k);
      assert FilterKey(Insert(x, s, key), key, k) == head + (mine + rest) by {
        InsertFilter(x, s[1..], key, k);
        FilterCons(s[0], t, key, k);
      }
      assert FilterKey(s, key, k) == head + rest by {
        FilterCons(s[0], s[1..], key, k);
        assert [s[0]] + s[1..] == s;
      }
      assert head == [] || mine == [] by {
        if key(x) == k {
          LessEqRefl(k);
        }
      }
    }
  }

  lemma FilterCons<T>(h: T, t: seq<T>, key: T -> string, k: string)
    ensures FilterKey([h] + t, key, k) == (if key(h) == k then [h] else []) + FilterKey(t, key, k)
  {
    assert ([h] + t)[1..] == t;
  }

  /** Stability: for every key, the elements carrying it keep their relative
      order. */
  lemma {:induction false} SortByStable<T>(xs: seq<T>, key: T -> string, k: string)
    ensures FilterKey(SortBy(xs, key), key, k) == FilterKey(xs, key, k)
  {
    if |xs| > 0 {
      SortByStable(xs[1..], key, k);
      InsertFilter(xs[0], SortBy(xs[1..], key), key, k);
    }
  }

  /** Sorting by a key and then reading the keys equals sorting the keys. */
  lemma {:induction false} KeysOfInsert<T>(x: T, s: seq<T>, key: T -> string)
    ensures KeysOf(Insert(x, s, key), key) == Insert(key(x), KeysOf(s, key), Id)
  {
    if |s| > 0 && !LessEq(key(x), key(s[0])) {
      KeysOfInsert(x, s[1..], key);
      assert KeysOf(s, key)[1..] == KeysOf(s[1..], key);
    }
  }

  lemma {:induction false} KeysOfSortBy<T>(xs: seq<T>, key: T -> string)
    ensures KeysOf(SortBy(xs, key), key) == SortStrings(KeysOf(xs, key))
  {
    if |xs| > 0 {
      KeysOfSortBy(xs[1..], key);
      KeysOfInsert(xs[0], SortBy(xs[1..], key), key);
      assert KeysOf(xs, key)[1..] == KeysOf(xs[1..], key);
    }
  }

  /** The head of a sorted sequence is below every element of it. */
  lemma HeadIsLeast(b: seq<string>, x: string)
    requires Sorted(b) && x in multiset(b)
    ensures LessEq(b[0], x)
  {
    assert x in b;
    var j :| 0 <= j < |b| && b[j] == x;
    if j == 0 { LessEqRefl(x); }
  }

  lemma TailMultiset(a: seq<string>)
    requires |a| > 0
    ensures multiset(a[1..]) == multiset(a) - multiset{a[0]}
  {
    assert a == [a[0]] + a[1..];
  }

  /** A sorted arrangement of a multiset of strings is unique. */
  lemma {:induction false} SortedUnique(a: seq<string>, b: seq<string>)
    requires Sorted(a) && Sorted(b) && multiset(a) == multiset(b)
    ensures a == b
  {
    if |a| == 0 {
      assert |b| == |multiset(b)| == 0;
    } else {
      assert |b| == |multiset(b)| == |multiset(a)| == |a|;
      assert a[0] == b[0] by {
        assert a[0] in multiset(a);
        assert b[0] in multiset(b);
        HeadIsLeast(b, a[0]);
        HeadIsLeast(a, b[0]);
        LessEqAntisymmetric(a[0], b[0]);
      }
      assert multiset(a[1..]) == multiset(b[1..]) by {
        TailMultiset(a);
        TailMultiset(b);
      }
      SortedUnique(a[1..], b[1..]);
      assert a == [a[0]] + a[1..];
      assert b == [b[0]] + b[1..];
    }
  }

  /** Python `list.pop(list.index(x))`: drops the first occurrence of `x`. */
  function RemoveFirst(xs: seq<string>, x: string): (r: seq<string>)
    requires x in xs
    ensures multiset(r) == multiset(xs) - multiset{x}
    ensures |r| == |xs| - 1
  {
    assert xs == [xs[0]] + xs[1..];
    if xs[0] == x then xs[1..]
    else
      [xs[0]] + RemoveFirst(xs[1..], x)
  }

  lemma {:induction false} RemoveFirstSorted(xs: seq<string>, x: string)
    requires x in xs && Sorted(xs)
    ensures Sorted(RemoveFirst(xs, x))
  {
    if xs[0] != x {
      var t := xs[1..];
      RemoveFirstSorted(t, x);
      var r := RemoveFirst(t, x);
      forall y | y in r
        ensures LessEq(Id(xs[0]), Id(y))
      {
        RemoveFirstWithin(t, x, y);
        var m :| 0 <= m < |t| && t[m] == y;
        assert xs[m + 1] == y;
      }
      SortedByCons(xs[0], r, Id);
    }
  }

  lemma {:induction false} RemoveFirstWithin(xs: seq<string>, x: string, y: string)
    requires x in xs && y in RemoveFirst(xs, x)
    ensures y in xs
  {
    if xs[0] != x && y != xs[0] {
      RemoveFirstWithin(xs[1..], x, y);
    }
  }
}
