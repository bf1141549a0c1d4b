/**
 * Python's `sorted(xs, key=f)` for string keys: a stable sort by the `<` order on the
 * keys. It is written as an insertion sort, which puts every element after the earlier
 * ones whose key is not greater than its own.
 */
module Sorting {

  import opened Strings

  predicate SortedBy<T>(s: seq<T>, key: T -> string) {
    forall i, j :: 0 <= i < j < |s| ==> StrLe(key(s[i]), key(s[j]))
  }

  /** `x` inserted after the leading elements whose key is not greater than its own. */
  function InsertByKey<T>(x: T, s: seq<T>, key: T -> string): (r: seq<T>)
    ensures |r| == |s| + 1
  {
    if s == [] then [x]
    else if StrLe(key(s[0]), key(x)) then [s[0]] + InsertByKey(x, s[1..], key)
    else [x] + s
  }

  /** `sorted(xs, key=key)`: each element in turn inserted into the sorted earlier ones. */
  function SortByKey<T>(xs: seq<T>, key: T -> string): (r: seq<T>)
    ensures |r| == |xs|
  {
    if xs == [] then []
    else InsertByKey(xs[|xs| - 1], SortByKey(xs[..|xs| - 1], key), key)
  }

  /** The elements of `s` whose key is `k`, in their order. */
  function WithKey<T>(s: seq<T>, key: T -> string, k: string): (r: seq<T>)
    ensures |r| <= |s|
  {
    if s == [] then []
    else (if key(s[0]) == k then [s[0]] else []) + WithKey(s[1..], key, k)
  }

  lemma {:induction false} InsertMultiset<T>(x: T, s: seq<T>, key: T -> string)
    ensures multiset(InsertByKey(x, s, key)) == multiset(s) + multiset{x}
  {
    if s != [] && StrLe(key(s[0]), key(x)) {
      InsertMultiset(x, s[1..], key);
      assert s == [s[0]] + s[1..];
    }
  }

  lemma {:induction false} InsertSorted<T>(x: T, s: seq<T>, key: T -> string)
    requires SortedBy(s, key)
    ensures SortedBy(InsertByKey(x, s, key), key)
  {
    if s == [] {
    } else if StrLe(key(s[0]), key(x)) {
      var tail := s[1..];
      assert SortedBy(tail, key) by {
        forall i, j | 0 <= i < j < |tail| ensures StrLe(key(tail[i]), key(tail[j])) {
          assert tail[i] == s[i + 1] && tail[j] == s[j + 1];
        }
      }
      InsertSorted(x, tail, key);
      InsertAfterHead(x, s, key);
      ConsSorted(s[0], InsertByKey(x, tail, key), key);
    } else {
      StrLeTotal(key(s[0]), key(x));
      forall j | 0 <= j < |s| ensures StrLe(key(x), key(s[j])) {
        if j > 0 {
          StrLeTransitive(key(x), key(s[0]), key(s[j]));
        }
      }
      ConsSorted(x, s, key);
    }
  }

  /** Inserting into the tail keeps every element at or above the head's key. */
  lemma InsertAfterHead<T>(x: T, s: seq<T>, key: T -> string)
    requires SortedBy(s, key) && s != [] && StrLe(key(s[0]), key(x))
    ensures forall j :: 0 <= j < |InsertByKey(x, s[1..], key)| ==> StrLe(key(s[0]), key(InsertByKey(x, s[1..], key)[j]))
  {
    var tail := s[1..];
    var t := InsertByKey(x, tail, key);
    InsertMultiset(x, tail, key);
    forall j | 0 <= j < |t|
      ensures StrLe(key(s[0]), key(t[j]))
    {
      assert t[j] in multiset(t);
      if t[j] != x {
        assert t[j] in multiset(tail);
        var i :| 0 <= i < |tail| && tail[i] == t[j];
        assert s[i + 1] == t[j];
      }
    }
  }

  /** An element whose key bounds a sorted sequence's keys from below can go in front. */
  lemma ConsSorted<T>(h: T, t: seq<T>, key: T -> string)
    requires SortedBy(t, key)
    requires forall j :: 0 <= j < |t| ==> StrLe(key(h), key(t[j]))
    ensures SortedBy([h] + t, key)
  {
    var r := [h] + t;
    forall i, j | 0 <= i < j < |r|
      ensures StrLe(key(r[i]), key(r[j]))
    {
      assert r[j] == t[j - 1];
      if i > 0 {
        assert r[i] == t[i - 1];
      }
    }
  }

  /** The result is ordered by key. */
  lemma {:induction false} SortSorted<T>(xs: seq<T>, key: T -> string)
    ensures SortedBy(SortByKey(xs, key), key)
  {
    if xs != [] {
      SortSorted(xs[..|xs| - 1], key);
      InsertSorted(xs[|xs| - 1], SortByKey(xs[..|xs| - 1], key), key);
    }
  }

  /** The result holds the same elements, as often as the input. */
  lemma {:induction false} SortPermutation<T>(xs: seq<T>, key: T -> string)
    ensures multiset(SortByKey(xs, key)) == multiset(xs)
  {
    if xs != [] {
      var init := xs[..|xs| - 1];
      SortPermutation(init, key);
      InsertMultiset(xs[|xs| - 1], SortByKey(init, key), key);
      assert xs == init + [xs[|xs| - 1]];
    }
  }

  lemma {:induction false} WithKeyAppend<T>(a: seq<T>, b: seq<T>, key: T -> string, k: string)
    ensures WithKey(a + b, key, k) == WithKey(a, key, k) + WithKey(b, key, k)
  {
    if a != [] {
      assert (a + b)[1..] == a[1..] + b;
      WithKeyAppend(a[1..], b, key, k);
    } else {
      assert a + b == b;
    }
  }

  lemma {:induction false} WithMissingKey<T>(s: seq<T>, key: T -> string, k: string)
    requires forall i :: 0 <= i < |s| ==> key(s[i]) != k
    ensures WithKey(s, key, k) == []
  {
    if s != [] {
      WithMissingKey(s[1..], key, k);
    }
  }

  /** Inserting `x` puts it after every element with the same key. */
  lemma {:induction false} InsertStable<T>(x: T, s: seq<T>, key: T -> string, k: string)
    requires SortedBy(s, key)
    ensures WithKey(InsertByKey(x, s, key), key, k) == WithKey(s, key, k) + (if key(x) == k then [x] else [])
  {
    var tailX: seq<T> := if key(x) == k then [x] else [];
    if s == [] {
      assert WithKey([x], key, k) == tailX + WithKey([x][1..], key, k);
    } else if StrLe(key(s[0]), key(x)) {
      assert SortedBy(s[1..], key);
      InsertStable(x, s[1..], key, k);
      var head: seq<T> := if key(s[0]) == k then [s[0]] else [];
      var t := InsertByKey(x, s[1..], key);
      assert ([s[0]] + t)[1..] == t;
      assert WithKey([s[0]] + t, key, k) == head + WithKey(t, key, k);
      assert WithKey(s, key, k) == head + WithKey(s[1..], key, k);
      assert head + (WithKey(s[1..], key, k) + tailX) == (head + WithKey(s[1..], key, k)) + tailX;
    } else {
      InsertAfterAllGreater(x, s, key, k);
    }
  }

  /** When `x` goes first, no element of `s` shares its key. */
  lemma InsertAfterAllGreater<T>(x: T, s: seq<T>, key: T -> string, k: string)
    requires SortedBy(s, key) && s != [] && !StrLe(key(s[0]), key(x))
    ensures WithKey([x] + s, key, k) == WithKey(s, key, k) + (if key(x) == k then [x] else [])
  {
    forall i | 0 <= i < |s|
      ensures key(s[i]) != key(x)
    {
      StrLeTotal(key(x), key(x));
      if i > 0 {
        assert StrLe(key(s[0]), key(s[i]));
      }
    }
    WithMissingKey(s, key, key(x));
    assert ([x] + s)[1..] == s;
  }

  /** Elements with equal keys keep their relative order: the sort is stable. */
  lemma {:induction false} SortStable<T>(xs: seq<T>, key: T -> string, k: string)
    ensures WithKey(SortByKey(xs, key), key, k) == WithKey(xs, key, k)
  {
    if xs != [] {
      var init, x := xs[..|xs| - 1], xs[|xs| - 1];
      SortStable(init, key, k);
      SortSorted(init, key);
      InsertStable(x, SortByKey(init, key), key, k);
      assert xs == init + [x];
      WithKeyAppend(init, [x], key, k);
      assert [x][1..] == [];
    }
  }
}
