/** Ordering facts shared by the year sort and the per-year appointment sort. Both sorts
    in the source are `Array.prototype.sort` with a comparator `(a, b) => key(b) - key(a)`,
    that is, newest (largest key) first. */
module Sorting {

  /** Keys never increase from left to right. */
  predicate NonIncreasing<T>(s: seq<T>, key: T -> int)
  {
    forall i, j :: 0 <= i < j < |s| ==> key(s[i]) >= key(s[j])
  }

  /** No element occurs twice. */
  predicate Distinct<T(==)>(s: seq<T>)
  {
    forall i, j :: 0 <= i < j < |s| ==> s[i] != s[j]
  }

  /** `s.filter(x => key(x) === k)`: the elements whose key is `k`, in the order they
      come in `s`. */
  function KeepKey<T>(s: seq<T>, key: T -> int, k: int): seq<T>
  {
    if s == [] then []
    else (if key(s[0]) == k then [s[0]] else []) + KeepKey(s[1..], key, k)
  }

  /** The kept elements are those of key `k`, each as often as in `s`, and no other. */
  lemma {:induction false} KeepKeyCounts<T>(s: seq<T>, key: T -> int, k: int, x: T)
    ensures multiset(KeepKey(s, key, k))[x] == (if key(x) == k then multiset(s)[x] else 0)
  {
    if s != [] {
      assert s == [s[0]] + s[1..];
      KeepKeyCounts(s[1..], key, k, x);
    }
  }

  /** Inserts `x` ahead of the first element whose key is not larger than its own. */
  function Insert<T>(x: T, s: seq<T>, key: T -> int): seq<T>
  {
    if s == [] then [x]
    else if key(s[0]) <= key(x) then [x] + s
    else [s[0]] + Insert(x, s[1..], key)
  }

  /** Insertion adds exactly the one element. */
  lemma {:induction false} InsertCounts<T>(x: T, s: seq<T>, key: T -> int)
    ensures multiset(Insert(x, s, key)) == multiset(s) + multiset{x}
  {
    if s != [] && key(s[0]) > key(x) {
      InsertCounts(x, s[1..], key);
      assert s == [s[0]] + s[1..];
    }
  }

  /** Inserting into a sequence ordered newest first keeps it ordered. */
  lemma {:induction false} InsertOrdered<T>(x: T, s: seq<T>, key: T -> int)
    requires NonIncreasing(s, key)
    ensures NonIncreasing(Insert(x, s, key), key)
  {
    if s != [] && key(s[0]) > key(x) {
      var rest := Insert(x, s[1..], key);
      InsertOrdered(x, s[1..], key);
      InsertCounts(x, s[1..], key);
      forall j | 0 <= j < |rest| ensures key(s[0]) >= key(rest[j]) {
        assert rest[j] in multiset(s[1..]) + multiset{x};
        if rest[j] != x {
          assert rest[j] in s[1..];
        }
      }
      assert Insert(x, s, key) == [s[0]] + rest;
    }
  }

  /** The comparator sort `sort((a, b) => key(b) - key(a))`, as an insertion sort. The
      result is ordered by descending key (SortOrdered), is a permutation of the input
      (SortPermutes), and is stable, as ECMAScript requires of `Array.prototype.sort`
      (SortIsStable): everything ECMAScript promises of a sort with a consistent
      comparator. */
  function SortDescending<T>(s: seq<T>, key: T -> int): seq<T>
  {
    if s == [] then [] else Insert(s[0], SortDescending(s[1..], key), key)
  }

  /** The sort orders by descending key. */
  lemma {:induction false} SortOrdered<T>(s: seq<T>, key: T -> int)
    ensures NonIncreasing(SortDescending(s, key), key)
  {
    if s != [] {
      SortOrdered(s[1..], key);
      InsertOrdered(s[0], SortDescending(s[1..], key), key);
    }
  }

  /** The sort is a permutation of its input. */
  lemma {:induction false} SortPermutes<T>(s: seq<T>, key: T -> int)
    ensures multiset(SortDescending(s, key)) == multiset(s)
  {
    if s != [] {
      SortPermutes(s[1..], key);
      InsertCounts(s[0], SortDescending(s[1..], key), key);
      assert s == [s[0]] + s[1..];
    }
  }

  /** An inserted element goes ahead of the elements that share its key. */
  lemma {:induction false} InsertAheadOfEqualKeys<T>(x: T, s: seq<T>, key: T -> int)
    ensures KeepKey(Insert(x, s, key), key, key(x)) == [x] + KeepKey(s, key, key(x))
  {
    if s == [] {
      KeepKeyHead(x, [], key, key(x));
    } else if key(s[0]) <= key(x) {
      KeepKeyHead(x, s, key, key(x));
    } else {
      var rest := Insert(x, s[1..], key);
      InsertAheadOfEqualKeys(x, s[1..], key);
      KeepKeyHead(s[0], rest, key, key(x));
      KeepKeyHead(s[0], s[1..], key, key(x));
      assert [s[0]] + s[1..] == s;
    }
  }

  /** Inserting an element leaves the elements of every other key as they were. */
  lemma {:induction false} InsertKeepsOtherKeys<T>(x: T, s: seq<T>, key: T -> int, k: int)
    requires key(x) != k
    ensures KeepKey(Insert(x, s, key), key, k) == KeepKey(s, key, k)
  {
    if s == [] {
      KeepKeyHead(x, [], key, k);
    } else if key(s[0]) <= key(x) {
      KeepKeyHead(x, s, key, k);
    } else {
      var rest := Insert(x, s[1..], key);
      InsertKeepsOtherKeys(x, s[1..], key, k);
      KeepKeyHead(s[0], rest, key, k);
      KeepKeyHead(s[0], s[1..], key, k);
      assert [s[0]] + s[1..] == s;
    }
  }

  /** Filtering a sequence with a given head: the head is kept exactly when its key is
      `k`, in front of the filtered tail. */
  lemma KeepKeyHead<T>(h: T, t: seq<T>, key: T -> int, k: int)
    ensures key(h) == k ==> KeepKey([h] + t, key, k) == [h] + KeepKey(t, key, k)
    ensures key(h) != k ==> KeepKey([h] + t, key, k) == KeepKey(t, key, k)
  {
    assert ([h] + t)[0] == h && ([h] + t)[1..] == t;
  }

  /** Stability: the elements of any one key come out in their input order. */
  lemma {:induction false} SortIsStable<T>(s: seq<T>, key: T -> int, k: int)
    ensures KeepKey(SortDescending(s, key), key, k) == KeepKey(s, key, k)
  {
    if s != [] {
      SortIsStable(s[1..], key, k);
      if key(s[0]) == k {
        InsertAheadOfEqualKeys(s[0], SortDescending(s[1..], key), key);
      } else {
        InsertKeepsOtherKeys(s[0], SortDescending(s[1..], key), key, k);
      }
    }
  }

  /** A distinct sequence holds each value at most once. */
  lemma {:induction false} DistinctCountAtMostOne<T>(s: seq<T>, x: T)
    requires Distinct(s)
    ensures multiset(s)[x] <= 1
  {
    if s != [] {
      assert s == [s[0]] + s[1..];
      DistinctCountAtMostOne(s[1..], x);
      if s[0] == x {
        assert x !in s[1..];
      }
    }
  }

  /** Two equal entries at different places count twice. */
  lemma RepeatedCountsTwice<T>(s: seq<T>, i: nat, j: nat)
    requires i < j < |s| && s[i] == s[j]
    ensures multiset(s)[s[i]] >= 2
  {
    assert s == s[..j] + s[j..];
    assert s[i] in s[..j];
    assert s[j] in s[j..];
  }

  /** Permuting a distinct sequence keeps it distinct. */
  lemma DistinctPermutation<T>(s: seq<T>, r: seq<T>)
    requires Distinct(s) && multiset(r) == multiset(s)
    ensures Distinct(r)
  {
    forall i, j | 0 <= i < j < |r|
      ensures r[i] != r[j]
    {
      if r[i] == r[j] {
        RepeatedCountsTwice(r, i, j);
        DistinctCountAtMostOne(s, r[i]);
        assert false;
      }
    }
  }

  /** A distinct sequence has as many members as entries. */
  lemma {:induction false} DistinctCardinality<T>(s: seq<T>)
    requires Distinct(s)
    ensures |set x | x in s| == |s|
  {
    if s != [] {
      DistinctCardinality(s[1..]);
      assert (set x | x in s) == (set x | x in s[1..]) + {s[0]};
      assert s[0] !in s[1..];
    }
  }
}
