/** Row order, filtering and sorting: what the database does for `findMany`
    with `where`, `orderBy`, `skip` and `take`. Rows read without `orderBy`
    come back in ascending id order, which in this model is creation order. */
module Ordering {
  import opened Entities

  /** The ids of `ks` below `n`, oldest first. */
  function Ascending(ks: set<Id>, n: nat): (r: seq<Id>)
    ensures forall k :: k in r <==> k in ks && k < n
    ensures Increasing(r)
  {
    if n == 0 then []
    else
      var prev := Ascending(ks, n - 1);
      assert forall i :: 0 <= i < |prev| ==> prev[i] in prev;
      prev + (if n - 1 in ks then [n - 1] else [])
  }

  /** The ids of `ks` below `n`, newest first. */
  function Descending(ks: set<Id>, n: nat): (r: seq<Id>)
    ensures forall k :: k in r <==> k in ks && k < n
    ensures Decreasing(r)
  {
    if n == 0 then []
    else
      var rest := Descending(ks, n - 1);
      assert forall i :: 0 <= i < |rest| ==> rest[i] in rest;
      (if n - 1 in ks then [n - 1] else []) + rest
  }

  /** The ids of `ks` below `n`. */
  function Below(ks: set<Id>, n: nat): set<Id>
  {
    set k | k in ks && k < n
  }

  /** Every id of `ks` below `n` is listed once. */
  lemma {:induction false} AscendingCount(ks: set<Id>, n: nat)
    ensures |Ascending(ks, n)| == |Below(ks, n)|
  {
    if n == 0 {
      assert Below(ks, n) == {};
    } else {
      AscendingCount(ks, n - 1);
      CountBelowStep(ks, n);
      var prev := Ascending(ks, n - 1);
      assert Ascending(ks, n) == prev + (if n - 1 in ks then [n - 1] else []);
    }
  }

  lemma {:induction false} DescendingCount(ks: set<Id>, n: nat)
    ensures |Descending(ks, n)| == |Below(ks, n)|
  {
    if n == 0 {
      assert Below(ks, n) == {};
    } else {
      DescendingCount(ks, n - 1);
      CountBelowStep(ks, n);
      var rest := Descending(ks, n - 1);
      assert Descending(ks, n) == (if n - 1 in ks then [n - 1] else []) + rest;
    }
  }

  lemma CountBelowStep(ks: set<Id>, n: nat)
    requires n > 0
    ensures |Below(ks, n)| == |Below(ks, n - 1)| + (if n - 1 in ks then 1 else 0)
  {
    if n - 1 in ks {
      assert Below(ks, n) == Below(ks, n - 1) + {n - 1};
    } else {
      assert Below(ks, n) == Below(ks, n - 1);
    }
  }

  predicate Increasing(s: seq<Id>)
  {
    forall i, j :: 0 <= i < j < |s| ==> s[i] < s[j]
  }

  predicate Decreasing(s: seq<Id>)
  {
    forall i, j :: 0 <= i < j < |s| ==> s[i] > s[j]
  }

  /** The elements of `s` that satisfy `p`, in their original order. */
  function Filter<T(!new)>(s: seq<T>, p: T -> bool): (r: seq<T>)
    ensures forall x :: x in r <==> x in s && p(x)
    ensures |r| <= |s|
  {
    if s == [] then []
    else (if p(s[0]) then [s[0]] else []) + Filter(s[1..], p)
  }

  /** Filtering keeps a newest-first sequence of ids newest first. */
  lemma {:induction false} FilterDecreasing(s: seq<Id>, p: Id -> bool)
    requires Decreasing(s)
    ensures Decreasing(Filter(s, p))
  {
    if s != [] {
      FilterDecreasing(s[1..], p);
      var rest := Filter(s[1..], p);
      forall j | 0 <= j < |rest| ensures s[0] > rest[j] {
        assert rest[j] in s[1..];
      }
    }
  }

  /** Filtering keeps an oldest-first sequence of ids oldest first. */
  lemma {:induction false} FilterIncreasing(s: seq<Id>, p: Id -> bool)
    requires Increasing(s)
    ensures Increasing(Filter(s, p))
  {
    if s != [] {
      FilterIncreasing(s[1..], p);
      var rest := Filter(s[1..], p);
      forall j | 0 <= j < |rest| ensures s[0] < rest[j] {
        assert rest[j] in s[1..];
      }
    }
  }

  /** No element occurs twice. */
  predicate Distinct<T(==)>(s: seq<T>)
  {
    forall i, j :: 0 <= i < j < |s| ==> s[i] != s[j]
  }

  /** Filtering keeps a sequence free of repetitions. */
  lemma {:induction false} FilterDistinct<T(!new)>(s: seq<T>, p: T -> bool)
    requires Distinct(s)
    ensures Distinct(Filter(s, p))
  {
    if s != [] {
      assert Distinct(s[1..]) by {
        forall i, j | 0 <= i < j < |s[1..]| ensures s[1..][i] != s[1..][j] {
          assert s[i + 1] != s[j + 1];
        }
      }
      FilterDistinct(s[1..], p);
      var rest := Filter(s[1..], p);
      forall j | 0 <= j < |rest| ensures s[0] != rest[j] {
        assert rest[j] in s[1..];
      }
    }
  }

  /** In a sequence free of repetitions every value occurs at most once. */
  lemma {:induction false} DistinctAtMostOnce<T>(s: seq<T>, x: T)
    requires Distinct(s)
    ensures multiset(s)[x] <= 1
  {
    if s != [] {
      assert s == [s[0]] + s[1..];
      assert Distinct(s[1..]) by {
        forall i, j | 0 <= i < j < |s[1..]| ensures s[1..][i] != s[1..][j] {
          assert s[i + 1] != s[j + 1];
        }
      }
      DistinctAtMostOnce(s[1..], x);
      if x == s[0] {
        assert x !in s[1..];
      }
    }
  }

  /** A rearrangement of a sequence free of repetitions is free of them. */
  lemma PermutationDistinct<T>(s: seq<T>, t: seq<T>)
    requires multiset(s) == multiset(t) && Distinct(s)
    ensures Distinct(t)
  {
    forall i, j | 0 <= i < j < |t| ensures t[i] != t[j] {
      if t[i] == t[j] {
        assert t == t[..j] + t[j..];
        assert t[..j][i] == t[i];
        assert t[j..][0] == t[i];
        assert multiset(t[..j])[t[i]] >= 1 && multiset(t[j..])[t[i]] >= 1;
        DistinctAtMostOnce(s, t[i]);
      }
    }
  }

  /** The records stored under `ids`, in the order of `ids`. */
  function Rows<V>(m: map<Id, V>, ids: seq<Id>): (r: seq<V>)
    requires forall k :: k in ids ==> k in m
    ensures |r| == |ids| && forall i :: 0 <= i < |ids| ==> r[i] == m[ids[i]]
  {
    if ids == [] then [] else [m[ids[0]]] + Rows(m, ids[1..])
  }

  function Min(a: int, b: int): int
  {
    if a <= b then a else b
  }

  /** `skip` and `take`: at most `take` elements of `s` from position `skip`. */
  function Window<T>(s: seq<T>, skip: nat, take: nat): (r: seq<T>)
    ensures |r| == if skip >= |s| then 0 else Min(take, |s| - skip)
    ensures forall i :: 0 <= i < |r| ==> r[i] == s[skip + i]
  {
    if skip >= |s| then [] else s[skip..skip + Min(take, |s| - skip)]
  }

  /** `le` relates any two values one way or the other. */
  ghost predicate Total<T(!new)>(le: (T, T) -> bool)
  {
    forall a, b :: le(a, b) || le(b, a)
  }

  ghost predicate Transitive<T(!new)>(le: (T, T) -> bool)
  {
    forall a, b, c :: le(a, b) && le(b, c) ==> le(a, c)
  }

  /** Each element is ordered by `le` before the next one. */
  predicate SortedBy<T>(s: seq<T>, le: (T, T) -> bool)
  {
    forall i :: 0 < i < |s| ==> le(s[i - 1], s[i])
  }

  /** For a transitive order, a sorted sequence is ordered pairwise. */
  lemma {:induction false} SortedPairwise<T(!new)>(s: seq<T>, le: (T, T) -> bool, i: nat, j: nat)
    requires Transitive(le) && SortedBy(s, le)
    requires i < j < |s|
    ensures le(s[i], s[j])
  {
    if i + 1 < j {
      SortedPairwise(s, le, i, j - 1);
      assert le(s[j - 1], s[j]);
    }
  }

  function Insert<T(!new)>(x: T, s: seq<T>, le: (T, T) -> bool): (r: seq<T>)
    requires Total(le) && SortedBy(s, le)
    ensures SortedBy(r, le)
    ensures multiset(r) == multiset(s) + multiset{x}
    ensures r[0] == x || (s != [] && r[0] == s[0])
  {
    if s == [] then [x]
    else if le(x, s[0]) then [x] + s
    else
      assert s == [s[0]] + s[1..];
      assert SortedBy(s[1..], le) by {
        forall i | 0 < i < |s[1..]| ensures le(s[1..][i - 1], s[1..][i]) {
          assert le(s[i], s[i + 1]);
        }
      }
      var rest := Insert(x, s[1..], le);
      assert le(s[0], rest[0]);
      [s[0]] + rest
  }

  /** Insertion sort: the ordering `orderBy` asks of the database. */
  function SortBy<T(!new)>(s: seq<T>, le: (T, T) -> bool): (r: seq<T>)
    requires Total(le)
    ensures SortedBy(r, le)
    ensures multiset(r) == multiset(s)
  {
    if s == [] then []
    else
      assert s == [s[0]] + s[1..];
      Insert(s[0], SortBy(s[1..], le), le)
  }

  /** Lexicographic order on strings by character code. */
  predicate StrLe(a: string, b: string)
  {
    if a == [] then true
    else if b == [] then false
    else if a[0] != b[0] then a[0] < b[0]
    else StrLe(a[1..], b[1..])
  }

  lemma {:induction false} StrLeTotal(a: string, b: string)
    ensures StrLe(a, b) || StrLe(b, a)
  {
    if a != [] && b != [] && a[0] == b[0] {
      StrLeTotal(a[1..], b[1..]);
    }
  }

  lemma {:induction false} StrLeTransitive(a: string, b: string, c: string)
    requires StrLe(a, b) && StrLe(b, c)
    ensures StrLe(a, c)
  {
    if a != [] && b != [] && c != [] && a[0] == b[0] == c[0] {
      StrLeTransitive(a[1..], b[1..], c[1..]);
    }
  }
}
