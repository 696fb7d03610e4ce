/** Sequence facts shared by every counting part of the model: distinctness,
    first-seen de-duplication (the key order of an insertion-ordered map) and
    sums of occurrence counts. */
module Seqs {

  /** All elements pairwise different. */
  predicate Distinct<T(==)>(s: seq<T>) {
    forall i, j :: 0 <= i < j < |s| ==> s[i] != s[j]
  }

  /** `a` and `b` hold the same elements, whatever their order and multiplicity. */
  predicate SameElements<T(==)>(a: seq<T>, b: seq<T>) {
    && (forall i :: 0 <= i < |a| ==> a[i] in b)
    && (forall j :: 0 <= j < |b| ==> b[j] in a)
  }

  /** The distinct elements of `s` in the order of their first occurrence:
      the key order of a JavaScript `Map` or plain object that was filled
      from `s` by insertion. */
  function Dedup<T(==)>(s: seq<T>): (d: seq<T>)
    ensures Distinct(d)
    ensures SameElements(d, s)
    ensures |d| <= |s|
  {
    if |s| == 0 then []
    else
      var p := Dedup(s[..|s| - 1]);
      assert forall i :: 0 <= i < |s| - 1 ==> s[..|s| - 1][i] == s[i];
      if s[|s| - 1] in p then p else p + [s[|s| - 1]]
  }

  lemma {:induction false} DedupSnoc<T>(s: seq<T>, x: T)
    ensures Dedup(s + [x]) == if x in s then Dedup(s) else Dedup(s) + [x]
  {
    var t := s + [x];
    assert t[..|t| - 1] == s && t[|t| - 1] == x;
    var d := Dedup(s);
    assert x in s ==> x in d;
    assert x in d ==> x in s;
  }

  /** A duplicate-free sequence counts each of its elements once. */
  lemma {:induction false} DistinctMultiset<T>(s: seq<T>, x: T)
    requires Distinct(s)
    ensures multiset(s)[x] == if x in s then 1 else 0
  {
    if |s| > 0 {
      var p := s[..|s| - 1];
      SplitLast(s);
      assert Distinct(p);
      DistinctMultiset(p, x);
      assert s[|s| - 1] !in p;
    }
  }

  /** A duplicate-free sequence has as many elements as its set. */
  lemma {:induction false} DistinctCard<T>(s: seq<T>)
    requires Distinct(s)
    ensures |set x | x in s| == |s|
  {
    if |s| > 0 {
      var p := s[..|s| - 1];
      DistinctCard(p);
      SplitLast(s);
      assert s[|s| - 1] !in p;
      assert (set x | x in s) == (set x | x in p) + {s[|s| - 1]};
    }
  }

  /** A duplicate-free sequence drawn from `bound` has at most `|bound|` elements. */
  lemma DistinctWithin<T>(s: seq<T>, bound: set<T>)
    requires Distinct(s)
    requires forall i :: 0 <= i < |s| ==> s[i] in bound
    ensures |s| <= |bound|
  {
    DistinctCard(s);
    var elems := set x | x in s;
    assert elems <= bound;
    assert |bound| == |elems| + |bound - elems|;
  }

  /** Two duplicate-free sequences with the same elements are permutations of
      each other. */
  lemma DistinctSameElements<T>(a: seq<T>, b: seq<T>)
    requires Distinct(a) && Distinct(b)
    requires SameElements(a, b)
    ensures multiset(a) == multiset(b)
  {
    forall x ensures multiset(a)[x] == multiset(b)[x] {
      DistinctMultiset(a, x);
      DistinctMultiset(b, x);
    }
  }

  /** `SumOccurrences(keys, s)` adds up, for each element of `keys`, how many
      times it occurs in `s`. */
  function SumOccurrences<T(==)>(keys: seq<T>, s: seq<T>): nat {
    if |keys| == 0 then 0
    else multiset(s)[keys[0]] + SumOccurrences(keys[1..], s)
  }

  lemma {:induction false} SumOccurrencesOne<T>(keys: seq<T>, x: T)
    requires Distinct(keys)
    ensures SumOccurrences(keys, [x]) == if x in keys then 1 else 0
  {
    if |keys| > 0 {
      SumOccurrencesOne(keys[1..], x);
      assert x in keys <==> x == keys[0] || x in keys[1..];
      assert keys[0] == x ==> x !in keys[1..];
    }
  }

  lemma {:induction false} SumOccurrencesAppend<T>(keys: seq<T>, s: seq<T>, t: seq<T>)
    ensures SumOccurrences(keys, s + t) == SumOccurrences(keys, s) + SumOccurrences(keys, t)
  {
    if |keys| > 0 {
      SumOccurrencesAppend(keys[1..], s, t);
    }
  }

  /** Counting every element of `s` once per distinct key that covers it:
      if `keys` lists every value of `s` exactly once, the counts add up to |s|. */
  lemma {:induction false} SumOccurrencesTotal<T>(keys: seq<T>, s: seq<T>)
    requires Distinct(keys)
    requires forall x :: x in s ==> x in keys
    ensures SumOccurrences(keys, s) == |s|
  {
    if |s| > 0 {
      var p := s[..|s| - 1];
      SplitLast(s);
      SumOccurrencesTotal(keys, p);
      SumOccurrencesAppend(keys, p, [s[|s| - 1]]);
      SumOccurrencesOne(keys, s[|s| - 1]);
    } else {
      SumOccurrencesZero(keys);
    }
  }

  lemma {:induction false} SumOccurrencesZero<T>(keys: seq<T>)
    ensures SumOccurrences(keys, []) == 0
  {
    if |keys| > 0 {
      SumOccurrencesZero(keys[1..]);
    }
  }

  /** A value at two positions occurs at least twice. */
  lemma MultisetTwice<T>(s: seq<T>, i: int, j: int)
    requires 0 <= i < j < |s| && s[i] == s[j]
    ensures multiset(s)[s[i]] >= 2
  {
    assert s == s[..i] + [s[i]] + s[i + 1..j] + [s[j]] + s[j + 1..];
  }

  lemma SplitFirst<T>(s: seq<T>)
    requires |s| > 0
    ensures s == [s[0]] + s[1..]
  { }

  lemma SplitLast<T>(s: seq<T>)
    requires |s| > 0
    ensures s == s[..|s| - 1] + [s[|s| - 1]]
  { }

  lemma PrefixSnoc<T>(s: seq<T>, i: int)
    requires 0 <= i < |s|
    ensures s[..i + 1] == s[..i] + [s[i]]
  {
  }

  lemma AppendSnoc<T>(a: seq<T>, b: seq<T>, x: T)
    ensures a + (b + [x]) == (a + b) + [x]
  {
  }

  lemma AppendThree<T>(s: seq<T>, a: seq<T>, b: seq<T>, c: seq<T>)
    ensures s + (a + b + c) == s + a + b + c
  {
  }

  /** `s.filter(p)`: the elements satisfying `p`, in their order in `s`. */
  function Filter<T>(s: seq<T>, p: T -> bool): (r: seq<T>)
    ensures |r| <= |s|
    ensures forall i :: 0 <= i < |r| ==> p(r[i]) && r[i] in s
    ensures forall i :: 0 <= i < |s| && p(s[i]) ==> s[i] in r
    ensures multiset(r) <= multiset(s)
  {
    if |s| == 0 then []
    else
      var r' := Filter(s[..|s| - 1], p);
      SplitLast(s);
      if p(s[|s| - 1]) then r' + [s[|s| - 1]] else r'
  }

  lemma {:induction false} FilterAppend<T>(a: seq<T>, b: seq<T>, p: T -> bool)
    ensures Filter(a + b, p) == Filter(a, p) + Filter(b, p)
    decreases |b|
  {
    if |b| == 0 {
      assert a + b == a;
    } else {
      var b' := b[..|b| - 1];
      assert (a + b)[..|a + b| - 1] == a + b';
      FilterAppend(a, b', p);
    }
  }

  /** Filtering keeps every occurrence of a passing element and none of a
      failing one. */
  lemma {:induction false} FilterCount<T>(s: seq<T>, p: T -> bool, x: T)
    ensures multiset(Filter(s, p))[x] == if p(x) then multiset(s)[x] else 0
  {
    if |s| > 0 {
      var s' := s[..|s| - 1];
      FilterCount(s', p, x);
      SplitLast(s);
    }
  }

  /** Filtering commutes with permutation. */
  lemma FilterPermutation<T>(a: seq<T>, b: seq<T>, p: T -> bool)
    requires multiset(a) == multiset(b)
    ensures multiset(Filter(a, p)) == multiset(Filter(b, p))
  {
    forall x ensures multiset(Filter(a, p))[x] == multiset(Filter(b, p))[x] {
      FilterCount(a, p, x);
      FilterCount(b, p, x);
    }
  }

  /** Filtering by `p` and by its negation splits `s` into two parts that
      together hold every element of `s` once. */
  lemma {:induction false} FilterPartition<T>(s: seq<T>, p: T -> bool, q: T -> bool)
    requires forall x :: q(x) == !p(x)
    ensures multiset(Filter(s, p)) + multiset(Filter(s, q)) == multiset(s)
  {
    if |s| > 0 {
      var s' := s[..|s| - 1];
      FilterPartition(s', p, q);
      SplitLast(s);
    }
  }

  lemma {:induction false} FilterKeepsAll<T>(s: seq<T>, p: T -> bool)
    requires forall i :: 0 <= i < |s| ==> p(s[i])
    ensures Filter(s, p) == s
  {
    if |s| > 0 {
      FilterKeepsAll(s[..|s| - 1], p);
      SplitLast(s);
    }
  }

  lemma {:induction false} FilterKeepsNone<T>(s: seq<T>, p: T -> bool)
    requires forall i :: 0 <= i < |s| ==> !p(s[i])
    ensures Filter(s, p) == []
  {
    if |s| > 0 {
      FilterKeepsNone(s[..|s| - 1], p);
    }
  }

  /** Filtering a non-empty sequence: the filtered front, then the last
      element if it passes. */
  lemma FilterSnoc<T>(s: seq<T>, p: T -> bool)
    requires |s| > 0
    ensures Filter(s, p) == Filter(s[..|s| - 1], p) + (if p(s[|s| - 1]) then [s[|s| - 1]] else [])
  {
  }
}
