/** `Array.prototype.sort` as the analyzer uses it. Since ECMAScript 2019 the
    sort is stable, so `xs.sort((a, b) => f(a) - f(b))` is the stable sort by
    the integer key `f`, and `xs.sort()` on strings is the stable sort in
    string order. Both are modelled as insertion sorts; their contracts and
    lemmas say what any stable sort must deliver. */
module Ordering {
  import opened Text
  import opened Seqs

  /** Non-decreasing by `key`. */
  predicate SortedBy<T>(s: seq<T>, key: T -> int) {
    forall i, j :: 0 <= i < j < |s| ==> key(s[i]) <= key(s[j])
  }

  /** Strictly increasing by `key`. */
  predicate StrictlySortedBy<T>(s: seq<T>, key: T -> int) {
    forall i, j :: 0 <= i < j < |s| ==> key(s[i]) < key(s[j])
  }

  /** No two elements share a key. */
  predicate DistinctKeys<T>(s: seq<T>, key: T -> int) {
    forall i, j :: 0 <= i < j < |s| ==> key(s[i]) != key(s[j])
  }

  /** The elements of `s` whose key is `k`, in their order in `s`: the
      elements a comparator `(a, b) => key(a) - key(b)` considers tied. */
  function WithKey<T>(s: seq<T>, key: T -> int, k: int): seq<T> {
    if |s| == 0 then []
    else WithKey(s[..|s| - 1], key, k) + (if key(s[|s| - 1]) == k then [s[|s| - 1]] else [])
  }

  lemma {:induction false} WithKeyAppend<T>(a: seq<T>, b: seq<T>, key: T -> int, k: int)
    ensures WithKey(a + b, key, k) == WithKey(a, key, k) + WithKey(b, key, k)
    decreases |b|
  {
    if |b| == 0 {
      assert a + b == a;
    } else {
      var b' := b[..|b| - 1];
      assert (a + b)[..|a + b| - 1] == a + b';
      WithKeyAppend(a, b', key, k);
    }
  }

  lemma {:induction false} WithKeyNone<T>(s: seq<T>, key: T -> int, k: int)
    requires forall i :: 0 <= i < |s| ==> key(s[i]) != k
    ensures WithKey(s, key, k) == []
  {
    if |s| > 0 {
      WithKeyNone(s[..|s| - 1], key, k);
    }
  }

  /** What a prefix keeps of each key is a prefix of what the whole keeps. */
  lemma WithKeyPrefix<T>(a: seq<T>, b: seq<T>, key: T -> int, k: int)
    requires a <= b
    ensures WithKey(a, key, k) <= WithKey(b, key, k)
  {
    assert b == a + b[|a|..];
    WithKeyAppend(a, b[|a|..], key, k);
  }

  /** Puts `x` into the sorted `t` after every element whose key is at most
      `key(x)`: one step of a stable insertion sort. */
  function InsertBy<T>(t: seq<T>, x: T, key: T -> int): (r: seq<T>)
    ensures multiset(r) == multiset(t) + multiset{x}
    ensures |r| == |t| + 1
  {
    if |t| == 0 then [x]
    else if key(t[0]) <= key(x) then
      SplitFirst(t);
      [t[0]] + InsertBy(t[1..], x, key)
    else
      [x] + t
  }

  lemma {:induction false} InsertBySorted<T>(t: seq<T>, x: T, key: T -> int)
    requires SortedBy(t, key)
    ensures SortedBy(InsertBy(t, x, key), key)
    decreases |t|
  {
    if |t| > 0 && key(t[0]) <= key(x) {
      var r' := InsertBy(t[1..], x, key);
      InsertBySorted(t[1..], x, key);
      forall j | 0 <= j < |r'| ensures key(t[0]) <= key(r'[j]) {
        assert r'[j] in multiset(r');
        if r'[j] != x {
          assert r'[j] in multiset(t[1..]);
          var k :| 0 <= k < |t[1..]| && t[1..][k] == r'[j];
          assert t[k + 1] == r'[j];
        }
      }
      var r := [t[0]] + r';
      forall i, j | 0 <= i < j < |r| ensures key(r[i]) <= key(r[j]) {
        assert r[j] == r'[j - 1];
        if i > 0 {
          assert r[i] == r'[i - 1];
        }
      }
    }
  }

  lemma {:induction false} InsertByWithKey<T>(t: seq<T>, x: T, key: T -> int, k: int)
    requires SortedBy(t, key)
    ensures WithKey(InsertBy(t, x, key), key, k)
         == WithKey(t, key, k) + (if key(x) == k then [x] else [])
    decreases |t|
  {
    if |t| == 0 {
      assert [x][..0] == [];
    } else if key(t[0]) <= key(x) {
      var t' := t[1..];
      assert SortedBy(t', key) by {
        forall i, j | 0 <= i < j < |t'| ensures key(t'[i]) <= key(t'[j]) {
          assert t'[i] == t[i + 1] && t'[j] == t[j + 1];
        }
      }
      InsertByWithKey(t', x, key, k);
      WithKeyCons(t, InsertBy(t', x, key), key, k);
    } else {
      WithKeyFront(t, x, key, k);
    }
  }

  lemma WithKeyCons<T>(t: seq<T>, r': seq<T>, key: T -> int, k: int)
    requires |t| > 0
    ensures WithKey([t[0]] + r', key, k) == WithKey([t[0]], key, k) + WithKey(r', key, k)
    ensures WithKey(t, key, k) == WithKey([t[0]], key, k) + WithKey(t[1..], key, k)
  {
    WithKeyAppend([t[0]], r', key, k);
    WithKeyAppend([t[0]], t[1..], key, k);
    SplitFirst(t);
  }

  lemma WithKeyFront<T>(t: seq<T>, x: T, key: T -> int, k: int)
    requires SortedBy(t, key)
    requires |t| > 0 && key(x) < key(t[0])
    ensures WithKey([x] + t, key, k) == WithKey(t, key, k) + (if key(x) == k then [x] else [])
  {
    WithKeyAppend([x], t, key, k);
    assert [x][..0] == [];
    if key(x) == k {
      WithKeyNone(t, key, k);
    }
  }

  /** `s.sort((a, b) => key(a) - key(b))`: the stable sort by `key`. */
  function SortBy<T>(s: seq<T>, key: T -> int): (r: seq<T>)
    ensures multiset(r) == multiset(s)
    ensures |r| == |s|
    ensures SortedBy(r, key)
  {
    if |s| == 0 then []
    else
      SplitLast(s);
      InsertBySorted(SortBy(s[..|s| - 1], key), s[|s| - 1], key);
      InsertBy(SortBy(s[..|s| - 1], key), s[|s| - 1], key)
  }

  /** Stability: elements with equal keys keep their relative order. */
  lemma {:induction false} SortByStable<T>(s: seq<T>, key: T -> int, k: int)
    ensures WithKey(SortBy(s, key), key, k) == WithKey(s, key, k)
  {
    if |s| > 0 {
      SortByStable(s[..|s| - 1], key, k);
      InsertByWithKey(SortBy(s[..|s| - 1], key), s[|s| - 1], key, k);
    }
  }

  /** Sorting neither adds nor loses an element. */
  lemma SortByMember<T>(a: seq<T>, key: T -> int, e: T)
    ensures e in SortBy(a, key) <==> e in a
  {
    assert e in SortBy(a, key) <==> e in multiset(SortBy(a, key));
  }

  /** With no two keys equal the sorted order is strict. */
  lemma SortedDistinctIsStrict<T>(s: seq<T>, key: T -> int)
    requires SortedBy(s, key) && DistinctKeys(s, key)
    ensures StrictlySortedBy(s, key)
  {
  }

  /** A permutation keeps the keys distinct. */
  lemma DistinctKeysPermutation<T>(a: seq<T>, b: seq<T>, key: T -> int)
    requires DistinctKeys(a, key) && multiset(a) == multiset(b)
    ensures DistinctKeys(b, key)
  {
    forall i, j | 0 <= i < j < |b| ensures key(b[i]) != key(b[j]) {
      assert b[i] in multiset(a) && b[j] in multiset(a);
      var i' :| 0 <= i' < |a| && a[i'] == b[i];
      var j' :| 0 <= j' < |a| && a[j'] == b[j];
      KeyUnique(a, key, i');
      assert b == b[..i] + [b[i]] + b[i + 1..j] + [b[j]] + b[j + 1..];
      if i' == j' {
        assert false;
      }
    }
  }

  /** In a sequence with distinct keys, an element occurs once. */
  lemma {:induction false} KeyUnique<T>(a: seq<T>, key: T -> int, i: int)
    requires DistinctKeys(a, key) && 0 <= i < |a|
    ensures multiset(a)[a[i]] == 1
    decreases |a|
  {
    var n := |a| - 1;
    SplitLast(a);
    if i == n {
      assert a[n] !in a[..n] by {
        forall p | 0 <= p < n ensures a[..n][p] != a[n] {
          assert key(a[p]) != key(a[n]);
        }
      }
    } else {
      KeyUnique(a[..n], key, i);
      assert key(a[n]) != key(a[i]);
    }
  }

  /** A strictly sorted sequence is determined by its elements: sorting any
      permutation of a sequence with distinct keys gives the same result. */
  lemma {:induction false} StrictlySortedUnique<T>(a: seq<T>, b: seq<T>, key: T -> int)
    requires StrictlySortedBy(a, key) && StrictlySortedBy(b, key)
    requires multiset(a) == multiset(b)
    ensures a == b
    decreases |a|
  {
    if |a| == 0 {
      assert |multiset(b)| == 0;
    } else {
      assert |b| == |multiset(b)| == |multiset(a)| == |a|;
      StrictHead(a, b[0], key);
      StrictHead(b, a[0], key);
      StrictTail(a, key);
      StrictTail(b, key);
      StrictlySortedUnique(a[1..], b[1..], key);
      SplitFirst(a); SplitFirst(b);
    }
  }

  /** Two sequences strictly sorted by the same key with the same elements
      are equal. */
  lemma StrictlySortedSame<T>(a: seq<T>, b: seq<T>, key: T -> int)
    requires StrictlySortedBy(a, key) && StrictlySortedBy(b, key)
    requires forall x :: x in a <==> x in b
    ensures a == b
  {
    forall i, j | 0 <= i < j < |a| ensures a[i] != a[j] {
      assert key(a[i]) < key(a[j]);
    }
    forall i, j | 0 <= i < j < |b| ensures b[i] != b[j] {
      assert key(b[i]) < key(b[j]);
    }
    DistinctSameElements(a, b);
    StrictlySortedUnique(a, b, key);
  }

  /** The head of a strictly sorted sequence has the least key, and no other
      element has that key. */
  lemma StrictHead<T>(a: seq<T>, y: T, key: T -> int)
    requires StrictlySortedBy(a, key) && |a| > 0 && y in multiset(a)
    ensures key(a[0]) <= key(y)
    ensures key(y) == key(a[0]) ==> y == a[0]
  {
    var i :| 0 <= i < |a| && a[i] == y;
  }

  lemma StrictTail<T>(a: seq<T>, key: T -> int)
    requires StrictlySortedBy(a, key) && |a| > 0
    ensures StrictlySortedBy(a[1..], key)
    ensures multiset(a[1..]) == multiset(a) - multiset{a[0]}
  {
    SplitFirst(a);
    forall i, j | 0 <= i < j < |a| - 1 ensures key(a[1..][i]) < key(a[1..][j]) {
      assert a[1..][i] == a[i + 1] && a[1..][j] == a[j + 1];
    }
  }

  /** The sort of a sequence with distinct keys depends only on its elements. */
  lemma SortByPermutation<T>(a: seq<T>, b: seq<T>, key: T -> int)
    requires DistinctKeys(a, key) && multiset(a) == multiset(b)
    ensures SortBy(a, key) == SortBy(b, key)
  {
    var ra, rb := SortBy(a, key), SortBy(b, key);
    DistinctKeysPermutation(a, ra, key);
    DistinctKeysPermutation(a, rb, key);
    StrictlySortedUnique(ra, rb, key);
  }

  /** The first `n` elements (all of them when there are fewer): `s.slice(0, n)`. */
  function Take<T>(s: seq<T>, n: nat): (r: seq<T>)
    ensures |r| == if |s| < n then |s| else n
    ensures r <= s
  {
    if |s| <= n then s else s[..n]
  }

  /** Non-decreasing in string order. */
  predicate StrSorted(s: seq<string>) {
    forall i, j :: 0 <= i < j < |s| ==> !StrLt(s[j], s[i])
  }

  /** Strictly increasing in string order. */
  predicate StrStrictlySorted(s: seq<string>) {
    forall i, j :: 0 <= i < j < |s| ==> StrLt(s[i], s[j])
  }

  /** Puts `x` into the sorted `t` after every string that is not greater. */
  function InsertString(t: seq<string>, x: string): (r: seq<string>)
    ensures multiset(r) == multiset(t) + multiset{x}
    ensures |r| == |t| + 1
  {
    if |t| == 0 then [x]
    else if !StrLt(x, t[0]) then
      SplitFirst(t);
      [t[0]] + InsertString(t[1..], x)
    else
      [x] + t
  }

  /** `!StrLt(b, a)`, i.e. `a <= b` in string order, is transitive. */
  lemma StrLeTransitive(a: string, b: string, c: string)
    requires !StrLt(b, a) && !StrLt(c, b)
    ensures !StrLt(c, a)
  {
    if StrLt(c, a) {
      if a == b {
      } else if b == c {
      } else {
        StrLtTotal(a, b);
        StrLtTotal(b, c);
        StrLtTransitive(a, b, c);
        StrLtAsymmetric(a, c);
      }
    }
  }

  lemma {:induction false} InsertStringSorted(t: seq<string>, x: string)
    requires StrSorted(t)
    ensures StrSorted(InsertString(t, x))
    decreases |t|
  {
    if |t| > 0 {
      if !StrLt(x, t[0]) {
        var r' := InsertString(t[1..], x);
        InsertStringSorted(t[1..], x);
        forall j | 0 <= j < |r'| ensures !StrLt(r'[j], t[0]) {
          assert r'[j] in multiset(r');
          if r'[j] != x {
            assert r'[j] in multiset(t[1..]);
            var k :| 0 <= k < |t[1..]| && t[1..][k] == r'[j];
            assert t[k + 1] == r'[j];
          }
        }
        var r := [t[0]] + r';
        forall i, j | 0 <= i < j < |r| ensures !StrLt(r[j], r[i]) {
          assert r[j] == r'[j - 1];
          if i > 0 {
            assert r[i] == r'[i - 1];
          }
        }
      } else {
        var r := [x] + t;
        forall i, j | 0 <= i < j < |r| ensures !StrLt(r[j], r[i]) {
          assert r[j] == t[j - 1];
          if i > 0 {
            assert r[i] == t[i - 1];
          } else {
            StrLtAsymmetric(x, t[0]);
            if j > 1 {
              StrLeTransitive(x, t[0], t[j - 1]);
            }
          }
        }
      }
    }
  }

  /** `keys.sort()` on strings. */
  function SortStrings(s: seq<string>): (r: seq<string>)
    ensures multiset(r) == multiset(s)
    ensures |r| == |s|
    ensures StrSorted(r)
  {
    if |s| == 0 then []
    else
      SplitLast(s);
      InsertStringSorted(SortStrings(s[..|s| - 1]), s[|s| - 1]);
      InsertString(SortStrings(s[..|s| - 1]), s[|s| - 1])
  }

  /** Sorting distinct strings gives a strictly increasing sequence. */
  lemma SortStringsStrict(s: seq<string>)
    requires Distinct(s)
    ensures StrStrictlySorted(SortStrings(s))
    ensures Distinct(SortStrings(s))
  {
    var r := SortStrings(s);
    forall i, j | 0 <= i < j < |r| ensures StrLt(r[i], r[j]) {
      if r[i] == r[j] {
        MultisetTwice(r, i, j);
        assert r[i] in multiset(s);
        var k :| 0 <= k < |s| && s[k] == r[i];
        DistinctOnce(s, k);
      }
      StrLtTotal(r[i], r[j]);
    }
    forall i, j | 0 <= i < j < |r| ensures r[i] != r[j] {
      StrLtIrreflexive(r[i]);
    }
  }

  lemma {:induction false} DistinctOnce<T>(s: seq<T>, k: int)
    requires Distinct(s) && 0 <= k < |s|
    ensures multiset(s)[s[k]] == 1
  {
    DistinctMultiset(s, s[k]);
  }

  /** Strictly increasing string sequences with the same elements are equal. */
  lemma {:induction false} StrStrictlySortedUnique(a: seq<string>, b: seq<string>)
    requires StrStrictlySorted(a) && StrStrictlySorted(b)
    requires multiset(a) == multiset(b)
    ensures a == b
    decreases |a|
  {
    if |a| == 0 {
      assert |multiset(b)| == 0;
    } else {
      assert |b| == |multiset(b)| == |multiset(a)| == |a|;
      StrHead(a, b[0]);
      StrHead(b, a[0]);
      if a[0] != b[0] {
        StrLtAsymmetric(a[0], b[0]);
      }
      StrTail(a);
      StrTail(b);
      StrStrictlySortedUnique(a[1..], b[1..]);
      SplitFirst(a); SplitFirst(b);
    }
  }

  /** Two strictly sorted sequences with the same elements are equal. */
  lemma StrStrictlySortedSame(a: seq<string>, b: seq<string>)
    requires StrStrictlySorted(a) && StrStrictlySorted(b)
    requires Distinct(a) && Distinct(b)
    requires forall x :: x in a <==> x in b
    ensures a == b
  {
    DistinctSameElements(a, b);
    StrStrictlySortedUnique(a, b);
  }

  lemma StrHead(a: seq<string>, y: string)
    requires StrStrictlySorted(a) && |a| > 0 && y in multiset(a)
    ensures y != a[0] ==> StrLt(a[0], y)
  {
    var i :| 0 <= i < |a| && a[i] == y;
  }

  lemma StrTail(a: seq<string>)
    requires StrStrictlySorted(a) && |a| > 0
    ensures StrStrictlySorted(a[1..])
    ensures multiset(a[1..]) == multiset(a) - multiset{a[0]}
  {
    SplitFirst(a);
    forall i, j | 0 <= i < j < |a| - 1 ensures StrLt(a[1..][i], a[1..][j]) {
      assert a[1..][i] == a[i + 1] && a[1..][j] == a[j + 1];
    }
  }
}
