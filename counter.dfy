/** Count maps. The analyzer counts with `m[k] = (m[k] || 0) + 1` on plain
    objects and with `m.set(k, (m.get(k) || 0) + 1)` on a `Map`. Both keep one
    entry per key in insertion order; a count map is modelled as the list of
    its `[key, count]` entries in that order. */
module Counter {
  import opened Seqs
  import opened Text
  import opened Ordering

  /** One `[key, count]` pair of a count map. */
  datatype Entry = Entry(key: string, count: nat)

  function KeysOf(c: seq<Entry>): (ks: seq<string>)
    ensures |ks| == |c|
    ensures forall i :: 0 <= i < |c| ==> ks[i] == c[i].key
  {
    seq(|c|, i requires 0 <= i < |c| => c[i].key)
  }

  /** The position of the entry for `k`, or -1 when there is none. */
  function FindKey(c: seq<Entry>, k: string): (j: int)
    ensures -1 <= j < |c|
    ensures 0 <= j ==> c[j].key == k
    ensures forall i :: 0 <= i < |c| && (j < 0 || i < j) ==> c[i].key != k
  {
    if |c| == 0 then -1
    else if c[0].key == k then 0
    else
      var j := FindKey(c[1..], k);
      assert forall i :: 0 < i < |c| ==> c[i] == c[1..][i - 1];
      if j < 0 then -1 else j + 1
  }

  /** `m[k] = (m[k] || 0) + 1`: the count of `k` goes up by one in place; an
      absent key is appended with count 1; every other entry stays where it
      was. */
  function Bump(c: seq<Entry>, k: string): (r: seq<Entry>)
    ensures k in KeysOf(c) ==> |r| == |c|
    ensures k !in KeysOf(c) ==> r == c + [Entry(k, 1)]
    ensures forall i :: 0 <= i < |c| && c[i].key != k ==> r[i] == c[i]
    ensures Distinct(KeysOf(c)) ==>
      forall i :: 0 <= i < |c| && c[i].key == k ==> r[i] == Entry(k, c[i].count + 1)
  {
    var j := FindKey(c, k);
    if j < 0 then
      assert k !in KeysOf(c);
      c + [Entry(k, 1)]
    else
      assert KeysOf(c)[j] == k;
      assert Distinct(KeysOf(c)) ==> forall i :: 0 <= i < |c| && KeysOf(c)[i] == k ==> i == j;
      c[j := Entry(k, c[j].count + 1)]
  }

  /** The count map after counting each of `ks` in turn, starting empty. */
  function Tally(ks: seq<string>): seq<Entry> {
    if |ks| == 0 then [] else Bump(Tally(ks[..|ks| - 1]), ks[|ks| - 1])
  }

  /** Counting one more key is one `Bump`. */
  lemma TallySnoc(ks: seq<string>, k: string)
    ensures Tally(ks + [k]) == Bump(Tally(ks), k)
  {
    assert (ks + [k])[..|ks|] == ks;
  }

  /** The count map `c` after counting each of `ks` in turn. */
  function BumpAll(c: seq<Entry>, ks: seq<string>): seq<Entry> {
    if |ks| == 0 then c else Bump(BumpAll(c, ks[..|ks| - 1]), ks[|ks| - 1])
  }

  /** Counting `a` and then `b` is counting `a + b`. */
  lemma {:induction false} TallyAppend(a: seq<string>, b: seq<string>)
    ensures Tally(a + b) == BumpAll(Tally(a), b)
    decreases |b|
  {
    if |b| == 0 {
      assert a + b == a;
    } else {
      var b', x := b[..|b| - 1], b[|b| - 1];
      SplitLast(b);
      TallyAppend(a, b');
      TallyAppendStep(a, b', x);
    }
  }

  lemma TallyAppendStep(a: seq<string>, b: seq<string>, x: string)
    requires Tally(a + b) == BumpAll(Tally(a), b)
    ensures Tally(a + (b + [x])) == BumpAll(Tally(a), b + [x])
  {
    AppendSnoc(a, b, x);
    TallySnoc(a + b, x);
    assert (b + [x])[..|b|] == b;
  }

  /** Three different keys are counted once each, in order. */
  lemma TallyThree(a: string, b: string, c: string)
    requires a != b && a != c && b != c
    ensures Tally([a, b, c]) == [Entry(a, 1), Entry(b, 1), Entry(c, 1)]
  {
    TallyTwo(a, b);
    TallySnoc([a, b], c);
    assert [a, b] + [c] == [a, b, c];
    assert KeysOf([Entry(a, 1), Entry(b, 1)]) == [a, b];
  }

  lemma TallyTwo(a: string, b: string)
    requires a != b
    ensures Tally([a, b]) == [Entry(a, 1), Entry(b, 1)]
  {
    TallySnoc([a], b);
    assert [a] + [b] == [a, b];
    assert Tally([a]) == [Entry(a, 1)];
    assert KeysOf([Entry(a, 1)]) == [a];
  }

  /** `c` is the count map of `ks`: one entry per distinct element of `ks` in
      order of first occurrence, each with its number of occurrences. */
  predicate Counts(c: seq<Entry>, ks: seq<string>) {
    && KeysOf(c) == Dedup(ks)
    && forall i :: 0 <= i < |c| ==> c[i].count == multiset(ks)[c[i].key]
  }

  /** Counting one more key keeps a count map exact. */
  lemma BumpCounts(c: seq<Entry>, ks: seq<string>, k: string)
    requires Counts(c, ks)
    ensures Counts(Bump(c, k), ks + [k])
  {
    DedupSnoc(ks, k);
    assert k in KeysOf(c) <==> k in ks;
    if k in ks {
      BumpPresent(c, ks, k);
    } else {
      BumpAbsent(c, ks, k);
    }
  }

  lemma BumpPresent(c: seq<Entry>, ks: seq<string>, k: string)
    requires Counts(c, ks) && k in KeysOf(c) && k in ks
    ensures KeysOf(Bump(c, k)) == KeysOf(c)
    ensures forall i :: 0 <= i < |c| ==> Bump(c, k)[i].count == multiset(ks + [k])[Bump(c, k)[i].key]
  {
    var r := Bump(c, k);
    assert KeysOf(r) == KeysOf(c);
  }

  lemma BumpAbsent(c: seq<Entry>, ks: seq<string>, k: string)
    requires Counts(c, ks) && k !in KeysOf(c) && k !in ks
    ensures KeysOf(Bump(c, k)) == KeysOf(c) + [k]
    ensures forall i :: 0 <= i < |c| + 1 ==> Bump(c, k)[i].count == multiset(ks + [k])[Bump(c, k)[i].key]
  {
    var r := Bump(c, k);
    assert KeysOf(r) == KeysOf(c) + [k];
    assert multiset(ks)[k] == 0;
  }

  /** The tally of `ks` is the count map of `ks`. */
  lemma {:induction false} TallyCounts(ks: seq<string>)
    ensures Counts(Tally(ks), ks)
  {
    if |ks| > 0 {
      TallyCounts(ks[..|ks| - 1]);
      TallyCountsStep(ks);
    }
  }

  lemma TallyCountsStep(ks: seq<string>)
    requires |ks| > 0 && Counts(Tally(ks[..|ks| - 1]), ks[..|ks| - 1])
    ensures Counts(Tally(ks), ks)
  {
    var p, x := ks[..|ks| - 1], ks[|ks| - 1];
    var c := Tally(ks);
    assert c == Bump(Tally(p), x);
    BumpCounts(Tally(p), p, x);
    SplitLast(ks);
  }

  /** Every count in a tally is at least one. */
  lemma TallyPositive(ks: seq<string>)
    ensures forall i :: 0 <= i < |Tally(ks)| ==> Tally(ks)[i].count >= 1
  {
    var c := Tally(ks);
    TallyCounts(ks);
    forall i | 0 <= i < |c| ensures c[i].count >= 1 {
      assert KeysOf(c)[i] == c[i].key;
      assert c[i].key in ks;
    }
  }

  /** An entry of the count map of `ks` counts the occurrences of its key. */
  lemma CountsEntry(c: seq<Entry>, ks: seq<string>, e: Entry)
    requires Counts(c, ks) && e in c
    ensures e.count == multiset(ks)[e.key]
  {
  }

  /** A tally has at most as many entries as there are possible keys. */
  lemma TallyWithin(ks: seq<string>, bound: set<string>)
    requires forall i :: 0 <= i < |ks| ==> ks[i] in bound
    ensures |Tally(ks)| <= |bound|
  {
    TallyCounts(ks);
    var d := Dedup(ks);
    forall i | 0 <= i < |d| ensures d[i] in bound {
      var j :| 0 <= j < |ks| && ks[j] == d[i];
    }
    DistinctWithin(d, bound);
  }

  /** `m.get(k) || 0`: the count of `k`, 0 for an absent key. */
  function Lookup(c: seq<Entry>, k: string): nat {
    if |c| == 0 then 0 else if c[0].key == k then c[0].count else Lookup(c[1..], k)
  }

  /** Looking a key up in a tally gives its number of occurrences. */
  lemma LookupTally(ks: seq<string>, k: string)
    ensures Lookup(Tally(ks), k) == multiset(ks)[k]
  {
    TallyCounts(ks);
    LookupCounts(Tally(ks), ks, k);
  }

  lemma {:induction false} LookupCounts(c: seq<Entry>, ks: seq<string>, k: string)
    requires Distinct(KeysOf(c))
    requires forall x :: x in ks ==> x in KeysOf(c)
    requires forall i :: 0 <= i < |c| ==> c[i].count == multiset(ks)[c[i].key]
    ensures Lookup(c, k) == multiset(ks)[k]
  {
    if |c| == 0 {
      assert k !in ks;
    } else if c[0].key != k {
      var t := c[1..];
      assert KeysOf(c) == [c[0].key] + KeysOf(t);
      if k in ks {
        assert k in KeysOf(t);
        var j :| 0 <= j < |t| && t[j].key == k;
        assert Lookup(t, k) == t[j].count by {
          LookupAt(t, j);
        }
      } else {
        LookupAbsent(t, k);
      }
    }
  }

  lemma {:induction false} LookupAt(c: seq<Entry>, j: int)
    requires Distinct(KeysOf(c)) && 0 <= j < |c|
    ensures Lookup(c, c[j].key) == c[j].count
  {
    if j > 0 {
      assert KeysOf(c) == [c[0].key] + KeysOf(c[1..]);
      assert c[0].key != c[j].key;
      LookupAt(c[1..], j - 1);
    }
  }

  lemma {:induction false} LookupAbsent(c: seq<Entry>, k: string)
    requires forall i :: 0 <= i < |c| ==> c[i].count == 0 || c[i].key != k
    ensures Lookup(c, k) == 0
  {
    if |c| > 0 {
      LookupAbsent(c[1..], k);
    }
  }

  /** The sum of all counts. */
  function Total(c: seq<Entry>): nat {
    if |c| == 0 then 0 else c[0].count + Total(c[1..])
  }

  /** The counts of a tally add up to the number of keys counted. */
  lemma TallyTotal(ks: seq<string>)
    ensures Total(Tally(ks)) == |ks|
  {
    var c := Tally(ks);
    TallyCounts(ks);
    TotalOccurrences(c, ks);
    forall x | x in ks ensures x in KeysOf(c) {
      var j :| 0 <= j < |ks| && ks[j] == x;
      assert ks[j] in Dedup(ks);
    }
    SumOccurrencesTotal(KeysOf(c), ks);
  }

  lemma {:induction false} TotalOccurrences(c: seq<Entry>, ks: seq<string>)
    requires forall i :: 0 <= i < |c| ==> c[i].count == multiset(ks)[c[i].key]
    ensures Total(c) == SumOccurrences(KeysOf(c), ks)
  {
    if |c| > 0 {
      TotalOccurrences(c[1..], ks);
      assert KeysOf(c)[1..] == KeysOf(c[1..]);
    }
  }

  /** The key `(a, b) => b.count - a.count` sorts by: larger counts first. */
  function Rank(e: Entry): int {
    -(e.count as int)
  }

  /** `.sort((a, b) => b.count - a.count).slice(0, 10)` */
  function TopTen(c: seq<Entry>): seq<Entry> {
    Take(SortBy(c, Rank), 10)
  }

  /** At most ten entries: all of them when the map has fewer. */
  lemma TopTenLength(c: seq<Entry>)
    ensures |TopTen(c)| == if |c| < 10 then |c| else 10
  {
  }

  /** The kept entries run from the largest count down. */
  lemma TopTenDescending(c: seq<Entry>)
    ensures forall i, j :: 0 <= i < j < |TopTen(c)| ==> TopTen(c)[i].count >= TopTen(c)[j].count
  {
    var s := SortBy(c, Rank);
    var r := TopTen(c);
    forall i, j | 0 <= i < j < |r| ensures r[i].count >= r[j].count {
      assert r[i] == s[i] && r[j] == s[j];
      assert Rank(s[i]) <= Rank(s[j]);
    }
  }

  /** Every kept entry is an entry of the map. */
  lemma TopTenKept(c: seq<Entry>)
    ensures forall i :: 0 <= i < |TopTen(c)| ==> TopTen(c)[i] in c
  {
    var s := SortBy(c, Rank);
    var r := TopTen(c);
    forall i | 0 <= i < |r| ensures r[i] in c {
      assert r[i] == s[i];
      assert r[i] in multiset(s);
    }
  }

  /** An entry left out counts no more than the last one kept, and then ten
      entries are kept. */
  lemma TopTenSelects(c: seq<Entry>)
    ensures forall e :: e in c && e !in TopTen(c) ==> |TopTen(c)| == 10 && e.count <= TopTen(c)[9].count
  {
    var s := SortBy(c, Rank);
    var r := TopTen(c);
    forall e | e in c && e !in r ensures |r| == 10 && e.count <= r[9].count {
      assert e in multiset(s);
      var j :| 0 <= j < |s| && s[j] == e;
      if j < |r| {
        assert false;
      }
      assert r[9] == s[9];
      assert Rank(s[9]) <= Rank(s[j]);
    }
  }

  /** Among entries with the same count, the ranking keeps the map's order and
      keeps the earlier ones. */
  lemma TopTenTies(c: seq<Entry>, k: int)
    ensures WithKey(TopTen(c), Rank, k) <= WithKey(c, Rank, k)
  {
    WithKeyPrefix(TopTen(c), SortBy(c, Rank), Rank, k);
    SortByStable(c, Rank, k);
  }

  /** A key of a plain object that JavaScript treats as an array index: the
      canonical decimal form of an integer below 2^32 - 1. */
  predicate IsArrayIndex(k: string) {
    && |k| >= 1
    && (forall i :: 0 <= i < |k| ==> '0' <= k[i] <= '9')
    && (k[0] != '0' || |k| == 1)
    && DecValue(k) < 4294967295
  }

  /** The number a string of decimal digits denotes. */
  function DecValue(k: string): int {
    if |k| == 0 then 0 else DecValue(k[..|k| - 1]) * 10 + (k[|k| - 1] as int - '0' as int)
  }

  /** Reading back a decimal rendering gives the number. */
  lemma {:induction false} DecValueNatToDec(n: nat)
    ensures DecValue(NatToDec(n)) == n
    ensures NatToDec(n)[0] != '0' || n == 0
    decreases n
  {
    if n >= 10 {
      DecValueNatToDec(n / 10);
      var s := NatToDec(n);
      assert s[..|s| - 1] == NatToDec(n / 10);
    }
  }

  /** The decimal form of a small number is an array index: the hour keys
      "0".."23" are enumerated in numeric order. */
  lemma NatToDecIsArrayIndex(n: nat)
    requires n < 4294967295
    ensures IsArrayIndex(NatToDec(n))
  {
    DecValueNatToDec(n);
  }

  predicate IsIndexEntry(e: Entry) {
    IsArrayIndex(e.key)
  }

  predicate IsNamedEntry(e: Entry) {
    !IsArrayIndex(e.key)
  }

  function IndexValue(e: Entry): int {
    DecValue(e.key)
  }

  /** `Object.entries(m)` of a plain object used as a count map: the entries
      with array-index keys first, in ascending numeric order, then the others
      in insertion order. Every entry is listed once. */
  function ObjectEntries(c: seq<Entry>): (r: seq<Entry>)
    ensures multiset(r) == multiset(c)
    ensures |r| == |c|
  {
    FilterPartition(c, IsIndexEntry, IsNamedEntry);
    SortBy(Filter(c, IsIndexEntry), IndexValue) + Filter(c, IsNamedEntry)
  }

  /** With no array-index key, enumeration follows insertion order. */
  lemma ObjectEntriesNamed(c: seq<Entry>)
    requires forall i :: 0 <= i < |c| ==> !IsArrayIndex(c[i].key)
    ensures ObjectEntries(c) == c
  {
    FilterKeepsNone(c, IsIndexEntry);
    FilterKeepsAll(c, IsNamedEntry);
  }

  /** The array-index entries come first, in ascending numeric order, and
      the other entries follow in the order of the map. */
  lemma ObjectEntriesOrder(c: seq<Entry>)
    ensures var r := ObjectEntries(c); var n := |Filter(c, IsIndexEntry)|;
      && (forall i :: 0 <= i < n ==> IsArrayIndex(r[i].key))
      && (forall i, j :: 0 <= i < j < n ==> DecValue(r[i].key) <= DecValue(r[j].key))
      && r[n..] == Filter(c, IsNamedEntry)
  {
    var idx := Filter(c, IsIndexEntry);
    var s := SortBy(idx, IndexValue);
    var r := ObjectEntries(c);
    forall i | 0 <= i < |idx| ensures IsArrayIndex(r[i].key) {
      assert r[i] == s[i] && s[i] in multiset(idx);
    }
  }

  /** A tally of keys none of which is an array index has no array-index
      key either. */
  lemma TallyNamed(ks: seq<string>)
    requires forall i :: 0 <= i < |ks| ==> !IsArrayIndex(ks[i])
    ensures forall i :: 0 <= i < |Tally(ks)| ==> !IsArrayIndex(Tally(ks)[i].key)
  {
    var c := Tally(ks);
    TallyCounts(ks);
    forall i | 0 <= i < |c| ensures !IsArrayIndex(c[i].key) {
      assert KeysOf(c)[i] == c[i].key;
      assert c[i].key in ks;
    }
  }

  /** A numeric key goes ahead of a key counted before it: `Object.entries`
      lists `123` before `anna@firma.se` although `anna@firma.se` came first. */
  lemma NumericKeyFirst()
    ensures ObjectEntries([Entry("anna@firma.se", 1), Entry("123", 1)]) == [Entry("123", 1), Entry("anna@firma.se", 1)]
  {
    var a, n := Entry("anna@firma.se", 1), Entry("123", 1);
    NumericKey();
    assert !IsArrayIndex(a.key) by { assert !('0' <= a.key[0] <= '9'); }
    FilterPair(a, n, IsIndexEntry);
    FilterPair(a, n, IsNamedEntry);
    SortOne(n, IndexValue);
  }

  lemma NumericKey()
    ensures IsArrayIndex("123")
  {
    assert "123"[..2] == "12" && "12"[..1] == "1" && "1"[..0] == "";
    assert DecValue("123") == 123;
  }

  lemma FilterPair<T>(a: T, b: T, p: T -> bool)
    ensures Filter([a, b], p) == (if p(a) then [a] else []) + (if p(b) then [b] else [])
  {
    assert [a][..0] == [];
    assert Filter([a], p) == (if p(a) then [a] else []);
    assert [a, b][..1] == [a];
  }

  lemma SortOne<T>(x: T, key: T -> int)
    ensures SortBy([x], key) == [x]
  {
    assert [x][..0] == [];
  }
}
