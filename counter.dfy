/**
  Python's `collections.Counter` over hashable keys: its items in insertion
  (first-seen) order, `c[k] += 1`, and `most_common`, which sorts the items
  by count, largest first, keeping insertion order among equal counts.
*/
module Counter {
  import opened Wrappers
  import opened PySeq
  import opened Sorting

  /** A counter's items, in the order their keys were first counted. */
  type Items<K> = seq<(K, nat)>

  /** The keys of a sequence of pairs, in order (a counter's keys, a grouping's names). */
  function Keys<K, V>(c: seq<(K, V)>): (r: seq<K>)
    ensures |r| == |c| && forall i :: 0 <= i < |c| ==> r[i] == c[i].0
  {
    seq(|c|, i requires 0 <= i < |c| => c[i].0)
  }

  predicate DistinctKeys<K(==)>(c: Items<K>) {
    forall i, j :: 0 <= i < j < |c| ==> c[i].0 != c[j].0
  }

  /** `c[k]`: the count of `k`, zero when it was never counted. */
  function Get<K(==)>(c: Items<K>, k: K): nat
    decreases |c|
  {
    if c == [] then 0 else if c[0].0 == k then c[0].1 else Get(c[1..], k)
  }

  /** Sum of all counts (`c.total()`). */
  function TotalCount<K>(c: Items<K>): nat
    decreases |c|
  {
    if c == [] then 0 else c[0].1 + TotalCount(c[1..])
  }

  /** `c[k] += 1`: an existing key keeps its place, a new key is appended with count 1. */
  function Bump<K(==)>(c: Items<K>, k: K): (r: Items<K>)
    ensures |r| == if k in Keys(c) then |c| else |c| + 1
    ensures k !in Keys(c) ==> r == c + [(k, 1)]
    ensures Keys(r) == if k in Keys(c) then Keys(c) else Keys(c) + [k]
    decreases |c|
  {
    if c == [] then [(k, 1)]
    else if c[0].0 == k then [(k, c[0].1 + 1)] + c[1..]
    else
      var r := [c[0]] + Bump(c[1..], k);
      assert Keys(c) == [c[0].0] + Keys(c[1..]);
      assert Keys(r) == [c[0].0] + Keys(Bump(c[1..], k));
      r
  }

  lemma {:induction false} BumpGet<K>(c: Items<K>, k: K, x: K)
    ensures Get(Bump(c, k), x) == Get(c, x) + (if x == k then 1 else 0)
    decreases |c|
  {
    if c != [] && c[0].0 != k { BumpGet(c[1..], k, x); }
  }

  lemma {:induction false} BumpTotal<K>(c: Items<K>, k: K)
    ensures TotalCount(Bump(c, k)) == TotalCount(c) + 1
    decreases |c|
  {
    if c != [] && c[0].0 != k { BumpTotal(c[1..], k); }
  }

  /** `Counter(s)`: each element of `s` counted in turn. */
  function Tally<K(==)>(s: seq<K>): Items<K>
    decreases |s|
  {
    if s == [] then [] else Bump(Tally(s[..|s| - 1]), s[|s| - 1])
  }

  /** The elements of `s` without repeats, in the order of their first occurrence. */
  function FirstSeen<K(==)>(s: seq<K>): (r: seq<K>)
    ensures forall i :: 0 <= i < |r| ==> r[i] in s
    ensures forall i :: 0 <= i < |s| ==> s[i] in r
    ensures forall i, j :: 0 <= i < j < |r| ==> r[i] != r[j]
    decreases |s|
  {
    if s == [] then []
    else
      var p := FirstSeen(s[..|s| - 1]);
      assert s == s[..|s| - 1] + [s[|s| - 1]];
      if s[|s| - 1] in p then p else p + [s[|s| - 1]]
  }

  /** Counting counts every element: `Counter(s)[x] == s.count(x)`. */
  lemma {:induction false} TallyGet<K>(s: seq<K>, x: K)
    ensures Get(Tally(s), x) == Occurrences(s, x)
    decreases |s|
  {
    if s != [] {
      var init, last := s[..|s| - 1], s[|s| - 1];
      TallyGet(init, x);
      BumpGet(Tally(init), last, x);
      OccurrencesLast(s, x);
    }
  }

  lemma OccurrencesLast<K>(s: seq<K>, x: K)
    requires s != []
    ensures Occurrences(s, x) == Occurrences(s[..|s| - 1], x) + (if s[|s| - 1] == x then 1 else 0)
  {
    var init, last := s[..|s| - 1], s[|s| - 1];
    assert s == init + [last];
    OccurrencesConcat(init, [last], x);
    assert [last][1..] == [];
  }

  /** The counts add up to the number of elements counted. */
  lemma {:induction false} TallyTotal<K>(s: seq<K>)
    ensures TotalCount(Tally(s)) == |s|
    decreases |s|
  {
    if s != [] {
      TallyTotal(s[..|s| - 1]);
      BumpTotal(Tally(s[..|s| - 1]), s[|s| - 1]);
    }
  }

  /** The counter's keys are the distinct elements, in first-occurrence order. */
  lemma {:induction false} TallyKeys<K>(s: seq<K>)
    ensures Keys(Tally(s)) == FirstSeen(s)
    decreases |s|
  {
    if s != [] { TallyKeys(s[..|s| - 1]); }
  }

  /** `most_common` orders items by count, larger counts first. */
  function ByCount<K>(): ((K, nat), (K, nat)) -> bool {
    (a: (K, nat), b: (K, nat)) => a.1 >= b.1
  }

  lemma ByCountIsTotalPreorder<K(!new)>()
    ensures TotalPreorder(ByCount<K>())
  {
  }

  /** `c.most_common(n)`, or `c.most_common()` when `n` is `None`. */
  function MostCommon<K(==)>(c: Items<K>, n: Option<int>): (r: Items<K>)
  {
    var sorted := Sort(c, ByCount());
    match n
    case None => sorted
    case Some(m) => if m <= 0 then [] else SliceTo(sorted, m)
  }

  function HasCount<K>(n: nat): ((K, nat)) -> bool {
    (p: (K, nat)) => p.1 == n
  }

  /**
    `most_common()` returns every item once, ordered by non-increasing count.
  */
  lemma MostCommonAll<K(!new)>(c: Items<K>)
    ensures multiset(MostCommon(c, None)) == multiset(c)
    ensures forall i, j :: 0 <= i < j < |c| ==> MostCommon(c, None)[i].1 >= MostCommon(c, None)[j].1
  {
    ByCountIsTotalPreorder<K>();
    SortSorted(c, ByCount());
  }

  /** In `most_common()`, the items with any one count keep their insertion order. */
  lemma MostCommonTies<K(!new)>(c: Items<K>, k: (K, nat))
    ensures Filter(MostCommon(c, None), HasCount(k.1)) == Filter(c, HasCount(k.1))
  {
    ByCountIsTotalPreorder<K>();
    SortStable(c, ByCount(), k);
    FilterSamePredicate(Sort(c, ByCount()), SameRank(ByCount(), k), HasCount(k.1));
    FilterSamePredicate(c, SameRank(ByCount(), k), HasCount(k.1));
  }

  /** `most_common(n)` for `n > 0` is the first `n` items of `most_common()`; for `n <= 0` it is empty. */
  lemma MostCommonTop<K>(c: Items<K>, n: int)
    ensures n <= 0 ==> MostCommon(c, Some(n)) == []
    ensures n > 0 ==> MostCommon(c, Some(n)) == MostCommon(c, None)[..if n < |c| then n else |c|]
  {
  }
  /** Inserting an item adds its count to the total. */
  lemma {:induction false} InsertTotal<K>(x: (K, nat), s: Items<K>, before: ((K, nat), (K, nat)) -> bool)
    ensures TotalCount(Insert(x, s, before)) == x.1 + TotalCount(s)
    decreases |s|
  {
    if s != [] && !before(x, s[0]) {
      InsertTotal(x, s[1..], before);
      assert Insert(x, s, before)[1..] == Insert(x, s[1..], before);
    } else {
      assert Insert(x, s, before)[1..] == s;
    }
  }

  /** Sorting the items keeps the total. */
  lemma {:induction false} SortTotal<K>(c: Items<K>, before: ((K, nat), (K, nat)) -> bool)
    ensures TotalCount(Sort(c, before)) == TotalCount(c)
    decreases |c|
  {
    if c != [] {
      SortTotal(c[1..], before);
      InsertTotal(c[0], Sort(c[1..], before), before);
    }
  }

  /** With distinct keys, looking up an item's key gives that item's count. */
  lemma {:induction false} GetAt<K>(c: Items<K>, i: nat)
    requires DistinctKeys(c) && i < |c|
    ensures Get(c, c[i].0) == c[i].1
    decreases |c|
  {
    if i > 0 {
      assert c[0].0 != c[i].0;
      assert c[1..][i - 1] == c[i];
      GetAt(c[1..], i - 1);
    }
  }

  /** Every item of `Counter(s)` holds the number of times its key occurs in `s`. */
  lemma TallyCounts<K>(s: seq<K>, i: nat)
    requires i < |Tally(s)|
    ensures Tally(s)[i].1 == Occurrences(s, Tally(s)[i].0)
  {
    TallyKeys(s);
    assert DistinctKeys(Tally(s)) by {
      forall a, b | 0 <= a < b < |Tally(s)| ensures Tally(s)[a].0 != Tally(s)[b].0 {
        assert Keys(Tally(s))[a] == Tally(s)[a].0 && Keys(Tally(s))[b] == Tally(s)[b].0;
      }
    }
    GetAt(Tally(s), i);
    TallyGet(s, Tally(s)[i].0);
  }

  /** The counts of `Counter(s).most_common()` add up to `|s|`. */
  lemma MostCommonTallyTotal<K>(s: seq<K>)
    ensures TotalCount(MostCommon(Tally(s), None)) == |s|
  {
    SortTotal(Tally(s), ByCount());
    TallyTotal(s);
  }

  /** Each item of `Counter(s).most_common()` holds the number of occurrences of its key. */
  lemma MostCommonTallyCount<K>(s: seq<K>, i: nat)
    requires i < |MostCommon(Tally(s), None)|
    ensures MostCommon(Tally(s), None)[i].1 == Occurrences(s, MostCommon(Tally(s), None)[i].0)
  {
    var c := Tally(s);
    var r := MostCommon(c, None);
    assert multiset(r) == multiset(c);
    assert r[i] in multiset(c);
    var j :| 0 <= j < |c| && c[j] == r[i];
    TallyCounts(s, j);
  }

  /** An item of a permutation of `r` sits at some index of `r`. */
  lemma IndexOfItem<K>(x: (K, nat), r: Items<K>) returns (m: nat)
    requires x in multiset(r)
    ensures m < |r| && r[m] == x
  {
    assert x in r;
    m :| 0 <= m < |r| && r[m] == x;
  }

  /** Every element of `s` is the key of an item of `Counter(s).most_common()`. */
  lemma MostCommonTallyCovers<K>(s: seq<K>, k: nat)
    requires k < |s|
    ensures s[k] in Keys(MostCommon(Tally(s), None))
  {
    var c := Tally(s);
    var r := MostCommon(c, None);
    TallyKeys(s);
    assert s[k] in FirstSeen(s);
    var j :| 0 <= j < |c| && Keys(c)[j] == s[k];
    assert multiset(r) == multiset(c);
    var m := IndexOfItem(c[j], r);
    assert Keys(r)[m] == s[k];
  }

  /**
    `Counter(s).most_common()` counts every element once: each item holds
    the number of occurrences of its key, every element has an item, the
    counts add up to `|s|`, and the items come by non-increasing count.
  */
  lemma MostCommonOfTally<K(!new)>(s: seq<K>)
    ensures TotalCount(MostCommon(Tally(s), None)) == |s|
    ensures forall i :: 0 <= i < |MostCommon(Tally(s), None)| ==>
              MostCommon(Tally(s), None)[i].1 == Occurrences(s, MostCommon(Tally(s), None)[i].0)
    ensures forall k :: 0 <= k < |s| ==> s[k] in Keys(MostCommon(Tally(s), None))
    ensures forall i, j :: 0 <= i < j < |MostCommon(Tally(s), None)| ==>
              MostCommon(Tally(s), None)[i].1 >= MostCommon(Tally(s), None)[j].1
  {
    MostCommonTallyTotal(s);
    forall i | 0 <= i < |MostCommon(Tally(s), None)|
      ensures MostCommon(Tally(s), None)[i].1 == Occurrences(s, MostCommon(Tally(s), None)[i].0)
    {
      MostCommonTallyCount(s, i);
    }
    forall k | 0 <= k < |s| ensures s[k] in Keys(MostCommon(Tally(s), None)) {
      MostCommonTallyCovers(s, k);
    }
    MostCommonAll(Tally(s));
  }
}
