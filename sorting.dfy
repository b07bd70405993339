/**
  Python's `sorted`, which is stable: a generic insertion sort under an
  ordering `before` ("may come first"), with the facts the scripts need —
  the result is ordered, a permutation of the input, and keeps the input
  order among elements the ordering does not distinguish. Also the
  lexicographic order Python uses to compare `str` and `bytes` values.
*/
module Sorting {
  import opened PySeq

  ghost predicate Total<T(!new)>(before: (T, T) -> bool) {
    forall a, b :: before(a, b) || before(b, a)
  }

  ghost predicate Transitive<T(!new)>(before: (T, T) -> bool) {
    forall a, b, c :: before(a, b) && before(b, c) ==> before(a, c)
  }

  ghost predicate TotalPreorder<T(!new)>(before: (T, T) -> bool) {
    Total(before) && Transitive(before)
  }

  predicate SortedBy<T>(s: seq<T>, before: (T, T) -> bool) {
    forall i, j :: 0 <= i < j < |s| ==> before(s[i], s[j])
  }

  /** Elements the ordering puts on the same rank as `k`. */
  function SameRank<T>(before: (T, T) -> bool, k: T): T -> bool {
    y => before(y, k) && before(k, y)
  }

  /** Puts `x` in front of the first element it may come before. */
  function Insert<T>(x: T, s: seq<T>, before: (T, T) -> bool): (r: seq<T>)
    ensures |r| == |s| + 1
    ensures multiset(r) == multiset(s) + multiset{x}
    decreases |s|
  {
    if s == [] || before(x, s[0]) then [x] + s
    else
      assert s == [s[0]] + s[1..];
      [s[0]] + Insert(x, s[1..], before)
  }

  /** `sorted(s)` under `before`. */
  function Sort<T>(s: seq<T>, before: (T, T) -> bool): (r: seq<T>)
    ensures |r| == |s|
    ensures multiset(r) == multiset(s)
    decreases |s|
  {
    if s == [] then []
    else
      assert s == [s[0]] + s[1..];
      Insert(s[0], Sort(s[1..], before), before)
  }

  lemma {:induction false} InsertSorted<T(!new)>(x: T, s: seq<T>, before: (T, T) -> bool)
    requires TotalPreorder(before)
    requires SortedBy(s, before)
    ensures SortedBy(Insert(x, s, before), before)
    decreases |s|
  {
    if s != [] && !before(x, s[0]) {
      InsertSorted(x, s[1..], before);
      var t := Insert(x, s[1..], before);
      assert before(s[0], x);
      forall j | 0 <= j < |t| ensures before(s[0], t[j]) {
        assert t[j] in multiset(t);
        assert t[j] == x || t[j] in multiset(s[1..]);
        if t[j] != x {
          var i :| 0 <= i < |s[1..]| && s[1..][i] == t[j];
          assert s[i + 1] == t[j];
        }
      }
      assert Insert(x, s, before) == [s[0]] + t;
    }
  }

  /** `sorted` returns an ordered sequence. */
  lemma {:induction false} SortSorted<T(!new)>(s: seq<T>, before: (T, T) -> bool)
    requires TotalPreorder(before)
    ensures SortedBy(Sort(s, before), before)
    decreases |s|
  {
    if s != [] {
      SortSorted(s[1..], before);
      InsertSorted(s[0], Sort(s[1..], before), before);
    }
  }

  lemma {:induction false} InsertKeepsRank<T(!new)>(x: T, s: seq<T>, before: (T, T) -> bool, k: T)
    requires Transitive(before)
    ensures Filter(Insert(x, s, before), SameRank(before, k))
         == (if SameRank(before, k)(x) then [x] else []) + Filter(s, SameRank(before, k))
    decreases |s|
  {
    var p := SameRank(before, k);
    assert Filter([x], p) == (if p(x) then [x] else []);
    if s == [] || before(x, s[0]) {
      FilterConcat([x], s, p);
    } else {
      var t := Insert(x, s[1..], before);
      var fx, f0, ft := Filter([x], p), Filter([s[0]], p), Filter(s[1..], p);
      InsertKeepsRank(x, s[1..], before, k);
      FilterConcat([s[0]], t, p);
      FilterConcat([s[0]], s[1..], p);
      assert Insert(x, s, before) == [s[0]] + t;
      assert s == [s[0]] + s[1..];
      assert Filter(Insert(x, s, before), p) == f0 + (fx + ft);
      assert Filter(s, p) == f0 + ft;
      assert f0 == (if p(s[0]) then [s[0]] else []);
      assert !(p(x) && p(s[0]));
      SwapEmpty(fx, f0, ft);
    }
  }

  lemma SwapEmpty<T>(a: seq<T>, b: seq<T>, c: seq<T>)
    requires a == [] || b == []
    ensures a + (b + c) == b + (a + c)
  {
  }

  /**
    `sorted` is stable: the elements of one rank appear in the result in the
    order they had in the input.
  */
  lemma {:induction false} SortStable<T(!new)>(s: seq<T>, before: (T, T) -> bool, k: T)
    requires Transitive(before)
    ensures Filter(Sort(s, before), SameRank(before, k)) == Filter(s, SameRank(before, k))
    decreases |s|
  {
    if s != [] {
      SortStable(s[1..], before, k);
      InsertKeepsRank(s[0], Sort(s[1..], before), before, k);
      FilterConcat([s[0]], s[1..], SameRank(before, k));
      assert s == [s[0]] + s[1..];
    }
  }

  /** The two orderings decide every pair of elements of `m` alike. */
  ghost predicate AgreeOn<T(!new)>(a: (T, T) -> bool, b: (T, T) -> bool, m: multiset<T>) {
    forall x, y :: x in m && y in m ==> a(x, y) == b(x, y)
  }

  lemma {:induction false} InsertAgree<T(!new)>(x: T, s: seq<T>, a: (T, T) -> bool, b: (T, T) -> bool, m: multiset<T>)
    requires AgreeOn(a, b, m) && x in m && multiset(s) <= m
    ensures Insert(x, s, a) == Insert(x, s, b)
    decreases |s|
  {
    if s != [] {
      assert s[0] in multiset(s);
      assert s == [s[0]] + s[1..];
      assert multiset(s[1..]) <= multiset(s);
      InsertAgree(x, s[1..], a, b, m);
    }
  }

  /** Two orderings that agree on the elements of `s` sort it into the same sequence. */
  lemma {:induction false} SortAgree<T(!new)>(s: seq<T>, a: (T, T) -> bool, b: (T, T) -> bool, m: multiset<T>)
    requires AgreeOn(a, b, m) && multiset(s) <= m
    ensures Sort(s, a) == Sort(s, b)
    decreases |s|
  {
    if s != [] {
      assert s == [s[0]] + s[1..];
      assert s[0] in multiset(s);
      assert multiset(s[1..]) <= multiset(s);
      SortAgree(s[1..], a, b, m);
      InsertAgree(s[0], Sort(s[1..], a), a, b, m);
    }
  }

  /** Python's comparison of `str` (or `bytes`) values: `a <= b`. */
  predicate LexLe(a: string, b: string)
    decreases |a|
  {
    a == [] || (b != [] && (a[0] < b[0] || (a[0] == b[0] && LexLe(a[1..], b[1..]))))
  }

  lemma {:induction false} LexLeTotal(a: string, b: string)
    ensures LexLe(a, b) || LexLe(b, a)
    decreases |a|
  {
    if a != [] && b != [] && a[0] == b[0] { LexLeTotal(a[1..], b[1..]); }
  }

  lemma {:induction false} LexLeTransitive(a: string, b: string, c: string)
    requires LexLe(a, b) && LexLe(b, c)
    ensures LexLe(a, c)
    decreases |a|
  {
    if a != [] && a[0] == b[0] && b[0] == c[0] { LexLeTransitive(a[1..], b[1..], c[1..]); }
  }

  lemma {:induction false} LexLeAntisymmetric(a: string, b: string)
    requires LexLe(a, b) && LexLe(b, a)
    ensures a == b
    decreases |a|
  {
    if a != [] {
      LexLeAntisymmetric(a[1..], b[1..]);
      assert a == [a[0]] + a[1..] && b == [b[0]] + b[1..];
    }
  }

  /** Ascending order of strings, as `sorted(strings)` uses. */
  function Ascending(): (string, string) -> bool {
    (a, b) => LexLe(a, b)
  }

  /** Descending order of strings, as `sorted(strings, reverse=True)` uses. */
  function Descending(): (string, string) -> bool {
    (a, b) => LexLe(b, a)
  }

  lemma AscendingIsTotalPreorder()
    ensures TotalPreorder(Ascending())
  {
    forall a, b ensures LexLe(a, b) || LexLe(b, a) { LexLeTotal(a, b); }
    forall a, b, c | LexLe(a, b) && LexLe(b, c) ensures LexLe(a, c) { LexLeTransitive(a, b, c); }
  }

  lemma DescendingIsTotalPreorder()
    ensures TotalPreorder(Descending())
  {
    forall a, b ensures LexLe(a, b) || LexLe(b, a) { LexLeTotal(a, b); }
    forall a, b, c | LexLe(b, a) && LexLe(c, b) ensures LexLe(c, a) { LexLeTransitive(c, b, a); }
  }
}
