/** Order statistics of an unsorted sequence, and the median built on them.
    Every median in the system (library sort, exchange sort, bubble sort) is
    compared with this one, sort-free definition. */
module OrderStatistics {

  /** Number of elements of xs satisfying p. */
  function Count<T(!new)>(xs: seq<T>, p: T -> bool): (n: nat)
    ensures n <= |xs|
  {
    if xs == [] then 0 else (if p(xs[0]) then 1 else 0) + Count(xs[1..], p)
  }

  lemma {:induction false} CountConcat<T(!new)>(xs: seq<T>, ys: seq<T>, p: T -> bool)
    ensures Count(xs + ys, p) == Count(xs, p) + Count(ys, p)
  {
    if xs == [] {
      assert xs + ys == ys;
    } else {
      assert (xs + ys)[1..] == xs[1..] + ys;
      CountConcat(xs[1..], ys, p);
    }
  }

  lemma {:induction false} CountAll<T(!new)>(xs: seq<T>, p: T -> bool)
    requires forall i :: 0 <= i < |xs| ==> p(xs[i])
    ensures Count(xs, p) == |xs|
  {
    if xs != [] { CountAll(xs[1..], p); }
  }

  lemma {:induction false} CountNone<T(!new)>(xs: seq<T>, p: T -> bool)
    requires forall i :: 0 <= i < |xs| ==> !p(xs[i])
    ensures Count(xs, p) == 0
  {
    if xs != [] { CountNone(xs[1..], p); }
  }

  lemma {:induction false} CountImplies<T(!new)>(xs: seq<T>, p: T -> bool, q: T -> bool)
    requires forall x :: p(x) ==> q(x)
    ensures Count(xs, p) <= Count(xs, q)
  {
    if xs != [] { CountImplies(xs[1..], p, q); }
  }

  lemma {:induction false} CountDisjoint<T(!new)>(xs: seq<T>, p: T -> bool, q: T -> bool)
    requires forall x :: !(p(x) && q(x))
    ensures Count(xs, p) + Count(xs, q) <= |xs|
  {
    if xs != [] { CountDisjoint(xs[1..], p, q); }
  }

  lemma {:induction false} CountWithout<T(!new)>(xs: seq<T>, j: nat, p: T -> bool)
    requires j < |xs|
    ensures Count(xs, p) == (if p(xs[j]) then 1 else 0) + Count(xs[..j] + xs[j + 1..], p)
  {
    assert xs == xs[..j] + xs[j..] && xs[j..][1..] == xs[j + 1..];
    CountConcat(xs[..j], xs[j..], p);
    CountConcat(xs[..j], xs[j + 1..], p);
  }

  lemma MultisetWithout<T>(xs: seq<T>, j: nat)
    requires j < |xs|
    ensures multiset(xs[..j] + xs[j + 1..]) == multiset(xs) - multiset{xs[j]}
  {
    assert xs == xs[..j] + [xs[j]] + xs[j + 1..];
  }

  lemma MultisetTail<T>(xs: seq<T>)
    requires xs != []
    ensures multiset(xs[1..]) == multiset(xs) - multiset{xs[0]}
  {
    assert xs == [xs[0]] + xs[1..];
  }

  /** The position in ys of the first element of xs; removing both keeps the multisets equal. */
  lemma MatchFirst<T>(xs: seq<T>, ys: seq<T>) returns (j: nat)
    requires multiset(xs) == multiset(ys) && xs != []
    ensures j < |ys| && ys[j] == xs[0]
    ensures multiset(xs[1..]) == multiset(ys[..j] + ys[j + 1..])
  {
    assert xs[0] in multiset(xs);
    j :| 0 <= j < |ys| && ys[j] == xs[0];
    MultisetTail(xs);
    MultisetWithout(ys, j);
  }

  /** Counting depends only on the multiset of elements. */
  lemma {:induction false} CountPermutation<T(!new)>(xs: seq<T>, ys: seq<T>, p: T -> bool)
    requires multiset(xs) == multiset(ys)
    ensures Count(xs, p) == Count(ys, p)
    decreases |xs|
  {
    if xs == [] {
      assert |multiset(ys)| == 0;
    } else {
      var j := MatchFirst(xs, ys);
      CountPermutation(xs[1..], ys[..j] + ys[j + 1..], p);
      CountWithout(ys, j, p);
    }
  }

  ghost predicate TotalOrder<T(!new)>(le: (T, T) -> bool) {
    && (forall x, y :: le(x, y) || le(y, x))
    && (forall x, y :: le(x, y) && le(y, x) ==> x == y)
    && (forall x, y, z :: le(x, y) && le(y, z) ==> le(x, z))
  }

  ghost predicate Sorted<T(!new)>(le: (T, T) -> bool, xs: seq<T>) {
    forall i, j :: 0 <= i <= j < |xs| ==> le(xs[i], xs[j])
  }

  function Below<T(!new)>(le: (T, T) -> bool, v: T): T -> bool {
    x => !le(v, x)
  }

  function AtMost<T(!new)>(le: (T, T) -> bool, v: T): T -> bool {
    x => le(x, v)
  }

  function Within<T(!new)>(le: (T, T) -> bool, a: T, b: T): T -> bool {
    x => le(a, x) && le(x, b)
  }

  /** v is the element of rank k (counting from 0) in xs. */
  ghost predicate IsKth<T(!new)>(le: (T, T) -> bool, xs: seq<T>, k: int, v: T) {
    v in xs && Count(xs, Below(le, v)) <= k < Count(xs, AtMost(le, v))
  }

  /** Position k of any sorted arrangement holds the element of rank k. */
  lemma {:induction false} SortedHoldsKth<T(!new)>(le: (T, T) -> bool, xs: seq<T>, ys: seq<T>, k: int)
    requires Sorted(le, ys) && multiset(xs) == multiset(ys) && 0 <= k < |ys|
    ensures IsKth(le, xs, k, ys[k])
  {
    var v := ys[k];
    assert ys == ys[..k] + ys[k..] && ys == ys[..k + 1] + ys[k + 1..];
    CountConcat(ys[..k], ys[k..], Below(le, v));
    CountNone(ys[k..], Below(le, v));
    CountConcat(ys[..k + 1], ys[k + 1..], AtMost(le, v));
    CountAll(ys[..k + 1], AtMost(le, v));
    CountPermutation(xs, ys, Below(le, v));
    CountPermutation(xs, ys, AtMost(le, v));
    assert v in multiset(ys);
  }

  lemma {:induction false} KthUnique<T(!new)>(le: (T, T) -> bool, xs: seq<T>, k: int, v: T, w: T)
    requires TotalOrder(le) && IsKth(le, xs, k, v) && IsKth(le, xs, k, w)
    ensures v == w
  {
    if v != w {
      if le(v, w) {
        CountImplies(xs, AtMost(le, v), Below(le, w));
      } else {
        CountImplies(xs, AtMost(le, w), Below(le, v));
      }
    }
  }

  lemma KthPermutation<T(!new)>(le: (T, T) -> bool, xs: seq<T>, ys: seq<T>, k: int, v: T)
    requires multiset(xs) == multiset(ys) && IsKth(le, xs, k, v)
    ensures IsKth(le, ys, k, v)
  {
    CountPermutation(xs, ys, Below(le, v));
    CountPermutation(xs, ys, AtMost(le, v));
    assert v in multiset(xs);
  }

  /** If a strict majority lies in [a, b], so does every middle element. */
  lemma {:induction false} MajorityBoundsMiddle<T(!new)>(le: (T, T) -> bool, xs: seq<T>, a: T, b: T, k: int, v: T)
    requires TotalOrder(le) && IsKth(le, xs, k, v)
    requires 2 * Count(xs, Within(le, a, b)) > |xs|
    requires |xs| - 1 <= 2 * k + 1 && 2 * k <= |xs|
    ensures le(a, v) && le(v, b)
  {
    if !le(a, v) {
      CountDisjoint(xs, AtMost(le, v), Within(le, a, b));
    } else if !le(v, b) {
      CountImplies(xs, Within(le, a, b), Below(le, v));
    }
  }

  /** Elements of rank k + 1 are not below elements of rank k. */
  lemma {:induction false} KthMonotone<T(!new)>(le: (T, T) -> bool, xs: seq<T>, j: int, k: int, v: T, w: T)
    requires TotalOrder(le) && j <= k && IsKth(le, xs, j, v) && IsKth(le, xs, k, w)
    ensures le(v, w)
  {
    if !le(v, w) {
      CountImplies(xs, AtMost(le, w), Below(le, v));
    }
  }

  lemma {:induction false} CountStrict<T(!new)>(xs: seq<T>, p: T -> bool, q: T -> bool, v: T)
    requires (forall x :: p(x) ==> q(x)) && v in xs && q(v) && !p(v)
    ensures Count(xs, p) < Count(xs, q)
  {
    if xs[0] == v {
      CountImplies(xs[1..], p, q);
    } else {
      CountStrict(xs[1..], p, q, v);
    }
  }

  /** No element lies strictly between neighbours in rank. */
  lemma {:induction false} NothingBetweenNeighbours<T(!new)>(le: (T, T) -> bool, xs: seq<T>, k: int, lo: T, hi: T, v: T)
    requires TotalOrder(le) && IsKth(le, xs, k, lo) && IsKth(le, xs, k + 1, hi) && v in xs
    ensures le(v, lo) || le(hi, v)
  {
    if !le(v, lo) && !le(hi, v) {
      CountStrict(xs, AtMost(le, lo), Below(le, hi), v);
    }
  }

  // ---- Medians -----------------------------------------------------------

  /** lo and hi are the two middle elements of an even-length sequence. */
  ghost predicate MiddlePair<T(!new)>(le: (T, T) -> bool, xs: seq<T>, lo: T, hi: T) {
    IsKth(le, xs, |xs| / 2 - 1, lo) && IsKth(le, xs, |xs| / 2, hi)
  }

  /** The middle element, or avg of the two middle elements. */
  ghost predicate IsMedian<T(!new)>(le: (T, T) -> bool, avg: (T, T) -> T, xs: seq<T>, m: T) {
    if |xs| % 2 == 1 then IsKth(le, xs, |xs| / 2, m)
    else exists lo, hi :: MiddlePair(le, xs, lo, hi) && m == avg(lo, hi)
  }

  /** avg of an ordered pair lies between its arguments. */
  ghost predicate Averaging<T(!new)>(le: (T, T) -> bool, avg: (T, T) -> T) {
    forall x, y :: le(x, y) ==> le(x, avg(x, y)) && le(avg(x, y), y)
  }

  lemma MedianUnique<T(!new)>(le: (T, T) -> bool, avg: (T, T) -> T, xs: seq<T>, m: T, n: T)
    requires TotalOrder(le) && IsMedian(le, avg, xs, m) && IsMedian(le, avg, xs, n)
    ensures m == n
  {
    if |xs| % 2 == 1 {
      KthUnique(le, xs, |xs| / 2, m, n);
    } else {
      var lo, hi :| MiddlePair(le, xs, lo, hi) && m == avg(lo, hi);
      var lo', hi' :| MiddlePair(le, xs, lo', hi') && n == avg(lo', hi');
      KthUnique(le, xs, |xs| / 2 - 1, lo, lo');
      KthUnique(le, xs, |xs| / 2, hi, hi');
    }
  }

  lemma MedianPermutation<T(!new)>(le: (T, T) -> bool, avg: (T, T) -> T, xs: seq<T>, ys: seq<T>, m: T)
    requires multiset(xs) == multiset(ys) && IsMedian(le, avg, xs, m)
    ensures IsMedian(le, avg, ys, m)
  {
    assert |xs| == |multiset(xs)| == |multiset(ys)| == |ys|;
    if |xs| % 2 == 1 {
      KthPermutation(le, xs, ys, |xs| / 2, m);
    } else {
      var lo, hi :| MiddlePair(le, xs, lo, hi) && m == avg(lo, hi);
      KthPermutation(le, xs, ys, |xs| / 2 - 1, lo);
      KthPermutation(le, xs, ys, |xs| / 2, hi);
      assert MiddlePair(le, ys, lo, hi);
    }
  }

  /** A minority of elements cannot move the median out of the majority's range. */
  lemma MedianRobust<T(!new)>(le: (T, T) -> bool, avg: (T, T) -> T, xs: seq<T>, m: T, a: T, b: T)
    requires TotalOrder(le) && Averaging(le, avg) && IsMedian(le, avg, xs, m)
    requires 2 * Count(xs, Within(le, a, b)) > |xs|
    ensures le(a, m) && le(m, b)
  {
    if |xs| % 2 == 1 {
      MajorityBoundsMiddle(le, xs, a, b, |xs| / 2, m);
    } else {
      var lo, hi :| MiddlePair(le, xs, lo, hi) && m == avg(lo, hi);
      MajorityBoundsMiddle(le, xs, a, b, |xs| / 2 - 1, lo);
      MajorityBoundsMiddle(le, xs, a, b, |xs| / 2, hi);
      KthMonotone(le, xs, |xs| / 2 - 1, |xs| / 2, lo, hi);
    }
  }

  /** Reading the middle of any sorted arrangement gives the median. */
  lemma SortedMedian<T(!new)>(le: (T, T) -> bool, avg: (T, T) -> T, xs: seq<T>, ys: seq<T>, m: T)
    requires Sorted(le, ys) && multiset(xs) == multiset(ys) && ys != []
    requires m == if |ys| % 2 == 1 then ys[|ys| / 2] else avg(ys[|ys| / 2 - 1], ys[|ys| / 2])
    ensures IsMedian(le, avg, xs, m)
  {
    assert |xs| == |multiset(xs)| == |multiset(ys)| == |ys|;
    SortedHoldsKth(le, xs, ys, |ys| / 2);
    if |ys| % 2 == 0 {
      SortedHoldsKth(le, xs, ys, |ys| / 2 - 1);
      assert MiddlePair(le, xs, ys[|ys| / 2 - 1], ys[|ys| / 2]);
    }
  }

  // ---- A reference computation: sort, then read the middle ------------------

  function Insert<T(!new)>(le: (T, T) -> bool, x: T, ys: seq<T>): (zs: seq<T>)
    ensures |zs| == |ys| + 1
  {
    if ys == [] || le(x, ys[0]) then [x] + ys else [ys[0]] + Insert(le, x, ys[1..])
  }

  /** The ascending copy of xs. */
  function SortedCopy<T(!new)>(le: (T, T) -> bool, xs: seq<T>): (ys: seq<T>)
    ensures |ys| == |xs|
  {
    if xs == [] then [] else Insert(le, xs[0], SortedCopy(le, xs[1..]))
  }

  function MedianOf<T(!new)>(le: (T, T) -> bool, avg: (T, T) -> T, xs: seq<T>): T
    requires xs != []
  {
    var sorted := SortedCopy(le, xs);
    var mid := |sorted| / 2;
    if |sorted| % 2 == 0 then avg(sorted[mid - 1], sorted[mid]) else sorted[mid]
  }

  lemma {:induction false} InsertPermutes<T(!new)>(le: (T, T) -> bool, x: T, ys: seq<T>)
    ensures multiset(Insert(le, x, ys)) == multiset(ys) + multiset{x}
  {
    if ys != [] && !le(x, ys[0]) {
      InsertPermutes(le, x, ys[1..]);
      assert ys == [ys[0]] + ys[1..];
    }
  }

  lemma {:induction false} InsertSorts<T(!new)>(le: (T, T) -> bool, x: T, ys: seq<T>)
    requires TotalOrder(le) && Sorted(le, ys)
    ensures Sorted(le, Insert(le, x, ys))
  {
    if ys != [] && !le(x, ys[0]) {
      var rest := Insert(le, x, ys[1..]);
      InsertSorts(le, x, ys[1..]);
      InsertPermutes(le, x, ys[1..]);
      forall i | 0 <= i < |rest| ensures le(ys[0], rest[i]) {
        assert rest[i] in multiset(rest);
        assert rest[i] == x || rest[i] in ys[1..];
        if rest[i] in ys[1..] {
          var k :| 0 <= k < |ys[1..]| && ys[1..][k] == rest[i];
          assert ys[k + 1] == rest[i] && le(ys[0], ys[k + 1]);
        }
      }
    }
  }

  lemma {:induction false} SortedCopySorts<T(!new)>(le: (T, T) -> bool, xs: seq<T>)
    requires TotalOrder(le)
    ensures Sorted(le, SortedCopy(le, xs)) && multiset(SortedCopy(le, xs)) == multiset(xs)
  {
    if xs != [] {
      SortedCopySorts(le, xs[1..]);
      InsertSorts(le, xs[0], SortedCopy(le, xs[1..]));
      InsertPermutes(le, xs[0], SortedCopy(le, xs[1..]));
      assert xs == [xs[0]] + xs[1..];
    }
  }

  /** The computed median is the median, and the only one. */
  lemma MedianOfIff<T(!new)>(le: (T, T) -> bool, avg: (T, T) -> T, xs: seq<T>, m: T)
    requires TotalOrder(le) && xs != []
    ensures IsMedian(le, avg, xs, m) <==> m == MedianOf(le, avg, xs)
  {
    SortedCopySorts(le, xs);
    SortedMedian(le, avg, xs, SortedCopy(le, xs), MedianOf(le, avg, xs));
    if IsMedian(le, avg, xs, m) {
      MedianUnique(le, avg, xs, m, MedianOf(le, avg, xs));
    }
  }

  // ---- The two price domains ---------------------------------------------

  const INT_LE: (int, int) -> bool := (x, y) => x <= y
  /** On-chain average: integer division of a non-negative sum. */
  const INT_AVG: (int, int) -> int := (x, y) => (x + y) / 2

  const REAL_LE: (real, real) -> bool := (x, y) => x <= y
  const REAL_AVG: (real, real) -> real := (x, y) => (x + y) / 2.0

  /** On-chain the average is the sum halved and rounded down, off-chain it is exact. */
  lemma AveragesAre(x: int, y: int, u: real, v: real)
    ensures 2 * INT_AVG(x, y) <= x + y <= 2 * INT_AVG(x, y) + 1
    ensures 2.0 * REAL_AVG(u, v) == u + v
    ensures (INT_LE(x, y) <==> x <= y) && (REAL_LE(u, v) <==> u <= v)
  {
  }

  lemma PriceOrders()
    ensures TotalOrder(INT_LE) && Averaging(INT_LE, INT_AVG)
    ensures TotalOrder(REAL_LE) && Averaging(REAL_LE, REAL_AVG)
  {
  }
}
