/** The two hand-written array sorts of the on-chain code. Both work on the first
    n cells of a fixed-size array. */
module PriceSorts {
  import opened OrderStatistics

  /** The first i cells hold their final values: nothing after them is smaller. */
  ghost predicate FrontSettled(s: seq<int>, i: int) {
    forall p, q :: 0 <= p < i && p <= q < |s| ==> s[p] <= s[q]
  }

  /** The last i cells hold their final values: nothing before them is larger. */
  ghost predicate BackSettled(s: seq<int>, i: int) {
    forall p, q :: 0 <= p <= q < |s| && |s| - i <= q ==> s[p] <= s[q]
  }

  /** Cell i holds the least of cells i..j. */
  ghost predicate LeastSoFar(s: seq<int>, i: int, j: int) {
    0 <= i < j <= |s| && forall q :: i <= q < j ==> s[i] <= s[q]
  }

  /** Cell j holds the largest of the first j + 1 cells. */
  ghost predicate LargestSoFar(s: seq<int>, j: int) {
    0 <= j < |s| && forall p :: 0 <= p <= j ==> s[p] <= s[j]
  }

  ghost function Swapped(s: seq<int>, i: int, j: int): (t: seq<int>)
    requires 0 <= i < j < |s|
    ensures |t| == |s| && multiset(t) == multiset(s)
  {
    s[i := s[j]][j := s[i]]
  }

  method Swap(arr: array<int>, ghost n: nat, i: nat, j: nat)
    requires i < j < n <= arr.Length
    modifies arr
    ensures arr[..n] == Swapped(old(arr[..n]), i, j)
  {
    var tmp := arr[i];
    arr[i] := arr[j];
    arr[j] := tmp;
  }

  lemma ExchangeKeepsFront(s: seq<int>, i: int, j: int)
    requires 0 <= i < j < |s| && FrontSettled(s, i) && s[i] > s[j]
    requires LeastSoFar(s, i, j)
    ensures FrontSettled(Swapped(s, i, j), i) && LeastSoFar(Swapped(s, i, j), i, j + 1)
  {
    var t := Swapped(s, i, j);
    forall p, q | 0 <= p < i && p <= q < |t| ensures t[p] <= t[q] {
      assert t[p] == s[p] && (t[q] == s[q] || t[q] == s[i] || t[q] == s[j]);
    }
  }

  lemma BubbleKeepsBack(s: seq<int>, i: int, j: int)
    requires 0 <= i && 0 <= j < |s| - 1 - i && BackSettled(s, i) && s[j] > s[j + 1]
    requires LargestSoFar(s, j)
    ensures BackSettled(Swapped(s, j, j + 1), i) && LargestSoFar(Swapped(s, j, j + 1), j + 1)
  {
    var t := Swapped(s, j, j + 1);
    forall p, q | 0 <= p <= q < |t| && |t| - i <= q ensures t[p] <= t[q] {
      assert t[q] == s[q] && (t[p] == s[p] || t[p] == s[j] || t[p] == s[j + 1]);
    }
  }

  lemma PassOver(s: seq<int>, j: int)
    requires LargestSoFar(s, j) && j + 1 < |s| && s[j] <= s[j + 1]
    ensures LargestSoFar(s, j + 1)
  {
  }

  lemma PassSettles(s: seq<int>, i: int)
    requires 0 <= i < |s| && BackSettled(s, i) && LargestSoFar(s, |s| - 1 - i)
    ensures BackSettled(s, i + 1)
  {
  }

  /** One inner loop of the exchange sort: cell i receives the least of cells i.. */
  method ExchangePass(arr: array<int>, n: nat, i: nat)
    requires i < n <= arr.Length && FrontSettled(arr[..n], i)
    modifies arr
    ensures FrontSettled(arr[..n], i + 1)
    ensures multiset(arr[..n]) == multiset(old(arr[..n]))
  {
    ghost var s := arr[..n];
    for j := i + 1 to n
      invariant s == arr[..n] && multiset(s) == multiset(old(arr[..n]))
      invariant FrontSettled(s, i) && LeastSoFar(s, i, j)
    {
      if arr[i] > arr[j] {
        ExchangeKeepsFront(s, i, j);
        Swap(arr, n, i, j);
        s := Swapped(s, i, j);
      }
    }
  }

  /** The exchange sort of `submit_oracle_prices`. */
  method ExchangeSort(arr: array<int>, n: nat)
    requires n <= arr.Length
    modifies arr
    ensures Sorted(INT_LE, arr[..n])
    ensures multiset(arr[..n]) == multiset(old(arr[..n]))
  {
    for i := 0 to n
      invariant multiset(arr[..n]) == multiset(old(arr[..n]))
      invariant FrontSettled(arr[..n], i)
    {
      ExchangePass(arr, n, i);
    }
  }

  /** One inner loop of the bubble sort: the largest of the unsettled cells moves to their end. */
  method BubblePass(arr: array<int>, n: nat, i: nat)
    requires i < n <= arr.Length && BackSettled(arr[..n], i)
    modifies arr
    ensures BackSettled(arr[..n], i + 1)
    ensures multiset(arr[..n]) == multiset(old(arr[..n]))
  {
    ghost var s := arr[..n];
    for j := 0 to n - 1 - i
      invariant s == arr[..n] && multiset(s) == multiset(old(arr[..n]))
      invariant BackSettled(s, i) && LargestSoFar(s, j)
    {
      if arr[j] > arr[j + 1] {
        BubbleKeepsBack(s, i, j);
        Swap(arr, n, j, j + 1);
        s := Swapped(s, j, j + 1);
      } else {
        PassOver(s, j);
      }
    }
    PassSettles(s, i);
  }

  /** The bubble sort of `get_median_price`. */
  method BubbleSort(arr: array<int>, n: nat)
    requires n <= arr.Length
    modifies arr
    ensures Sorted(INT_LE, arr[..n])
    ensures multiset(arr[..n]) == multiset(old(arr[..n]))
  {
    for i := 0 to n
      invariant multiset(arr[..n]) == multiset(old(arr[..n]))
      invariant BackSettled(arr[..n], i)
    {
      BubblePass(arr, n, i);
    }
  }
}
