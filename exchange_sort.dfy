/** The exchange sort of list.go as functions on sequences: InnerPass is
    the inner loop (compare slot j with slot i and swap when compare says
    the later one goes first), OuterPass the outer loop over i. Stating
    the exact result, rather than only "sorted", fixes the order in which
    elements that compare equal come out. */
module ExchangeSorting {
  import opened Sequences

  /** The comparison orders the elements of s strictly: irreflexive and
      transitive on them. Totality is not needed for the sorting theorem
      below, nor anything about values that are not in the list. */
  ghost predicate StrictOrderOn<T>(less: (T, T) -> bool, s: seq<T>) {
    && (forall a | a in s :: !less(a, a))
    && (forall a, b, c | a in s && b in s && c in s :: less(a, b) && less(b, c) ==> less(a, c))
  }

  /** Reordering the elements keeps the comparison a strict order on them. */
  lemma StrictOrderOnPermutation<T>(less: (T, T) -> bool, s: seq<T>, t: seq<T>)
    requires multiset(s) == multiset(t) && StrictOrderOn(less, s)
    ensures StrictOrderOn(less, t)
  {
    forall a | a in t
      ensures a in s
    {
      assert a in multiset(t);
    }
  }

  /** No later element goes before an earlier one. */
  ghost predicate Sorted<T>(s: seq<T>, less: (T, T) -> bool) {
    forall k, m :: 0 <= k < m < |s| ==> !less(s[m], s[k])
  }

  /** The first p slots are final: none of them is preceded by a later element. */
  ghost predicate PlacedUpTo<T>(s: seq<T>, p: nat, less: (T, T) -> bool) {
    forall k, m :: 0 <= k < p && k < m < |s| ==> !less(s[m], s[k])
  }

  /** Slot i is not preceded by any slot in (i, j). */
  ghost predicate MinimalBefore<T>(s: seq<T>, i: nat, j: nat, less: (T, T) -> bool)
    requires i < |s| && j <= |s|
  {
    forall m :: i < m < j ==> !less(s[m], s[i])
  }

  /** One run of the inner loop of sort, from j to the end, for a fixed i. */
  function InnerPass<T>(s: seq<T>, i: nat, j: nat, less: (T, T) -> bool): (r: seq<T>)
    requires i < j <= |s|
    ensures |r| == |s|
    ensures multiset(r) == multiset(s)
    ensures r[..i] == s[..i]
    decreases |s| - j
  {
    if j == |s| then s
    else if less(s[j], s[i]) then
      SwappedPermutes(s, i, j);
      InnerPass(Swapped(s, i, j), i, j + 1, less)
    else InnerPass(s, i, j + 1, less)
  }

  /** The outer loop of sort, from i to the end. */
  function OuterPass<T>(s: seq<T>, i: nat, less: (T, T) -> bool): (r: seq<T>)
    requires i <= |s|
    ensures |r| == |s|
    ensures multiset(r) == multiset(s)
    decreases |s| - i
  {
    if i == |s| then s else OuterPass(InnerPass(s, i, i + 1, less), i + 1, less)
  }

  /** What sort leaves in the list, for any comparison. */
  function ExchangeSort<T>(s: seq<T>, less: (T, T) -> bool): seq<T>
  {
    OuterPass(s, 0, less)
  }

  /** Sorting keeps the size and only reorders, whatever the comparison. */
  lemma ExchangeSortPermutes<T>(s: seq<T>, less: (T, T) -> bool)
    ensures |ExchangeSort(s, less)| == |s|
    ensures multiset(ExchangeSort(s, less)) == multiset(s)
  {
  }

  /** One swap of the inner loop keeps the first i slots final and slot i
      minimal among the slots seen so far. */
  lemma SwapStepPlaces<T>(s: seq<T>, i: nat, j: nat, less: (T, T) -> bool)
    requires StrictOrderOn(less, s)
    requires i < j < |s| && less(s[j], s[i])
    requires PlacedUpTo(s, i, less) && MinimalBefore(s, i, j, less)
    ensures PlacedUpTo(Swapped(s, i, j), i, less) && MinimalBefore(Swapped(s, i, j), i, j + 1, less)
  {
    var t := Swapped(s, i, j);
    SwappedAt(s, i, j);
    assert s[i] in s && s[j] in s;
    forall m | i < m < j + 1
      ensures !less(t[m], t[i])
    {
      assert s[m] in s;
    }
  }

  /** A step of the inner loop that does not swap keeps slot i minimal. */
  lemma KeepStepPlaces<T>(s: seq<T>, i: nat, j: nat, less: (T, T) -> bool)
    requires i < j < |s| && !less(s[j], s[i])
    requires MinimalBefore(s, i, j, less)
    ensures MinimalBefore(s, i, j + 1, less)
  {
  }

  /** When the inner loop for i ends, slot i is final. */
  lemma InnerPassEndPlaces<T>(s: seq<T>, i: nat, less: (T, T) -> bool)
    requires i < |s|
    requires PlacedUpTo(s, i, less) && MinimalBefore(s, i, |s|, less)
    ensures PlacedUpTo(s, i + 1, less)
  {
  }

  /** After the inner loop for i, slot i is final too. */
  lemma {:induction false} InnerPassPlaces<T>(s: seq<T>, i: nat, j: nat, less: (T, T) -> bool)
    requires StrictOrderOn(less, s)
    requires i < j <= |s|
    requires PlacedUpTo(s, i, less) && MinimalBefore(s, i, j, less)
    ensures PlacedUpTo(InnerPass(s, i, j, less), i + 1, less)
    decreases |s| - j
  {
    if j == |s| {
      InnerPassEndPlaces(s, i, less);
    } else if less(s[j], s[i]) {
      var t := Swapped(s, i, j);
      SwapStepPlaces(s, i, j, less);
      SwappedPermutes(s, i, j);
      StrictOrderOnPermutation(less, s, t);
      InnerPassPlaces(t, i, j + 1, less);
    } else {
      KeepStepPlaces(s, i, j, less);
      InnerPassPlaces(s, i, j + 1, less);
    }
  }

  /** The outer loop from a state whose first i slots are final sorts. */
  lemma {:induction false} OuterPassSorts<T>(s: seq<T>, i: nat, less: (T, T) -> bool)
    requires StrictOrderOn(less, s)
    requires i <= |s| && PlacedUpTo(s, i, less)
    ensures Sorted(OuterPass(s, i, less), less)
    decreases |s| - i
  {
    if i < |s| {
      InnerPassPlaces(s, i, i + 1, less);
      StrictOrderOnPermutation(less, s, InnerPass(s, i, i + 1, less));
      OuterPassSorts(InnerPass(s, i, i + 1, less), i + 1, less);
    }
  }

  /** For a strict order, sort leaves no later element that compares
      before an earlier one; in particular compare(b, a) is false for
      every adjacent pair (a, b). */
  lemma ExchangeSortSorts<T>(s: seq<T>, less: (T, T) -> bool)
    requires StrictOrderOn(less, s)
    ensures Sorted(ExchangeSort(s, less), less)
    ensures forall k :: 0 <= k < |s| - 1 ==> !less(ExchangeSort(s, less)[k + 1], ExchangeSort(s, less)[k])
  {
    OuterPassSorts(s, 0, less);
  }

  /** On a sorted sequence the inner loop never swaps. */
  lemma {:induction false} InnerPassKeepsSorted<T>(s: seq<T>, i: nat, j: nat, less: (T, T) -> bool)
    requires i < j <= |s| && Sorted(s, less)
    ensures InnerPass(s, i, j, less) == s
    decreases |s| - j
  {
    if j < |s| {
      InnerPassKeepsSorted(s, i, j + 1, less);
    }
  }

  /** On a sorted sequence the outer loop changes nothing. */
  lemma {:induction false} OuterPassKeepsSorted<T>(s: seq<T>, i: nat, less: (T, T) -> bool)
    requires i <= |s| && Sorted(s, less)
    ensures OuterPass(s, i, less) == s
    decreases |s| - i
  {
    if i < |s| {
      InnerPassKeepsSorted(s, i, i + 1, less);
      OuterPassKeepsSorted(s, i + 1, less);
    }
  }

  /** sort leaves a list that is already sorted as it is, for any comparison. */
  lemma ExchangeSortKeepsSorted<T>(s: seq<T>, less: (T, T) -> bool)
    requires Sorted(s, less)
    ensures ExchangeSort(s, less) == s
  {
    OuterPassKeepsSorted(s, 0, less);
  }

  /** Sorting twice with a strict order is the same as sorting once. */
  lemma ExchangeSortIdempotent<T>(s: seq<T>, less: (T, T) -> bool)
    requires StrictOrderOn(less, s)
    ensures ExchangeSort(ExchangeSort(s, less), less) == ExchangeSort(s, less)
  {
    ExchangeSortSorts(s, less);
    ExchangeSortKeepsSorted(ExchangeSort(s, less), less);
  }
}
