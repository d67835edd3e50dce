/** What the list operations do to the owned sequence, as functions on
    sequences, and the laws that hold of them. */
module Sequences {

  /** The sequence without its element at index i (remove). */
  function RemovedAt<T>(s: seq<T>, i: nat): seq<T>
    requires i < |s|
  {
    s[..i] + s[i + 1..]
  }

  /** Elements before i stay where they are, later ones move one place
      toward the front, and exactly one copy of s[i] is gone. */
  lemma RemovedAtShifts<T>(s: seq<T>, i: nat)
    requires i < |s|
    ensures |RemovedAt(s, i)| == |s| - 1
    ensures forall k :: 0 <= k < i ==> RemovedAt(s, i)[k] == s[k]
    ensures forall k :: i <= k < |s| - 1 ==> RemovedAt(s, i)[k] == s[k + 1]
    ensures multiset(RemovedAt(s, i)) + multiset{s[i]} == multiset(s)
  {
    assert s == s[..i] + [s[i]] + s[i + 1..];
  }

  /** Putting the removed element back at i gives the original sequence. */
  lemma RemovedAtReinsert<T>(s: seq<T>, i: nat)
    requires i < |s|
    ensures RemovedAt(s, i)[..i] + [s[i]] + RemovedAt(s, i)[i..] == s
  {
    var r := RemovedAt(s, i);
    assert r[..i] == s[..i];
    assert r[i..] == s[i + 1..];
  }

  /** The sequence with the elements at i and j exchanged (swap). */
  function Swapped<T>(s: seq<T>, i: nat, j: nat): seq<T>
    requires i < |s| && j < |s|
  {
    s[i := s[j]][j := s[i]]
  }

  /** swap exchanges exactly the two slots and keeps the size. */
  lemma SwappedAt<T>(s: seq<T>, i: nat, j: nat)
    requires i < |s| && j < |s|
    ensures |Swapped(s, i, j)| == |s|
    ensures Swapped(s, i, j)[i] == s[j] && Swapped(s, i, j)[j] == s[i]
    ensures forall k :: 0 <= k < |s| && k != i && k != j ==> Swapped(s, i, j)[k] == s[k]
  {
  }

  /** swap(i, i) changes nothing. */
  lemma SwappedSelf<T>(s: seq<T>, i: nat)
    requires i < |s|
    ensures Swapped(s, i, i) == s
  {
  }

  /** swap(i, j) done twice restores the original. */
  lemma SwappedTwice<T>(s: seq<T>, i: nat, j: nat)
    requires i < |s| && j < |s|
    ensures Swapped(Swapped(s, i, j), i, j) == s
  {
  }

  /** swap only reorders: the elements and their counts stay the same. */
  lemma SwappedPermutes<T>(s: seq<T>, i: nat, j: nat)
    requires i < |s| && j < |s|
    ensures multiset(Swapped(s, i, j)) == multiset(s)
  {
    if i != j {
      var t := s[i := s[j]];
      assert multiset(t) == multiset(s) - multiset{s[i]} + multiset{s[j]};
      assert multiset(t[j := s[i]]) == multiset(t) - multiset{t[j]} + multiset{s[i]};
    }
  }

  /** The reverse of a sequence, defined independently of the in-place
      loop: the last element first, then the reverse of the rest. */
  function Reversed<T>(s: seq<T>): (r: seq<T>)
    ensures |r| == |s|
  {
    if |s| == 0 then [] else [s[|s| - 1]] + Reversed(s[..|s| - 1])
  }

  /** Slot k of the reverse holds slot n-1-k of the original. */
  lemma {:induction false} ReversedAt<T>(s: seq<T>, k: nat)
    requires k < |s|
    ensures Reversed(s)[k] == s[|s| - 1 - k]
  {
    if k > 0 {
      ReversedAt(s[..|s| - 1], k - 1);
    }
  }

  /** reverse(); reverse() restores the original sequence. */
  lemma ReversedTwice<T>(s: seq<T>)
    ensures Reversed(Reversed(s)) == s
  {
    forall k | 0 <= k < |s|
      ensures Reversed(Reversed(s))[k] == s[k]
    {
      ReversedAt(Reversed(s), k);
      ReversedAt(s, |s| - 1 - k);
    }
  }

  /** The elements of s that occur in other, in the order and with the
      multiplicity they have in s (intersection). */
  function Intersect<T(==)>(s: seq<T>, other: seq<T>): seq<T>
  {
    if |s| == 0 then []
    else Intersect(s[..|s| - 1], other) + (if s[|s| - 1] in other then [s[|s| - 1]] else [])
  }

  /** An element is in the intersection exactly when it is in both. */
  lemma {:induction false} IntersectMembers<T>(s: seq<T>, other: seq<T>, x: T)
    ensures x in Intersect(s, other) <==> x in s && x in other
  {
    if |s| > 0 {
      IntersectMembers(s[..|s| - 1], other, x);
      assert s == s[..|s| - 1] + [s[|s| - 1]];
    }
  }

  /** The intersection keeps every copy from s of an element of other and
      nothing else: the multiplicity comes entirely from s. */
  lemma {:induction false} IntersectCount<T>(s: seq<T>, other: seq<T>, x: T)
    ensures multiset(Intersect(s, other))[x] == if x in other then multiset(s)[x] else 0
  {
    if |s| > 0 {
      IntersectCount(s[..|s| - 1], other, x);
      assert s == s[..|s| - 1] + [s[|s| - 1]];
    }
  }

  /** The intersection of a concatenation is the concatenation of the
      intersections: the order of s is kept. */
  lemma {:induction false} IntersectAppend<T>(a: seq<T>, b: seq<T>, other: seq<T>)
    ensures Intersect(a + b, other) == Intersect(a, other) + Intersect(b, other)
  {
    if |b| > 0 {
      var b' := b[..|b| - 1];
      IntersectAppend(a, b', other);
      assert (a + b)[..|a + b| - 1] == a + b';
    } else {
      assert a + b == a;
    }
  }

  /** Adding the elements of xs one at a time, in order (repeated add). */
  function AddEach<T>(s: seq<T>, xs: seq<T>): seq<T>
    decreases |xs|
  {
    if |xs| == 0 then s else AddEach(s + [xs[0]], xs[1..])
  }

  /** addAll(xs) appends xs in one step, which is the same as adding its
      elements one by one. */
  lemma {:induction false} AddEachIsConcat<T>(s: seq<T>, xs: seq<T>)
    ensures AddEach(s, xs) == s + xs
    decreases |xs|
  {
    if |xs| > 0 {
      AddEachIsConcat(s + [xs[0]], xs[1..]);
      assert s + [xs[0]] + xs[1..] == s + xs;
    }
  }
}
