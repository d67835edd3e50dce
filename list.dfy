/** The generic ordered list of list.go. A List owns one sequence of
    elements, `items`; every mutating operation reassigns it, and the
    operations that can fail return an Outcomes value instead of
    panicking. Element equality is Dafny's `==`. */
module GoList {
  import opened Outcomes
  import opened Sequences
  import opened ExchangeSorting
  import opened Display

  class List<T(==)> {
    /** The elements, in order; duplicates are allowed. */
    var items: seq<T>

    /** newList: an empty list. */
    constructor ()
      ensures items == []
    {
      items := [];
    }

    /** add: appends one item at the end. */
    method Add(item: T)
      modifies this
      ensures items == old(items) + [item]
      ensures |items| == |old(items)| + 1 && items[|items| - 1] == item
    {
      items := items + [item];
    }

    /** addAll: appends every element of xs, in order; nothing when xs is empty. */
    method AddAll(xs: seq<T>)
      modifies this
      ensures items == old(items) + xs
      ensures items == AddEach(old(items), xs)
    {
      AddEachIsConcat(items, xs);
      items := items + xs;
    }

    /** size: the number of elements. */
    function Size(): (n: nat)
      reads this
      ensures n == |items|
    {
      |items|
    }

    /** get: the element at index, or IndexOutOfBounds. Changes nothing. */
    function Get(index: int): (r: Result<T>)
      reads this
      ensures r.Ok? <==> InBounds(index, |items|)
      ensures r.Ok? ==> r.value == items[index]
      ensures r.Err? ==> r.error == IndexOutOfBounds
    {
      if index < 0 || index >= |items| then Err(IndexOutOfBounds) else Ok(items[index])
    }

    /** remove: takes out and returns the element at index, shifting the
        later ones toward the front, or fails with IndexOutOfBounds and
        leaves the list as it was. */
    method Remove(index: int) returns (r: Result<T>)
      modifies this
      ensures r.Ok? <==> InBounds(index, |old(items)|)
      ensures r.Ok? ==> r.value == old(items)[index] && items == RemovedAt(old(items), index)
      ensures r.Err? ==> r.error == IndexOutOfBounds && items == old(items)
    {
      if index < 0 || index >= |items| {
        return Err(IndexOutOfBounds);
      }
      var item := items[index];
      items := items[..index] + items[index + 1..];
      r := Ok(item);
    }

    /** clear: removes every element. */
    method Clear()
      modifies this
      ensures items == []
    {
      items := [];
    }

    /** contains: whether some element equals item, by a linear scan. */
    method Contains(item: T) returns (found: bool)
      ensures found <==> item in items
    {
      for k := 0 to |items|
        invariant item !in items[..k]
      {
        if items[k] == item {
          return true;
        }
      }
      assert items[..|items|] == items;
      return false;
    }

    /** isEmpty: whether the size is 0. */
    function IsEmpty(): (b: bool)
      reads this
      ensures b <==> Size() == 0
      ensures b <==> items == []
    {
      |items| == 0
    }

    /** head: the first element, without removing it, or EmptyList. */
    function Head(): (r: Result<T>)
      reads this
      ensures r.Err? <==> IsEmpty()
      ensures r.Err? ==> r.error == EmptyList
      ensures r.Ok? ==> r.value == items[0]
    {
      if |items| == 0 then Err(EmptyList) else Ok(items[0])
    }

    /** tail: the last element, without removing it, or EmptyList. */
    function Tail(): (r: Result<T>)
      reads this
      ensures r.Err? <==> IsEmpty()
      ensures r.Err? ==> r.error == EmptyList
      ensures r.Ok? ==> r.value == items[|items| - 1]
    {
      if |items| == 0 then Err(EmptyList) else Ok(items[|items| - 1])
    }

    /** pop: removes the FIRST element (the front, despite the name), or
        fails with EmptyList and leaves the list as it was. */
    method Pop() returns (o: Outcome)
      modifies this
      ensures o.Failed? <==> old(items) == []
      ensures o.Failed? ==> o.error == EmptyList && items == old(items)
      ensures o.Done? ==> items == old(items)[1..] && [old(items)[0]] + items == old(items)
    {
      if |items| == 0 {
        return Failed(EmptyList);
      }
      items := items[1..];
      o := Done;
    }

    /** dequeue: removes the LAST element (the back, despite the name), or
        fails with EmptyList and leaves the list as it was. */
    method Dequeue() returns (o: Outcome)
      modifies this
      ensures o.Failed? <==> old(items) == []
      ensures o.Failed? ==> o.error == EmptyList && items == old(items)
      ensures o.Done? ==> items == old(items)[..|old(items)| - 1]
      ensures o.Done? ==> items + [old(items)[|old(items)| - 1]] == old(items)
    {
      if |items| == 0 {
        return Failed(EmptyList);
      }
      items := items[..|items| - 1];
      o := Done;
    }

    /** asString: "[" then the elements' texts separated by ", " then "]".
        toStr stands for Go's default value formatting. */
    method AsString(toStr: T -> string) returns (str: string)
      ensures str == "[" + Join(Render(items, toStr), ", ") + "]"
    {
      ghost var parts := Render(items, toStr);
      str := "[";
      var i := 0;
      while i < |items|
        invariant 0 <= i <= |items|
        invariant str == "[" + Join(parts[..i], ", ") + (if 0 < i < |items| then ", " else "")
      {
        str := str + toStr(items[i]);
        if i < |items| - 1 {
          str := str + ", ";
        }
        JoinStep(parts, i, ", ");
        i := i + 1;
      }
      assert parts[..i] == parts;
      str := str + "]";
    }

    /** asStringWithSeparator: the elements' texts separated by sep, no brackets. */
    method AsStringWithSeparator(toStr: T -> string, sep: string) returns (str: string)
      ensures str == Join(Render(items, toStr), sep)
    {
      ghost var parts := Render(items, toStr);
      str := "";
      var i := 0;
      while i < |items|
        invariant 0 <= i <= |items|
        invariant str == Join(parts[..i], sep) + (if 0 < i < |items| then sep else "")
      {
        str := str + toStr(items[i]);
        if i < |items| - 1 {
          str := str + sep;
        }
        JoinStep(parts, i, sep);
        i := i + 1;
      }
      assert parts[..i] == parts;
    }

    /** set: overwrites the element at index, or fails with IndexOutOfBounds.
        The size and every other slot stay as they were. */
    method Set(index: int, item: T) returns (o: Outcome)
      modifies this
      ensures o.Done? <==> InBounds(index, |old(items)|)
      ensures o.Failed? ==> o.error == IndexOutOfBounds && items == old(items)
      ensures o.Done? ==> items == old(items)[index := item]
      ensures |items| == |old(items)|
      ensures forall k :: 0 <= k < |items| && k != index ==> items[k] == old(items)[k]
    {
      if index < 0 || index >= |items| {
        return Failed(IndexOutOfBounds);
      }
      items := items[index := item];
      o := Done;
    }

    /** swap: exchanges the elements at index1 and index2, or fails with
        IndexOutOfBounds when either index is outside the list. */
    method Swap(index1: int, index2: int) returns (o: Outcome)
      modifies this
      ensures o.Done? <==> InBounds(index1, |old(items)|) && InBounds(index2, |old(items)|)
      ensures o.Failed? ==> o.error == IndexOutOfBounds && items == old(items)
      ensures o.Done? ==> items == Swapped(old(items), index1, index2)
      ensures multiset(items) == multiset(old(items))
    {
      if index1 < 0 || index1 >= |items| || index2 < 0 || index2 >= |items| {
        return Failed(IndexOutOfBounds);
      }
      SwappedPermutes(items, index1, index2);
      items := items[index1 := items[index2]][index2 := items[index1]];
      o := Done;
    }

    /** reverse: reverses the order in place by swapping slot i with slot
        n-1-i for every i below n/2. */
    method Reverse()
      modifies this
      ensures items == Reversed(old(items))
    {
      var n := |items|;
      var i := 0;
      while i < |items| / 2
        invariant |items| == n
        invariant 0 <= i <= n / 2
        invariant forall k :: 0 <= k < i ==> items[k] == old(items)[n - 1 - k] && items[n - 1 - k] == old(items)[k]
        invariant forall k :: i <= k < n - i ==> items[k] == old(items)[k]
      {
        items := items[i := items[n - 1 - i]][n - 1 - i := items[i]];
        i := i + 1;
      }
      forall k | 0 <= k < n
        ensures items[k] == Reversed(old(items))[k]
      {
        ReversedAt(old(items), k);
      }
    }

    /** sort: the exchange sort of list.go. For each i, every later slot j
        whose element compare puts before slot i's is swapped into slot i.
        The result is exactly ExchangeSort; it is always a permutation, and
        sorted when compare is a strict order on the elements. */
    method Sort(compare: (T, T) -> bool)
      modifies this
      ensures items == ExchangeSort(old(items), compare)
      ensures multiset(items) == multiset(old(items))
      ensures StrictOrderOn(compare, old(items)) ==> Sorted(items, compare)
    {
      ghost var result := ExchangeSort(old(items), compare);
      var i := 0;
      while i < |items|
        invariant i <= |items| == |old(items)|
        invariant OuterPass(items, i, compare) == result
      {
        var j := i + 1;
        while j < |items|
          invariant i < j <= |items| == |old(items)|
          invariant OuterPass(InnerPass(items, i, j, compare), i + 1, compare) == result
        {
          ghost var before := items;
          if compare(items[j], items[i]) {
            items := items[i := items[j]][j := items[i]];
          }
          assert items == if compare(before[j], before[i]) then Swapped(before, i, j) else before;
          assert InnerPass(before, i, j, compare) == InnerPass(items, i, j + 1, compare);
          j := j + 1;
        }
        i := i + 1;
      }
      if StrictOrderOn(compare, old(items)) {
        ExchangeSortSorts(old(items), compare);
      }
    }

    /** append: adds every element of other, in other's order; other is not
        changed (other may be this list itself). */
    method Append(other: List<T>)
      modifies this
      ensures items == old(items) + old(other.items)
      ensures other != this ==> other.items == old(other.items)
    {
      items := items + other.items;
    }

    /** union: a new list holding this list's elements followed by other's,
        with every duplicate kept. Neither operand changes. */
    method Union(other: List<T>) returns (r: List<T>)
      ensures fresh(r)
      ensures r.items == items + other.items
      ensures |r.items| == |items| + |other.items|
    {
      r := new List();
      r.AddAll(items);
      r.AddAll(other.items);
    }

    /** intersection: a new list holding, in this list's order and with
        this list's multiplicity, each element that other contains.
        Neither operand changes. */
    method Intersection(other: List<T>) returns (r: List<T>)
      ensures fresh(r)
      ensures r.items == Intersect(items, other.items)
      ensures forall x :: x in r.items <==> x in items && x in other.items
      ensures forall x :: multiset(r.items)[x] == if x in other.items then multiset(items)[x] else 0
    {
      r := new List();
      for k := 0 to |items|
        invariant fresh(r)
        invariant r.items == Intersect(items[..k], other.items)
      {
        var keep := other.Contains(items[k]);
        assert items[..k + 1][..k] == items[..k];
        if keep {
          r.Add(items[k]);
        }
      }
      assert items[..|items|] == items;
      forall x
        ensures x in r.items <==> x in items && x in other.items
        ensures multiset(r.items)[x] == if x in other.items then multiset(items)[x] else 0
      {
        IntersectMembers(items, other.items, x);
        IntersectCount(items, other.items, x);
      }
    }
  }
}
