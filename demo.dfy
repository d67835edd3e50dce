/** The scenarios of the demonstration program in main.go, as a client of
    the List specifications: each of its literal checks is an assertion
    here, proved from the contracts alone. Printing is left out. */
module Demo {
  import opened Outcomes
  import opened GoList
  import opened Sequences
  import opened Display
  import opened ExchangeSorting

  /** Decimal text of an integer, standing for Go's "%v" on int. */
  function DecimalString(n: int): string
    decreases if n < 0 then 1 - n else n
  {
    if n < 0 then "-" + DecimalString(-n)
    else if n < 10 then [(48 + n) as char]
    else DecimalString(n / 10) + DecimalString(n % 10)
  }

  /** The comparison the demonstration passes to sort. */
  function IntLess(a: int, b: int): bool
  {
    a < b
  }

  /** The texts of 1, 2 and 3. */
  lemma RenderExample()
    ensures Render([1, 2, 3], DecimalString) == ["1", "2", "3"]
  {
    assert DecimalString(1) == "1" && DecimalString(2) == "2" && DecimalString(3) == "3";
    var r := Render([1, 2, 3], DecimalString);
    assert r[0] == "1" && r[1] == "2" && r[2] == "3";
  }

  /** [1, 2, 3] renders as "[1, 2, 3]" and, with "; ", as "1; 2; 3". */
  lemma TextExamples()
    ensures "[" + Join(Render([1, 2, 3], DecimalString), ", ") + "]" == "[1, 2, 3]"
    ensures Join(Render([1, 2, 3], DecimalString), "; ") == "1; 2; 3"
  {
    RenderExample();
    var parts := ["1", "2", "3"];
    assert parts[1..] == ["2", "3"] && parts[1..][1..] == ["3"];
    assert Join(parts, ", ") == "1" + ", " + ("2" + ", " + "3");
    assert Join(parts, "; ") == "1" + "; " + ("2" + "; " + "3");
  }

  /** The reverse of [3, 5, 1] is [1, 5, 3]. */
  lemma ReverseExample()
    ensures Reversed([3, 5, 1]) == [1, 5, 3]
  {
    assert [3, 5, 1][..2] == [3, 5] && [3, 5][..1] == [3] && [3][..0] == [];
  }

  /** Sorting [1, 5, 3] by a < b gives [1, 3, 5]; only the pass for i = 1
      swaps, at j = 2. */
  lemma SortExample()
    ensures ExchangeSort([1, 5, 3], IntLess) == [1, 3, 5]
  {
    assert InnerPass([1, 5, 3], 0, 1, IntLess) == [1, 5, 3];
    assert InnerPass([1, 5, 3], 1, 2, IntLess) == [1, 3, 5];
    assert OuterPass([1, 3, 5], 2, IntLess) == [1, 3, 5];
  }

  /** Of [1, 2, 3], only 3 occurs in [3, 4, 5]. */
  lemma IntersectExample()
    ensures Intersect([1, 2, 3], [3, 4, 5]) == [3]
  {
    assert [1, 2, 3][..2] == [1, 2] && [1, 2][..1] == [1] && [1][..0] == [];
  }

  /** add, addAll, get, remove, clear, contains and isEmpty. */
  method InsertionAndQueries()
  {
    var list := new List<int>();
    assert list.IsEmpty();

    list.Add(1);
    assert list.Size() == 1;

    list.AddAll([2, 3]);
    assert list.items == [1, 2, 3];
    assert list.Get(0) == Ok(1);

    var removed := list.Remove(1);
    assert removed == Ok(2) && list.items == [1, 3] && list.Size() == 2;
    removed := list.Remove(2);
    assert removed == Err(IndexOutOfBounds) && list.items == [1, 3];

    list.Clear();
    assert list.Size() == 0;

    list.Add(1);
    var has1 := list.Contains(1);
    var has2 := list.Contains(2);
    assert has1 && !has2;
    assert !list.IsEmpty();
    list.Clear();
    assert list.IsEmpty();
  }

  /** head, tail, pop (front) and dequeue (back). */
  method StackAndQueue()
  {
    var list := new List<int>();
    assert list.Head() == Err(EmptyList) && list.Tail() == Err(EmptyList);

    list.AddAll([1, 2, 3]);
    assert list.Head() == Ok(1) && list.Tail() == Ok(3);

    var o := list.Pop();
    assert o == Done && list.Head() == Ok(2);
    o := list.Dequeue();
    assert o == Done && list.Tail() == Ok(2) && list.items == [2];
    o := list.Pop();
    o := list.Dequeue();
    assert o == Failed(EmptyList);
  }

  /** asString on the empty list and on [1, 2, 3]; asStringWithSeparator with "; ". */
  method Texts()
  {
    var list := new List<int>();
    var text := list.AsString(DecimalString);
    assert text == "[]";
    list.AddAll([1, 2, 3]);
    assert list.items == [1, 2, 3];
    TextExamples();
    text := list.AsString(DecimalString);
    assert text == "[1, 2, 3]";
    text := list.AsStringWithSeparator(DecimalString, "; ");
    assert text == "1; 2; 3";
  }

  /** set, in bounds and out of bounds. */
  method Overwrite()
  {
    var list := new List<int>();
    list.AddAll([1, 2, 3]);
    assert list.items == [1, 2, 3];
    var o := list.Set(1, 5);
    assert list.items == [1, 5, 3];
    assert list.Get(1) == Ok(5);
    o := list.Set(3, 5);
    assert o == Failed(IndexOutOfBounds) && list.items == [1, 5, 3];
  }

  /** swap, in bounds and out of bounds. */
  method Exchange()
  {
    var list := new List<int>();
    list.AddAll([1, 5, 3]);
    assert list.items == [1, 5, 3];
    assert Swapped([1, 5, 3], 0, 2) == [3, 5, 1];
    var o := list.Swap(0, 2);
    assert list.items == [3, 5, 1];
    assert list.Get(0) == Ok(3) && list.Get(2) == Ok(1);
    o := list.Swap(0, -1);
    assert o == Failed(IndexOutOfBounds) && list.items == [3, 5, 1];
  }

  /** reverse, and reverse twice. */
  method Reversal()
  {
    var list := new List<int>();
    list.AddAll([3, 5, 1]);
    assert list.items == [3, 5, 1];
    ReverseExample();
    list.Reverse();
    assert list.items == [1, 5, 3];
    list.Reverse();
    ReversedTwice([3, 5, 1]);
    assert list.items == [3, 5, 1];
  }

  /** sort with the predicate a < b. */
  method Sorting()
  {
    var list := new List<int>();
    list.AddAll([1, 5, 3]);
    assert list.items == [1, 5, 3];
    SortExample();
    list.Sort(IntLess);
    assert list.items == [1, 3, 5];
  }

  /** append copies the other list and leaves it as it was. */
  method Appending()
  {
    var list := new List<int>();
    list.AddAll([1, 3, 5]);
    var another := new List<int>();
    another.AddAll([6, 7]);
    list.Append(another);
    assert list.Size() == 5 && list.Get(4) == Ok(7);
    assert another.items == [6, 7];
  }

  /** union keeps every duplicate. */
  method UnionKeepsDuplicates()
  {
    var list1 := new List<int>();
    list1.AddAll([1, 2, 3]);
    var list2 := new List<int>();
    list2.AddAll([3, 4, 5]);
    var union := list1.Union(list2);
    assert union.items == [1, 2, 3, 3, 4, 5];
    assert list1.items == [1, 2, 3] && list2.items == [3, 4, 5];
  }

  /** intersection keeps the elements of this list that the other contains. */
  method IntersectionFilters()
  {
    var list1 := new List<int>();
    list1.AddAll([1, 2, 3]);
    var list2 := new List<int>();
    list2.AddAll([3, 4, 5]);
    assert list1.items == [1, 2, 3] && list2.items == [3, 4, 5];
    IntersectExample();
    var intersection := list1.Intersection(list2);
    assert intersection.items == [3];
  }
}
