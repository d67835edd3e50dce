# GoList in Dafny

A model of `List[T]`, the generic ordered list of the GoList repository
(`list.go`), with proofs of what its operations do.

A `List[T]` owns one slice of elements. It supports:

- appending: `add`, `addAll`, `append`;
- bounds-checked slot operations: `get`, `set`, `remove`, `swap`;
- a stack/queue view: `head`, `tail`, `pop` and `dequeue`. The names are
  inverted from the usual convention, and the model keeps that: `pop`
  removes the FRONT and `dequeue` removes the BACK;
- in-place reordering: `reverse`, and an O(n²) exchange `sort` driven by a
  caller's `compare`;
- queries: `size`, `isEmpty`, `contains`;
- two combinators that build a new list: `union` is plain concatenation
  with every duplicate kept, and `intersection` filters this list by
  membership in the other;
- display: `asString` and `asStringWithSeparator`.

## Layout

- `outcomes.dfy` (module `Outcomes`): the two error kinds, `IndexOutOfBounds`
  and `EmptyList`. `Result<T>` carries an element or an error, and `Outcome`
  carries done or an error. The Go code panics where the model returns `Err`
  or `Failed`. The triggering conditions are the same.
- `sequences.dfy` (module `Sequences`): what remove, swap, reverse,
  intersection and addAll do to a sequence, as functions, with their laws.
- `exchange_sort.dfy` (module `ExchangeSorting`): the two loops of `sort` as
  functions (`InnerPass`, `OuterPass`, `ExchangeSort`), and the proofs that
  the result is a permutation and is sorted for any strict order. This
  fixes the exact result, so the order of ties is pinned down too.
- `display.dfy` (module `Display`): rendering the elements and joining the
  texts with a separator.
- `list.dfy` (module `GoList`): the class `List<T>`. Its one field
  `items: seq<T>` is the owned slice. Every Go method is a member of the
  class. Methods that change the list say exactly what `items` becomes in
  terms of its old value. The loops of `contains`, `asString`,
  `asStringWithSeparator`, `reverse`, `sort` and `intersection` are
  `while`/`for` loops with invariants.
- `demo.dfy` (module `Demo`): the literal checks of `main.go` as assertions
  in client methods. They are proved from the contracts alone. Each
  computation on a literal (rendering, reversing, sorting, intersecting) is
  a small lemma.

Modelling choices:

- Element equality (`reflect.DeepEqual`) is Dafny's `==` on `T(==)`.
- Go's `fmt.Sprintf("%v")` formatting of an item is a parameter
  `toStr: T -> string` of the two display methods.
- `sort` takes any `compare: (T, T) -> bool` and has no precondition,
  exactly like the Go code. It always yields `ExchangeSort(old items)`, which
  is always a permutation. It is sorted when `compare` is a strict order
  (irreflexive and transitive) on the list's elements. Totality is not
  needed.
- `sort` is sometimes described as a selection sort that swaps a minimum
  into each position once. The code does something different, and the
  model follows the code. For each `i` it swaps slot `i` with EVERY later
  slot `j` whose element compares before slot `i`'s *current* element.
  Each position still ends up with a minimal element of the remaining
  suffix. But the order left in the suffix, and which of several equal
  elements lands where, differs from a single selection swap.
- `union` and `intersection` have no `modifies` clause, so neither operand
  can change. `append(other)` leaves `other` as it was unless `other` is
  the list itself. In that case the list is doubled, as in Go.

## Model

| member | source | states |
|---|---|---|
| `GoList.List.constructor` | list.go:28-30 | newList yields an empty list |
| `GoList.List.Add` | list.go:37-39 | the item is appended: items' == items + [item], so the size grows by 1 and the last slot holds item |
| `GoList.List.AddAll` | list.go:46-48 | items' == items + xs, which is also what adding the elements of xs one by one gives; a no-op for empty xs |
| `Sequences.AddEachIsConcat` | list.go:46-48 | adding the elements of xs one at a time in order equals appending xs at once |
| `GoList.List.Size` | list.go:55-57 | the size is the length of the owned sequence |
| `GoList.List.Get` | list.go:65-70 | succeeds exactly when 0 <= index < size, then returns items[index]; otherwise IndexOutOfBounds; reads only |
| `GoList.List.Remove` | list.go:78-85 | succeeds exactly when the index is in bounds, returning the old items[index] and leaving items[..index] + items[index+1..]; otherwise IndexOutOfBounds and no change |
| `Sequences.RemovedAtShifts` | list.go:82-83 | after remove, the size is one less, earlier slots are unchanged, later slots move one place toward the front, and one copy of the removed element is gone from the multiset |
| `Sequences.RemovedAtReinsert` | list.go:82-83 | inserting the removed element back at its index restores the original sequence |
| `GoList.List.Clear` | list.go:90-92 | the list becomes empty |
| `GoList.List.Contains` | list.go:100-107 | the linear scan returns true exactly when item occurs in the list |
| `GoList.List.IsEmpty` | list.go:114-116 | true exactly when the size is 0 |
| `GoList.List.Head` | list.go:123-128 | fails with EmptyList exactly when isEmpty holds, otherwise returns the first element |
| `GoList.List.Tail` | list.go:135-140 | fails with EmptyList exactly when isEmpty holds, otherwise returns the last element |
| `GoList.List.Pop` | list.go:145-150 | fails with EmptyList exactly on an empty list, leaving it unchanged; otherwise removes the front: items' == items[1..] |
| `GoList.List.Dequeue` | list.go:155-160 | fails with EmptyList exactly on an empty list, leaving it unchanged; otherwise removes the back: items' == items[..size-1] |
| `GoList.List.AsString` | list.go:167-177 | the loop yields "[" + the elements' texts joined by ", " + "]" ("[]" when empty) |
| `GoList.List.AsStringWithSeparator` | list.go:185-194 | the loop yields the elements' texts joined by the separator, without brackets |
| `Display.JoinOne` | list.go:171-173 | one element is rendered without any separator |
| `Display.JoinSnoc` | list.go:170-173 | each further element adds exactly one separator before its text |
| `Display.JoinStep` | list.go:169-174 | one iteration of the display loops extends the text for the first i parts to the first i+1 parts |
| `Display.JoinAppend` | list.go:185-194 | joining two non-empty runs of texts puts exactly one separator between them |
| `Display.JoinLength` | list.go:185-194 | the joined text is as long as all texts plus one separator fewer than there are elements |
| `GoList.List.Set` | list.go:202-207 | succeeds exactly when the index is in bounds and then replaces only that slot; size and every other slot unchanged; otherwise IndexOutOfBounds and no change |
| `GoList.List.Swap` | list.go:215-220 | succeeds exactly when both indices are in bounds and then exchanges the two slots; otherwise IndexOutOfBounds and no change; the multiset is always kept |
| `Sequences.SwappedAt` | list.go:219 | swap exchanges exactly the two slots and leaves the size and every other slot alone |
| `Sequences.SwappedSelf` | list.go:219 | swap(i, i) is a no-op |
| `Sequences.SwappedTwice` | list.go:219 | swap(i, j) done twice restores the original |
| `Sequences.SwappedPermutes` | list.go:219 | swap keeps the multiset of elements |
| `GoList.List.Reverse` | list.go:225-229 | the in-place loop leaves exactly the reverse of the old items |
| `Sequences.Reversed` | list.go:225-229 | the reverse has the same size as the original |
| `Sequences.ReversedAt` | list.go:227 | slot k of the reverse holds slot n-1-k of the original |
| `Sequences.ReversedTwice` | list.go:225-229 | reversing twice restores the original sequence |
| `GoList.List.Sort` | list.go:236-244 | the nested loops leave exactly ExchangeSort of the old items; always a permutation, and sorted when compare is a strict order on the elements |
| `ExchangeSorting.InnerPass` | list.go:238-242 | the inner loop keeps the size, the multiset and the slots before i |
| `ExchangeSorting.OuterPass` | list.go:237-243 | the outer loop keeps the size and the multiset |
| `ExchangeSorting.ExchangeSortPermutes` | list.go:236-244 | sort keeps the size and the multiset, for any compare |
| `ExchangeSorting.StrictOrderOnPermutation` | list.go:239-241 | reordering the elements keeps compare a strict order on them |
| `ExchangeSorting.SwapStepPlaces` | list.go:239-241 | a swap at j keeps the finished prefix final and slot i minimal among the slots up to j |
| `ExchangeSorting.InnerPassPlaces` | list.go:238-242 | with a strict order, after the inner loop for i slot i is final: no later element compares before it |
| `ExchangeSorting.OuterPassSorts` | list.go:237-243 | with a strict order, the outer loop run from a state with i final slots leaves a sorted list |
| `ExchangeSorting.ExchangeSortSorts` | list.go:236-244 | with a strict order, no later element compares before an earlier one; in particular compare(b, a) is false for every adjacent pair (a, b) |
| `ExchangeSorting.InnerPassKeepsSorted` | list.go:238-242 | on a sorted list the inner loop never swaps |
| `ExchangeSorting.OuterPassKeepsSorted` | list.go:237-243 | on a sorted list the outer loop changes nothing |
| `ExchangeSorting.ExchangeSortKeepsSorted` | list.go:236-244 | sort leaves an already sorted list as it is, for any compare |
| `ExchangeSorting.ExchangeSortIdempotent` | list.go:236-244 | with a strict order, sorting twice gives the same as sorting once |
| `GoList.List.Append` | list.go:251-253 | items' == items + other.items; other is unchanged unless it is this list |
| `GoList.List.Union` | list.go:261-266 | a fresh list holding this list's elements followed by other's, with no deduplication; its size is the sum of the sizes |
| `GoList.List.Intersection` | list.go:274-282 | a fresh list holding this list's elements that other contains, in this list's order; an element is in it exactly when it is in both, and its count is this list's count or 0 |
| `Sequences.IntersectMembers` | list.go:274-282 | an element is in the intersection exactly when it is in both lists |
| `Sequences.IntersectCount` | list.go:274-282 | the intersection keeps each element of other as often as this list holds it, and nothing else |
| `Sequences.IntersectAppend` | list.go:274-282 | the intersection of a concatenation is the concatenation of the intersections, so this list's order is kept |
| `Demo.RenderExample` | main.go:145-149 | 1, 2 and 3 render as "1", "2" and "3" |
| `Demo.TextExamples` | main.go:142-155 | [1, 2, 3] renders as "[1, 2, 3]" and, with "; ", as "1; 2; 3" |
| `Demo.ReverseExample` | main.go:178-185 | [3, 5, 1] reversed is [1, 5, 3] |
| `Demo.SortExample` | main.go:188-195 | [1, 5, 3] sorted by a < b is [1, 3, 5] |
| `Demo.IntersectExample` | main.go:227-237 | intersecting [1, 2, 3] with [3, 4, 5] gives [3] |

## Left out

- `formatError` (list.go:290-292): it only builds the ANSI-coloured panic
  text. The model keeps the error kind and drops the message.
- `itemToString` (list.go:8-10): Go's `%v` formatting is a foreign call.
  It is the `toStr` parameter, and `Demo.DecimalString` stands for it on
  `int` in the examples.
- The demonstration program `main.go` prints coloured pass/fail lines.
  The printing is left out; its checks are the `Demo` methods.
- Go slice aliasing: `remove` writes into the old backing array
  (`append(l.items[:index], ...)`), and `pop`/`dequeue` reslice it. A list
  exclusively owns its slice, so nothing can observe this, and the model
  uses value sequences.
- Go's `int` is 64 bits wide. Sizes and indices here are unbounded
  integers, since no list can reach 2^63 elements.
- A `compare` that panics or has side effects is not modelled. It is a
  pure total function here.
- Concurrency: the Go type is not safe for concurrent use, and the model
  is sequential.
