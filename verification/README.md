# inplace_vector: a verified model

This project models `inplace_vector<T, N>`, the fixed-capacity vector with inline storage from the C++26 draft standard (proposal P0843). The contract modelled is the one the test driver `TestInplaceVector.cpp` fixes, assertion by assertion, in its `main()`. A container holds at most `N` elements in storage embedded in the object; it never reallocates. Growth that would exceed `N` comes in three tiers:

- the checked operations fail with `bad_alloc`;
- the `try_` operations report failure with a null result;
- the `unchecked_` operations make room the caller's duty.

Modules:

- `Outcomes` (`outcomes.dfy`): the two error conditions (`CapacityExceeded`, whose message is "bad allocation", and `OutOfRange`, "inplace_vector::at") and the result shapes of the checked and fallible tiers.
- `Sequences` (`sequences.dfy`): what each bulk operation does to the live elements, stated on plain sequences: insertion at a position, erasure of a range, resizing, repetition, selection by a predicate (the specification of `erase`/`erase_if`) and the reverse view. The lemmas about them are proved here.
- `Ordering` (`ordering.dfy`): element-wise equality and lexicographic `<`, `>`, `<=`, `>=`, with the element order as a parameter. Proved: irreflexivity, asymmetry, transitivity, trichotomy, and that a proper prefix is less.
- `InplaceVectors` (`inplace_vector.dfy`): the class `InplaceVector<T>`.
  - State: the capacity `N`, an array `data` of `N` slots that is never replaced, and the live count `size`.
  - Methods: every member operation exercised by the driver, as methods that shift and copy slots in place with loop invariants. The bulk operations (insertion, erasure, resizing, `erase`/`erase_if`) are specified by the functions of `Sequences`; the others by appending, slicing or the other container's contents.
  - Also here: the non-member `erase` and `erase_if`, as single-pass compaction.
- `Scenarios` (`scenarios.dfy`): the driver's test blocks replayed against the model. Each method asserts the driver's checks on the steps it replays and pins down their outcome (final contents, returned values or the error reported) in its postcondition. Elements of the driver's class `M` are represented by their string member; `M{}` is the string "Initialized".

Positions (iterators) are indices into the live elements. An operation that returns a reference or an iterator returns the index of that element.

## Model

| member | source | states |
|---|---|---|
| InplaceVectors.InplaceVector.constructor | TestInplaceVector.cpp:114-125 | a default-constructed container is empty and its capacity is `N` |
| InplaceVectors.InplaceVector.FromSeq | TestInplaceVector.cpp:168-185 | the iterator, range and initializer-list constructors hold exactly the given elements; they fail with `CapacityExceeded` exactly when there are more than `N` |
| InplaceVectors.InplaceVector.FromCount | TestInplaceVector.cpp:141-166 | the count and count/value constructors hold `count` copies of the value; they fail exactly when `count > N` |
| InplaceVectors.InplaceVector.CopyOf | TestInplaceVector.cpp:187-193 | the copy constructor yields a fresh container with the same capacity and equal elements |
| InplaceVectors.InplaceVector.MoveOf | TestInplaceVector.cpp:195-216 | the move constructor yields a fresh container with the source's elements and leaves the source empty |
| InplaceVectors.InplaceVector.Size | TestInplaceVector.cpp:116-118 | `size()` is the number of live elements and never exceeds the capacity |
| InplaceVectors.InplaceVector.IsEmpty | TestInplaceVector.cpp:116-118 | `empty()` holds exactly when there are no live elements |
| InplaceVectors.InplaceVector.Capacity | TestInplaceVector.cpp:119-120 | `capacity()` and `max_size()` equal the number of storage slots and bound the size |
| InplaceVectors.InplaceVector.Reserve | TestInplaceVector.cpp:121-138 | `reserve(n)` changes nothing and fails with `CapacityExceeded` exactly when `n > N` |
| InplaceVectors.InplaceVector.ShrinkToFit | TestInplaceVector.cpp:123-125 | `shrink_to_fit()` leaves the capacity at `N` |
| InplaceVectors.InplaceVector.At | TestInplaceVector.cpp:333-348 | `at(pos)` yields element `pos` exactly when `pos < size`, and `OutOfRange` otherwise |
| InplaceVectors.InplaceVector.Get | TestInplaceVector.cpp:350-365 | `operator[]` on a live index yields that element |
| InplaceVectors.InplaceVector.Front | TestInplaceVector.cpp:367-399 | `front()` of a non-empty container is its first element |
| InplaceVectors.InplaceVector.Back | TestInplaceVector.cpp:367-399 | `back()` of a non-empty container is its last element |
| InplaceVectors.InplaceVector.Set | TestInplaceVector.cpp:973 | assignment through `operator[]` replaces that one element and nothing else |
| InplaceVectors.InplaceVector.UncheckedPushBack | TestInplaceVector.cpp:703-723 | with room, `unchecked_push_back` appends the element and returns its index, the old size |
| InplaceVectors.InplaceVector.PushBack | TestInplaceVector.cpp:725-749 | `push_back` appends and returns the new element's index; when full it fails with `CapacityExceeded` and leaves the contents unchanged |
| InplaceVectors.InplaceVector.TryPushBack | TestInplaceVector.cpp:681-701 | `try_push_back` appends and returns the index when there is room, and otherwise returns null and changes nothing |
| InplaceVectors.InplaceVector.PopBack | TestInplaceVector.cpp:751-781 | `pop_back` on a non-empty container removes exactly the last element |
| InplaceVectors.InplaceVector.AppendRange | TestInplaceVector.cpp:787-794 | `append_range` appends all of the range, or fails with `CapacityExceeded` and changes nothing when it does not fit |
| InplaceVectors.InplaceVector.TryAppendRange | TestInplaceVector.cpp:796-805 | `try_append_range` appends the longest prefix of the range that fits, in order; it returns the index of the first element not appended (`|s|` when all were) |
| InplaceVectors.InplaceVector.InsertRange | TestInplaceVector.cpp:579-627 | on success the range is spliced in at `pos` (`InsertAt`) and `pos` is returned; it fails with `CapacityExceeded`, changing nothing, exactly when the result would exceed `N` |
| InplaceVectors.InplaceVector.ShiftUp | TestInplaceVector.cpp:537-540 | the right shift keeps the slots below `pos` and moves each live slot from `pos` on up by `k` |
| InplaceVectors.InplaceVector.CopyIn | TestInplaceVector.cpp:584-591 | copying a range into `[pos, pos + |s|)` writes it in order and leaves every other slot unchanged |
| InplaceVectors.InplaceVector.Insert | TestInplaceVector.cpp:529-561 | `insert(pos, x)` and `emplace(pos, x)` put `x` at `pos` and return `pos`, or fail when full and change nothing |
| InplaceVectors.InplaceVector.InsertCount | TestInplaceVector.cpp:563-574 | `insert(pos, n, x)` splices in `n` copies of `x`, or fails when they do not fit and changes nothing |
| InplaceVectors.InplaceVector.EraseRange | TestInplaceVector.cpp:849-865 | `erase(first, last)` leaves exactly the elements outside `[first, last)`, in order, and returns `first`, which is the new end exactly when `last` was the old end |
| InplaceVectors.InplaceVector.ShiftDown | TestInplaceVector.cpp:830-833 | the left shift keeps the slots below `first` and moves each live slot from `last` on down to `first` |
| InplaceVectors.InplaceVector.Erase | TestInplaceVector.cpp:830-846 | `erase(pos)` on a live position removes exactly that element and returns `pos`, which is the new end exactly when the last element was erased |
| InplaceVectors.InplaceVector.Clear | TestInplaceVector.cpp:813-821 | `clear()` leaves the container empty |
| InplaceVectors.InplaceVector.Resize | TestInplaceVector.cpp:487-519 | `resize(n, v)` keeps the first `n` elements or pads with copies of `v` (`Resized`); it fails with `CapacityExceeded`, changing nothing, exactly when `n > N` |
| InplaceVectors.InplaceVector.Assign | TestInplaceVector.cpp:262-331 | `assign` of a range or list and list assignment replace the contents by exactly the given elements, or fail when they do not fit |
| InplaceVectors.InplaceVector.AssignCount | TestInplaceVector.cpp:278-293 | `assign(n, x)` replaces the contents by `n` copies of `x`, or fails when `n > N` |
| InplaceVectors.InplaceVector.CopyFrom | TestInplaceVector.cpp:236-246 | copy assignment leaves this container equal to the source as it was, and the source keeps its contents (self-assignment included) |
| InplaceVectors.InplaceVector.MoveFrom | TestInplaceVector.cpp:248-260 | move assignment takes the source's elements in order and leaves the source empty |
| InplaceVectors.InplaceVector.Swap | TestInplaceVector.cpp:916-947 | `swap` exchanges the contents of the two containers |
| InplaceVectors.EraseIf | TestInplaceVector.cpp:959-965 | `erase_if` keeps exactly the elements failing the predicate, in their original order, and returns the number removed, which is the number satisfying it |
| InplaceVectors.EraseValue | TestInplaceVector.cpp:954-957 | `erase(v, x)` keeps exactly the elements unequal to `x`, in order; no `x` remains; it returns the number of occurrences of `x` |
| Sequences.Repeat | TestInplaceVector.cpp:158-166 | `n` copies of `x`: length `n`, every element `x` |
| Sequences.Reversed | TestInplaceVector.cpp:442-448 | the reverse view has the same length, and its element `i` is element `|s| - 1 - i` |
| Sequences.ReversedTwice | TestInplaceVector.cpp:442-448 | reversing the reverse view gives the forward order back |
| Sequences.InsertAtIndex | TestInplaceVector.cpp:584-591 | after insertion, the elements before `p` are unchanged, the inserted ones sit at `[p, p + |t|)` in order, and the rest moved right by `|t|` |
| Sequences.InsertAtFromIndex | TestInplaceVector.cpp:584-591 | conversely, any sequence laid out that way is the insertion |
| Sequences.RemoveRangeIndex | TestInplaceVector.cpp:849-865 | after erasure, the elements before `first` are unchanged and the tail moved left by `last - first` |
| Sequences.RemoveAfterInsert | TestInplaceVector.cpp:584-591 | erasing what was just inserted restores the original contents |
| Sequences.InsertAfterRemove | TestInplaceVector.cpp:849-865 | re-inserting what was just erased restores the original contents |
| Sequences.RemoveEmptyRange | TestInplaceVector.cpp:856-857 | erasing an empty range changes nothing |
| Sequences.InsertEmpty | TestInplaceVector.cpp:593-594 | inserting an empty range changes nothing |
| Sequences.ResizedIndex | TestInplaceVector.cpp:499-515 | resizing to `n` yields `n` elements: the old ones up to `n`, then copies of the value |
| Sequences.ResizedSame | TestInplaceVector.cpp:492-493 | resizing to the current size is a no-op |
| Sequences.ResizedGrowShrink | TestInplaceVector.cpp:503-509 | growing and then shrinking back to the old size restores the contents |
| Sequences.SelectAppend | TestInplaceVector.cpp:959-965 | selection distributes over concatenation, so survivors keep their relative order |
| Sequences.SelectSatisfies | TestInplaceVector.cpp:959-965 | every survivor of `erase_if` fails the predicate |
| Sequences.SelectOccurrences | TestInplaceVector.cpp:954-965 | selection keeps every occurrence of a wanted value and none of any other value |
| Sequences.SelectPartition | TestInplaceVector.cpp:959-961 | the removed and the surviving elements together account for all of them |
| Sequences.SelectIdempotent | TestInplaceVector.cpp:959-965 | a second `erase_if` with the same predicate removes nothing more |
| Sequences.SelectNone | TestInplaceVector.cpp:959-965 | when no element is wanted, nothing is selected |
| Sequences.SelectAll | TestInplaceVector.cpp:959-965 | when every element is wanted, everything is selected |
| Sequences.SelectEqualToCount | TestInplaceVector.cpp:954-955 | the elements equal to `x` number the occurrences of `x` |
| Outcomes.Message | TestInplaceVector.cpp:138 | the text is "bad allocation" exactly for the capacity failures and "inplace_vector::at" exactly for the range failure of `at` (also checked at lines 346-347) |
| Ordering.Less | TestInplaceVector.cpp:975-981 | `a < b` holds exactly when some index decides it: all elements before it are pairwise unordered, `b` has an element there, and `a` has either run out or holds the smaller element |
| Ordering.Greater | TestInplaceVector.cpp:975-993 | `a > b` holds exactly when some index decides `b < a` in that sense |
| Ordering.LessOrEqual | TestInplaceVector.cpp:975-993 | over a strict total element order, `a <= b` holds exactly when `a < b` or `a == b` |
| Ordering.GreaterOrEqual | TestInplaceVector.cpp:975-993 | over a strict total element order, `a >= b` holds exactly when `b < a` or `a == b` |
| Ordering.Equal | TestInplaceVector.cpp:970-974 | `==` holds exactly when sizes and all elements are equal |
| Ordering.PrefixIsLess | TestInplaceVector.cpp:968-994 | for any element relation, a proper prefix is less than the sequence it starts |
| Ordering.LessIrreflexive | TestInplaceVector.cpp:991-993 | no container is less than itself, so equal containers satisfy `>=` and `<=` |
| Ordering.LessAsymmetric | TestInplaceVector.cpp:975-978 | `a < b` and `b < a` never hold together |
| Ordering.LessTransitive | TestInplaceVector.cpp:968-994 | over a strict total element order, `<` is transitive |
| Ordering.LessTrichotomy | TestInplaceVector.cpp:968-994 | over a strict total element order, exactly one of `a < b`, `a == b` and `b < a` holds |
| Ordering.SizeFirstLess | TestInplaceVector.cpp:979-981 | an order consistent with these assertions (not the only one): a shorter container is less, a longer one never, and equal sizes are decided lexicographically |
| Ordering.SizeFirstAgreesOnEqualSizes | TestInplaceVector.cpp:975-978 | the size-first order agrees with the lexicographic one on containers of equal size |
| Ordering.SizeFirstDisagrees | TestInplaceVector.cpp:979-981 | on `[2]` and `[1, 2]` the size-first order makes `[2]` the smaller and the lexicographic order makes it the greater |
| Scenarios.StringLess | TestInplaceVector.cpp:96-99 | `M`'s `operator<` holds exactly when some index decides it lexicographically over the characters of the string member |
| Scenarios.StringLessTotal | TestInplaceVector.cpp:96-99 | `M`'s `operator<` is a strict total order on the string member (irreflexive, transitive, total on distinct strings) |
| Scenarios.StringLessIrreflexive | TestInplaceVector.cpp:96-99 | `M`'s `operator<`, on the string member, is irreflexive |
| Scenarios.CapacityBlock | TestInplaceVector.cpp:114-139 | `reserve` and `shrink_to_fit` leave the capacities 100 and 10 and the sizes 0; `reserve(11)` on the capacity-10 container fails with "bad allocation" |
| Scenarios.CountCtorBlock | TestInplaceVector.cpp:141-166 | the count constructors hold three default values and three 42s |
| Scenarios.CopyMoveBlock | TestInplaceVector.cpp:187-216 | a copy compares equal; moving three 42s, and then three `M{}`, leaves each source empty and unequal to its destination, which holds the three elements with capacity 4 |
| Scenarios.RangeCtorBlock | TestInplaceVector.cpp:168-185 | the iterator-pair and range constructors of `{1, 2, 3}` hold `1 2 3` |
| Scenarios.InitListBlock | TestInplaceVector.cpp:218-234 | `{1, 2, 3}` fits in four slots; in two slots it fails with `CapacityExceeded` |
| Scenarios.CopyAssignBlock | TestInplaceVector.cpp:236-246 | after copy assignment the empty target holds the ten "copied from" elements of the source, and assigning an empty container empties the other |
| Scenarios.MoveAssignBlock | TestInplaceVector.cpp:248-260 | move assignment from a temporary empties the target; from a named container it takes `["iv", "iv"]` and empties the source |
| Scenarios.InitListAssignBlock | TestInplaceVector.cpp:262-331 | list assignment and the range `assign` forms give `["a", "b", "c"]` and `[1, 2, 3]` |
| Scenarios.AssignBlock | TestInplaceVector.cpp:278-293 | `assign(1, m)` then `assign(3, m)` leave three `m`s |
| Scenarios.AtBlock | TestInplaceVector.cpp:333-348 | `at` below the size succeeds; `at(3)` on three elements fails with "inplace_vector::at" |
| Scenarios.FrontBackBlock | TestInplaceVector.cpp:367-399 | `front` and `back` coincide on one element and differ after an `emplace` at the end |
| Scenarios.IteratorBlock | TestInplaceVector.cpp:429-448 | `*begin()`, `*(end() - 1)`, `*rbegin()` and `*(rend() - 1)` are 1.0, 3.0, 3.0 and 1.0 |
| Scenarios.ResizeBlock | TestInplaceVector.cpp:487-519 | the resize sequence ends with ten elements, "Initialized" at index 3 and "a" from 4 on; `resize(11)` and `resize(11, mA)` both fail with `CapacityExceeded` |
| Scenarios.SubscriptBlock | TestInplaceVector.cpp:350-365 | `operator[]` at 0 and 1 of three `M{}` yields "Initialized" |
| Scenarios.InsertSingleSteps | TestInplaceVector.cpp:529-561 | six single insertions give `c b Initialized c a a` |
| Scenarios.InsertBlock | TestInplaceVector.cpp:523-574 | inserting two more copies at the front gives eight elements; three more fail and leave eight |
| Scenarios.InsertRangeSteps | TestInplaceVector.cpp:576-610 | range insertions at the end, in the middle and of nothing give `1 2 1 2 3 3 1 2 3`; `insert(begin, 3, 42)` then fails |
| Scenarios.InsertRangeBlock | TestInplaceVector.cpp:576-627 | after `clear`, two `insert_range` calls and a third give `1 1 2 3 2 3 1 2 3` |
| Scenarios.EmplaceBlock | TestInplaceVector.cpp:630-655 | `emplace` at the end, the end and the front gives `c a b`; a fourth fails |
| Scenarios.EmplaceBackBlock | TestInplaceVector.cpp:657-723 | each tier fills three slots with `a b c`; on the full container the checked form fails and the try form returns null |
| Scenarios.PushBackBlock | TestInplaceVector.cpp:725-749 | the tiers interleaved with `pop_back` give `a b c`; `try_push_back` then returns null and `push_back` fails |
| Scenarios.PopBackBlock | TestInplaceVector.cpp:751-781 | `pop_back` leaves `[a]` and `["a"]` |
| Scenarios.AppendRangeBlock | TestInplaceVector.cpp:783-806 | `append_range` fills three slots and then fails; `try_append_range` takes one element, then none, then reports an empty range as fully taken |
| Scenarios.PushFive | TestInplaceVector.cpp:824-829 | five `push_back`s give `a b c d e` |
| Scenarios.EraseFrontAndMiddle | TestInplaceVector.cpp:830-836 | erasing `a` returns the position of `b`, erasing `c` returns the position of `d`, leaving `b d e` |
| Scenarios.EraseAtBlock | TestInplaceVector.cpp:808-847 | erasing the last element returns the new end; two front erasures empty the container |
| Scenarios.EraseRangeBlock | TestInplaceVector.cpp:849-865 | an empty range removes nothing, `[1, 3)` removes `b c`, and the whole range empties the container and returns the end |
| Scenarios.SwapBlock | TestInplaceVector.cpp:916-947 | `swap` exchanges `1 2 3 4 5` and `5 4 3 2 1`; two swaps of `a b` and `x y` restore them |
| Scenarios.EraseThreeFromIota | TestInplaceVector.cpp:954-957 | erasing 3 from 0..9 leaves 0..9 without 3, in order |
| Scenarios.ThreeOccursOnce | TestInplaceVector.cpp:954-955 | 0..9 holds exactly one 3 |
| Scenarios.EraseEvensFromRest | TestInplaceVector.cpp:959-965 | erasing the even values leaves `1 5 7 9` and removes five |
| Scenarios.EraseThreeStep | TestInplaceVector.cpp:954-955 | `erase(iv, 3)` on 0..9 returns 1 |
| Scenarios.EraseIfBlock | TestInplaceVector.cpp:949-966 | `erase` returns 1 with `iv[2] == 2` and `iv[3] == 4`; `erase_if` returns 5 and leaves `1 5 7 9` |
| Scenarios.ComparisonBlock | TestInplaceVector.cpp:968-981 | the equality and ordering checks before `pop_back` hold; after it, `[2] < [1, 2]` holds under the size-first order and fails under the lexicographic one |
| Scenarios.ComparisonOfMBlock | TestInplaceVector.cpp:983-993 | with `M` elements, "a" before "Initialized" orders `ivX` above `ivY`; once equal again, `>=` and `<=` both hold |
| Scenarios.CppReferenceBlock | TestInplaceVector.cpp:996-1022 | the cppreference walk-through: after `resize(3)` a `try_push_back` fits, the next returns null, `back()` stays 3, and `clear` empties |

## Left out

- The implementation header `inplace_vector.h` is not part of this model. The contract comes from the driver's assertions and the P0843 semantics they follow.
- The `test`/`testex` macros, `TryCatch` and `Util::DebugBreak` are test-harness and exception plumbing. Exceptions are modelled as `Result`/`Status`/`Option` values.
- The driver's debug-assert cases become `requires` clauses rather than runtime errors. These are `erase(end())`, `pop_back()` on empty, `operator[]` past the end, `front()`/`back()` on empty, and `unchecked_push_back` when full.
- Class `M` is represented by its string member, the only part on which the test blocks' outcomes depend. Every `M` comparison in the driver either has equal other members or differs in the string. Not modelled: its `vector<int>` and `shared_ptr<float>` members, its destructor's poisoning of a destroyed object, and equality on those members.
- `data()` pointer identity and the `memcmp` layout checks (TestInplaceVector.cpp:401-427) are raw-memory facts.
- Iterator-object identity and the const/non-const overload equalities (TestInplaceVector.cpp:429-485) are type-level details. Positions are indices, and only the element values read through the iterators are modelled.
- A copy between different capacities is rejected at compile time (TestInplaceVector.cpp:190). This is a type-system matter; `CopyFrom` and `MoveFrom` require equal capacities.
- The `double` elements of the iterator block are modelled as `real`; floating-point behaviour is not modelled.
- `std::ranges::iota` in the erase block is replaced by assigning 0..9 to the container that `iv(10, 0)` created.
- `std::swap` on two containers is modelled as the member `Swap`, which has the same effect.
- TestInplaceVector.cpp:615, `test( ivI[ 2 ] = 3 )`, assigns rather than compares. It is replayed only as the size check next to it.
- The clear/erase sequence with `M` elements (TestInplaceVector.cpp:866-913) fills its container differently, with `push_back(M{})`, `clear` and `append_range`. It then repeats the erase steps of the `char` sequence at TestInplaceVector.cpp:823-865. Only the `char` sequence is replayed.
- InplaceVectors.InplaceVector.Resize: `resize(n)` takes the value-initialised element as an explicit argument, because a generic `T` has no default value the model can name.
- InplaceVectors.InplaceVector.FromCount: the count constructor `iv(n)` (TestInplaceVector.cpp:141-156) takes the value-initialised element as an explicit argument, for the same reason as `Resize`.
- InplaceVectors.InplaceVector.Assign: a failing `assign` is modelled as changing nothing. The driver never makes `assign` fail, and the standard leaves the contents after the exception unspecified.
- InplaceVectors.InplaceVector.MoveFrom: self-move assignment is excluded by requiring distinct storage. The driver never moves a container into itself.
- InplaceVectors.InplaceVector.Swap: the two containers must be the same object or own distinct storage. That holds for every pair of containers, since each one's storage is embedded in it.
- The storage slots outside the live prefix hold arbitrary values of `T` rather than uninitialised memory, so `T` must have a default value (`T(0)`). Construction and destruction of elements in those slots are not modelled.

## Findings

| source | as written | input that shows it | evidently intended | confidence | as-written member | corrected member |
|---|---|---|---|---|---|---|
| TestInplaceVector.cpp:979-981 | after `pop_back`, the driver asserts `ivA < ivB` and `ivB > ivA`. These fail under the lexicographic order; they hold under non-standard orders such as a size-first one (`SizeFirstLess`) | `ivA == [2]`, `ivB == [1, 2]`: lexicographically `[2] > [1, 2]` because `2 > 1` decides at the first element | P0843 orders containers lexicographically, so the expected results should read `ivA > ivB` and `ivB < ivA`, or the header implements a non-standard order | medium, not executed | Ordering.SizeFirstDisagrees | Ordering.LessTrichotomy |
