# A verified model of `Vector<T>` and its iterator

This project models the generic growable array `Vector<T>` of `vector.h` in Dafny.
The model includes its random-access `Iterator`, and it proves what the container
promises about its contents and its capacity.

The container has three fields: `size`, `cap` and an owned buffer `buf` with
`cap` slots. The first `size` slots hold the live elements. The ghost function
`Contents()` is the list of live elements. Every operation is specified by how it
changes `Contents()`, `cap` and `buf`. `Valid()` (`size <= cap == buf.Length`) is
kept by every operation. The absent buffer of `vector.h` (`data_ == nullptr`) is modelled
as a buffer of length 0, which behaves like an allocated buffer of capacity 0.

Modules:

- `Growth`: the capacity rule of `relocate` and what it gives over a run of appends.
  Capacity after `n` appends from empty is the least power of two at or above `n`.
  The elements copied by those reallocations number one less than that capacity,
  so fewer than `2n`.
- `Sequences`: the effect of `insert`, `erase`, `resize` and `assign` on a list of
  elements, with the lemmas that relate these effects to each other.
- `Iterators`: the iterator as an offset from the first slot. `begin()` is offset
  0 and `end()` is offset `size`.
- `ArrayOps`: the buffer loops the container is built from. These are `std::copy`,
  `std::fill`, and the one-slot shifts of `insert` and `erase`.
- `Vectors`: the class `Vector<T>` itself.
- `Scenarios`: client methods that follow the scenarios `Basic`, `Copy`,
  `Iterators` and `Equal` of `test.cpp` step by step, plus an insert and erase at
  offset 2. `EqualScenario` adds steps of its own: a `reserve(10)` on one side, to
  show that equality ignores capacity, and two `at` checks after the append. They use only the contracts of `Vectors`, so they show that the
  contracts fix the outcome the tests expect. The two range-for loops of
  `Iterators` are loops over iterators here, with their invariants.

Where `vector.h` value-initialises slots with `T()`, the model passes that value in
as a parameter `init`. This happens in `Vector(n)` and in `resize(n)`. A generic
Dafny type has no canonical default value.

This version of `vector.h` differs from `std::vector` in these ways, and the model follows the code:

- `reserve` never checks `max_size` and never raises a length error.
- Relocation always copies elements; it never moves them.
- `begin()` and `end()` return the null iterator only when there is no buffer.
  In the offset model both are offset 0 for any empty vector either way.
- `distance` is the unsigned difference `last - first`. It is defined here only
  when `first` is not after `last`, which holds wherever the vector uses it.

## Model

| member | source | states |
|---|---|---|
| `Growth.GrowthTarget` | vector.h:485-491 | relocation always makes room for one more element, and asks for exactly twice the size when the vector is not empty |
| `Growth.NextCapacity` | vector.h:396-402 | making room for one element: the capacity never shrinks and then exceeds the size; it is unchanged when the buffer had room, and becomes 1 (empty) or twice the size when the buffer was full |
| `Growth.CapacityAfterPushesIsPowerOfTwo` | vector.h:485-491 | after `n > 0` appends from empty the capacity is a power of two in `[n, 2n)` |
| `Growth.CopiesAfterPushesAmortised` | vector.h:337-338 | the elements copied by relocations during `n > 0` appends from empty are one fewer than the final capacity, hence fewer than `2n`: appends cost amortised constant time |
| `Sequences.Repeat` | vector.h:206-211 | `count` elements, each equal to the given value |
| `Sequences.InsertAt` | vector.h:362-372 | one element longer; the new value sits at the offset, earlier elements keep their places, later ones move one place right |
| `Sequences.EraseAt` | vector.h:388-394 | one element shorter; earlier elements keep their places, later ones move one place left |
| `Sequences.Resized` | vector.h:425-449 | exactly `n` elements; the old elements that fit keep their places, every new slot holds the fill value |
| `Sequences.EraseUndoesInsert` | vector.h:362-394 | erasing at the offset just inserted at restores the original contents |
| `Sequences.InsertUndoesErase` | vector.h:362-394 | inserting an erased element back at its offset restores the original contents |
| `Sequences.InsertAtEndIsAppend` | vector.h:396-402 | inserting at the end offset is the same as appending with `push_back` |
| `Sequences.EraseLastIsDropLast` | vector.h:421-423 | erasing the last element is the same as `pop_back` |
| `Sequences.ResizeGrowThenShrink` | vector.h:425-449 | growing and then resizing back to the old size restores the contents; resizing to the current size changes nothing |
| `Iterators.Iterator.Advance` | vector.h:77-80 | `+= n` lands exactly `n` slots after the iterator |
| `Iterators.Iterator.Next` | vector.h:45-54 | `++` moves exactly as `+= 1` does |
| `Iterators.Iterator.Prev` | vector.h:56-65 | `--` is undone by `++` and moves exactly as `-= 1` does |
| `Iterators.Iterator.Retreat` | vector.h:82-85 | `-= n` moves to the slot from which `+= n` returns, so `+= n` undoes it |
| `Iterators.Iterator.Plus` | vector.h:103-109 | `it + n` and `n + it` give the iterator that `it += n` would produce |
| `Iterators.Iterator.Eq` | vector.h:115-117 | two iterators compare equal exactly when they designate the same slot |
| `Iterators.Iterator.Ne` | vector.h:119-121 | `!=` is the negation of `==` |
| `Iterators.AdvanceIsSteps` | vector.h:45-80 | `+= n` gives the same iterator as `n` successive applications of `++` |
| `Iterators.AdvanceThenSteps` | vector.h:45-80 | `n` applications of `++` after `+= m` reach the iterator that `m + n` applications of `++` reach |
| `Iterators.AdvanceThenRetreat` | vector.h:77-85 | `-= n` undoes `+= n` |
| `ArrayOps.CopyRange` | vector.h:337-338 | the first `n` slots of the target equal those of the source; the target's other slots are untouched |
| `ArrayOps.CopySeq` | vector.h:136-139 | the front of the buffer holds the list in order; the rest is untouched |
| `ArrayOps.Fill` | vector.h:210 | every slot of the range holds the value; slots outside the range are untouched |
| `ArrayOps.ShiftRight` | vector.h:368 | the elements of `[id, n)` now sit one slot to the right; slots before `id` and after `n` are untouched |
| `ArrayOps.ShiftLeft` | vector.h:391 | the elements of `[id+1, n)` now sit one slot to the left, over slot `id`; slots before `id` are untouched |
| `Vectors.Vector.constructor` | vector.h:130 | a new vector has no elements and capacity 0 |
| `Vectors.Vector.Sized` | vector.h:132-134 | `n` value-initialised elements and capacity exactly `n` |
| `Vectors.Vector.FromSeq` | vector.h:136-147 | the given elements in order, with capacity exactly their number |
| `Vectors.Vector.Copy` | vector.h:149-156 | a deep copy in a fresh buffer: same elements, same capacity as `other`, which is not changed |
| `Vectors.Vector.Move` | vector.h:158-162 | takes over the buffer, elements and capacity of `other`, which is left with no elements and capacity 0 |
| `Vectors.Vector.CopyFrom` | vector.h:165-182 | self-assignment changes nothing; otherwise the elements and capacity of `other` are copied into a fresh buffer and `other` is not changed |
| `Vectors.Vector.MoveFrom` | vector.h:184-196 | self-assignment changes nothing; otherwise the buffer, elements and capacity change owner and `other` is left with no elements and capacity 0 |
| `Vectors.Vector.Assign` | vector.h:206-211 | `count` copies of the value in a fresh buffer of capacity exactly `count` |
| `Vectors.Vector.AssignSeq` | vector.h:213-225 | the given elements in a fresh buffer whose capacity is exactly their number |
| `Vectors.Vector.At` | vector.h:228-242 | out of range exactly when `pos` is not below the size, otherwise the element at `pos`; no state changes |
| `Vectors.Vector.Get` | vector.h:244-250 | the element at an in-range position |
| `Vectors.Vector.Front` | vector.h:252-258 | the first element of a non-empty vector |
| `Vectors.Vector.Back` | vector.h:260-266 | the last element of a non-empty vector |
| `Vectors.Vector.Set` | vector.h:244-246 | writing through the element reference changes that element and nothing else |
| `Vectors.Vector.SetAt` | vector.h:228-234 | writing through `at` fails exactly when `pos` is not below the size, and then changes nothing; otherwise only that element changes |
| `Vectors.Vector.Begin` | vector.h:277-287 | `begin()` is the first slot, offset 0; for a non-empty vector it is a live slot holding the front |
| `Vectors.Vector.End` | vector.h:289-317 | `end()` lies `size` slots after `begin()`, equals `begin()` exactly when the vector is empty, and its predecessor holds the back |
| `Vectors.Vector.Deref` | vector.h:87-93 | dereferencing an iterator at a live slot gives the element at its offset |
| `Vectors.Vector.Distance` | vector.h:493-495 | the distance is the number of slots that, added to `first`, reaches `last` |
| `Vectors.Vector.Empty` | vector.h:320-322 | true exactly when there are no elements |
| `Vectors.Vector.Size` | vector.h:324-326 | the number of elements |
| `Vectors.Vector.Capacity` | vector.h:343-345 | the buffer's length, never below the size |
| `Vectors.Vector.Reserve` | vector.h:332-341 | no change at all when the request is at most the capacity; otherwise capacity exactly the request in a fresh buffer, with the same elements |
| `Vectors.Vector.ShrinkToFit` | vector.h:347-356 | capacity becomes the size with the same elements; a buffer with spare room is replaced by a fresh one |
| `Vectors.Vector.Relocate` | vector.h:485-491 | same elements; capacity becomes at least 1 for an empty vector and at least twice the size otherwise, and any growth means a fresh buffer |
| `Vectors.Vector.Clear` | vector.h:358-360 | no elements; capacity and buffer kept |
| `Vectors.Vector.Insert` | vector.h:362-384 | the value placed at the iterator's offset with later elements shifted right; capacity follows the doubling rule when full and is kept, with the same buffer, otherwise; the result designates the inserted element |
| `Vectors.Vector.InsertOwnElementAsWritten` | vector.h:362-372 | `insert(pos, (*this)[src])` with a spare slot, as written: the element stored is read after the shift (see Findings) |
| `Vectors.Vector.InsertOwnElement` | vector.h:362-372 | `insert(pos, (*this)[src])` as meant: the element of slot `src` is inserted at the offset, with or without relocation; capacity follows the doubling rule, the buffer is kept when there was room and is fresh after relocation |
| `Sequences.InsertReadAfterShift` | vector.h:368-369 | the contents left by the aliased insert as written |
| `Sequences.InsertReadAfterShiftCorrectIff` | vector.h:368-369 | the aliased insert stores the referenced element exactly when it lies at or before the offset or equals its left neighbour |
| `Sequences.InsertReadAfterShiftCounterexample` | vector.h:368-369 | `{1, 2}`, inserting slot 1 at offset 0, gives `{1, 1, 2}` as written and `{2, 1, 2}` as meant |
| `Vectors.Vector.Erase` | vector.h:388-394 | the element at the iterator's offset removed with later elements shifted left; capacity and buffer kept; the result designates the following slot |
| `Vectors.Vector.PushBack` | vector.h:396-410 | the value appended; capacity follows the doubling rule when full and is kept, with the same buffer, otherwise |
| `Vectors.Vector.EmplaceBack` | vector.h:412-419 | the constructed value appended on the same growth path as `push_back` |
| `Vectors.Vector.PopBack` | vector.h:421-423 | the last element dropped from a non-empty vector; capacity and buffer kept |
| `Vectors.Vector.Resize` | vector.h:425-439 | the same size changes nothing; growing keeps the elements, fills new slots with `T()` and makes the capacity the larger of old capacity and new size; shrinking keeps the prefix in a fresh buffer of capacity exactly the new size |
| `Vectors.Vector.ResizeWith` | vector.h:441-449 | as `resize(n)`, but new slots hold the given value |
| `Vectors.Vector.Swap` | vector.h:451-455 | the two vectors exchange elements, capacities and buffers |
| `Vectors.Vector.Equal` | vector.h:462-474 | equal exactly when the sizes match and the elements are pairwise equal, whatever the capacities |
| `Vectors.Vector.NotEqual` | vector.h:476-478 | the negation of `==` |

## Left out

- Memory management is not modelled: `unique_ptr` allocation and release, the destructor, `data()` and `GetPointer()`. Buffers are Dafny arrays that are never freed.
- Buffer contiguity (element addresses one element apart) is not modelled; it is a fact about addresses, not contents.
- `max_size()` is not modelled. Sizes are unbounded naturals, so `2 * size` in `relocate` never wraps.
- The iterator operators that add or subtract two pointers are not modelled: `+=` and `-=` taking an iterator, `it + it` and `it - it`. They have no meaning as offsets.
- The iterator's copy and move constructors and assignments are not modelled. An iterator is a value here, and the move operations' resetting of the source iterator to null is not modelled. The move assignment's `return;` in a non-void function is ill-formed.
- Postfix `it++` and `it--` are not modelled separately. The value model has no separate return value: `it` keeps its old value and `it.Next()` or `it.Prev()` is the moved iterator.
- The const overloads, `cbegin` and `cend` behave like the non-const ones and are not modelled separately. The `T&&` overloads of `insert` and `push_back` are not modelled separately either.
- `operator=(std::initializer_list<T>)` has no `return`; only its effect on the contents and capacity is modelled, by `AssignSeq`.
- `insert` moves the tail with a forward `std::copy` into an overlapping range, which is undefined. The model performs the intended right shift, back to front (`ShiftRight`).
- `end()` on an empty but allocated buffer forms `&data_[size_ - 1]`. The model takes it as offset `size`, like every other `end()`.
- Undefined behaviour is excluded by `requires`, not modelled: `operator[]` out of range, `front`, `back` and `pop_back` on an empty vector, and iterators dereferenced outside the live elements or moved before the first slot.
- Iterator invalidation after reallocation is not tracked. An iterator is a bare offset, so it stays meaningful only as a position in the new buffer.
- Aliasing between vectors: the contracts do not state that two vectors never share a buffer. Every constructor and every reallocation states that it yields a fresh buffer, and only `Move`, `MoveFrom` and `Swap` hand a buffer over, so clients can derive separation from `fresh`.
- Vectors.Vector.FromSeq: models the range `first, last` as the sequence it denotes, which matches vector.h:140-146 only for multi-pass iterators. The constraint admits any input iterator, and with a single-pass one `std::distance` (vector.h:143) consumes the range, so `std::copy` (vector.h:145) stores only the element the iterator still holds: an `std::istream_iterator<int>` over "1 2 3" gives `{1, 0, 0}` with size and capacity 3. That result is not modelled.
- Vectors.Vector.AssignSeq: models the range `first, last` as the sequence it denotes, which matches vector.h:213-219 only for multi-pass iterators; a single-pass range leaves only its first element followed by `T()` slots, as for `FromSeq`, and is not modelled. Iterators into the same vector are read after vector.h:217 has freed the old buffer; that undefined read is not modelled either.
- Vectors.Vector.Insert: takes the value by value. `vector.h` takes `const T&`, which may refer to an element of the same vector; that case is modelled only by `InsertOwnElementAsWritten` and `InsertOwnElement` (see Findings), and when the buffer is full `vector.h` reads the reference after `relocate` has freed the old buffer, which is undefined and not modelled.
- Vectors.Vector.PushBack: takes the value by value. With a `const T&` to an element of the same full vector, `vector.h` reads it after `relocate` has freed the old buffer (vector.h:397-401); that undefined read is not modelled.
- Vectors.Vector.EmplaceBack: takes the constructed value. Arguments that refer to an element of the same full vector are read after `relocate` has freed the old buffer (vector.h:414-418); that undefined read is not modelled.
- Vectors.Vector.ResizeWith: takes the fill value by value. A `const T&` to an element of the same vector is read after `reserve` has freed the old buffer when `n` exceeds the capacity (vector.h:443-444); that undefined read is not modelled.
- Vectors.Vector.Assign: takes the value by value. A `const T&` to an element of the same vector is read after the old buffer has been released (vector.h:209-210); that undefined read is not modelled.
- Exception safety is not modelled: a copy of `T` cannot fail in the model.
- The slots past `size` are unspecified in `vector.h` and are not described by the contracts.

## Findings

| source | as written | input that shows it | evidently intended | confidence | as-written member | corrected member |
|---|---|---|---|---|---|---|
| vector.h:362-372 | `insert(pos, value)` takes `value` by reference, shifts `[id, size)` right, then reads `value`; when `value` is an element after `pos` of the same vector, it reads that slot's left neighbour | `a = {1, 2}`, `a.reserve(3)`, `a.insert(a.begin(), a[1])` gives `{1, 1, 2}` | `{2, 1, 2}`, as `std::vector::insert` requires for a reference into the vector | not executed | `Vectors.Vector.InsertOwnElementAsWritten`, `Sequences.InsertReadAfterShiftCounterexample` | `Vectors.Vector.InsertOwnElement` |
