/** The growable array `Vector<T>`: a buffer of `cap` slots of which the first `size`
    hold the live elements. The absent buffer of `vector.h` (a null `data_`) is a buffer of
    length 0, which behaves the same as an allocated buffer of capacity 0.

    Where `vector.h` value-initialises new slots (`T()`), the model takes that value as
    a parameter `init`, since a generic Dafny type has no canonical default. */
module Vectors {
  import opened Growth
  import opened Sequences
  import opened Iterators
  import opened ArrayOps

  /** The result of the bounds-checked accessor `at`: the element, or the
      out-of-range error `vector.h` throws. */
  datatype Checked<T> = Ok(value: T) | OutOfRange

  class Vector<T(0,==)> {
    var size: nat
    var cap: nat
    var buf: array<T>

    /** The object invariant: the buffer has `cap` slots and the live elements fit. */
    ghost predicate Valid()
      reads this
    {
      size <= cap && cap == buf.Length
    }

    /** The live elements, in order. */
    ghost function Contents(): seq<T>
      reads this, buf
      requires Valid()
    {
      buf[..size]
    }

    // ---- construction and assignment ----

    /** `Vector()`: no elements and no buffer. */
    constructor ()
      ensures Valid() && fresh(buf)
      ensures Contents() == [] && cap == 0
    {
      size, cap := 0, 0;
      buf := new T[0];
    }

    /** `Vector(n)`: `n` value-initialised elements and no spare capacity. */
    constructor Sized(n: nat, init: T)
      ensures Valid() && fresh(buf)
      ensures Contents() == Repeat(init, n) && cap == n
    {
      var a := new T[n];
      Fill(a, 0, n, init);
      size, cap, buf := n, n, a;
    }

    /** `Vector(std::initializer_list<T>)` and `Vector(first, last)` over a multi-pass
      range: the given elements in order, and no spare capacity. */
    constructor FromSeq(s: seq<T>)
      ensures Valid() && fresh(buf)
      ensures Contents() == s && cap == |s|
    {
      var a := new T[|s|];
      CopySeq(s, a);
      size, cap, buf := |s|, |s|, a;
    }

    /** Copy construction: a deep copy of the live elements into a fresh buffer of the
      capacity of `other`, which is left as it was. */
    constructor Copy(other: Vector<T>)
      requires other.Valid()
      ensures Valid() && fresh(buf)
      ensures Contents() == other.Contents() && cap == other.cap
    {
      var a := new T[other.cap];
      CopyRange(other.buf, a, other.size);
      size, cap, buf := other.size, other.cap, a;
    }

    /** Move construction: takes over the buffer, size and capacity of `other`
      and leaves `other` with no elements and capacity 0. */
    constructor Move(other: Vector<T>)
      requires other.Valid()
      modifies other
      ensures Valid() && other.Valid()
      ensures buf == old(other.buf) && Contents() == old(other.Contents()) && cap == old(other.cap)
      ensures other.Contents() == [] && other.cap == 0 && fresh(other.buf)
    {
      size, cap, buf := other.size, other.cap, other.buf;
      new;
      other.size, other.cap := 0, 0;
      other.buf := new T[0];
    }

    /** Copy assignment `*this = other`. Self-assignment changes nothing; otherwise
      the live elements of `other` are copied into a fresh buffer of `other`'s
      capacity, and `other` is left as it was. */
    method CopyFrom(other: Vector<T>)
      requires Valid() && other.Valid()
      modifies this
      ensures Valid()
      ensures this == other ==> unchanged(this)
      ensures this != other ==> fresh(buf) && unchanged(other)
      ensures Contents() == old(other.Contents()) && cap == old(other.cap)
    {
      if this == other {
        return;
      }
      if other.cap == 0 {
        // `other` has no buffer (or an empty one): reset to empty
        size, cap := 0, 0;
        buf := new T[0];
        return;
      }
      size, cap := other.size, other.cap;
      var a := new T[cap];
      CopyRange(other.buf, a, other.size);
      buf := a;
    }

    /** Move assignment `*this = std::move(other)`. Self-assignment changes nothing;
      otherwise the buffer changes owner and `other` is left empty with capacity 0. */
    method MoveFrom(other: Vector<T>)
      requires Valid() && other.Valid()
      modifies this, other
      ensures Valid() && other.Valid()
      ensures this == other ==> unchanged(this)
      ensures this != other ==>
        buf == old(other.buf) && Contents() == old(other.Contents()) && cap == old(other.cap)
      ensures this != other ==> other.Contents() == [] && other.cap == 0 && fresh(other.buf)
    {
      if this == other {
        return;
      }
      buf := other.buf;
      size, cap := other.size, other.cap;
      other.buf := new T[0];
      other.size, other.cap := 0, 0;
    }

    /** `assign(count, value)`: `count` copies of `value` in a fresh buffer of exactly
      `count` slots. */
    method Assign(count: nat, value: T)
      modifies this
      ensures Valid() && fresh(buf)
      ensures Contents() == Repeat(value, count) && cap == count
    {
      size, cap := count, count;
      var a := new T[size];
      Fill(a, 0, count, value);
      buf := a;
    }

    /** `assign(first, last)` over a multi-pass range outside this vector,
      `assign(std::initializer_list<T>)` and `operator=(std::initializer_list<T>)`:
      the given elements in a fresh buffer of exactly their number. */
    method AssignSeq(s: seq<T>)
      modifies this
      ensures Valid() && fresh(buf)
      ensures Contents() == s && cap == |s|
    {
      cap, size := |s|, |s|;
      var a := new T[size];
      CopySeq(s, a);
      buf := a;
    }

    // ---- element access ----

    /** `at(pos)`: the element at `pos`, or the out-of-range error exactly when `pos`
      is not below the size. As a function it changes no state. */
    function At(pos: nat): (r: Checked<T>)
      reads this, buf
      requires Valid()
      ensures r.OutOfRange? <==> |Contents()| <= pos
      ensures r.Ok? ==> r.value == Contents()[pos]
    {
      if pos >= size then OutOfRange else Ok(buf[pos])
    }

    /** `operator[](pos)`, read: unchecked, so `pos` must be in range. */
    function Get(pos: nat): (r: T)
      reads this, buf
      requires Valid() && pos < size
      ensures r == Contents()[pos]
    {
      buf[pos]
    }

    /** `front()`, read: the first element of a non-empty vector. */
    function Front(): (r: T)
      reads this, buf
      requires Valid() && 0 < size
      ensures r == Contents()[0]
    {
      buf[0]
    }

    /** `back()`, read: the last element of a non-empty vector. */
    function Back(): (r: T)
      reads this, buf
      requires Valid() && 0 < size
      ensures r == Contents()[|Contents()| - 1]
    {
      buf[size - 1]
    }

    /** Writing through the reference `operator[](pos)` (or `*it`, `front()`,
      `back()`) returns: only the element at `pos` changes. */
    method Set(pos: nat, x: T)
      requires Valid() && pos < size
      modifies buf
      ensures Valid() && Contents() == old(Contents())[pos := x]
    {
      buf[pos] := x;
    }

    /** Writing through the reference `at(pos)` returns: out of range exactly when
      `pos` is not below the size, and then nothing changes. */
    method SetAt(pos: nat, x: T) returns (outOfRange: bool)
      requires Valid()
      modifies buf
      ensures Valid()
      ensures outOfRange <==> size <= pos
      ensures Contents() == if outOfRange then old(Contents()) else old(Contents())[pos := x]
    {
      if pos >= size {
        return true;
      }
      buf[pos] := x;
      return false;
    }

    // ---- iterators ----

    /** `begin()`: the first slot; for a non-empty vector it designates the front. */
    function Begin(): (r: Iterator)
      reads this, buf
      requires Valid()
      ensures r.offset == 0
      ensures 0 < |Contents()| ==> r.offset < size && Deref(r) == Front()
    {
      Iterator(0)
    }

    /** `end()`: one past the last live element, `size` slots after `begin()`; the
      two coincide exactly when the vector is empty, and for a non-empty vector the
      slot before `end()` holds the back. */
    function End(): (r: Iterator)
      reads this, buf
      requires Valid()
      ensures r == Begin().Plus(|Contents()|)
      ensures r.Eq(Begin()) <==> Contents() == []
      ensures 0 < |Contents()| ==> Deref(r.Prev()) == Back()
    {
      Iterator(size)
    }

    /** `*it`, read: the live element `it` designates. */
    function Deref(it: Iterator): (r: T)
      reads this, buf
      requires Valid() && it.offset < size
      ensures r == Contents()[it.offset]
    {
      buf[it.offset]
    }

    /** The private `distance(first, last)`: how many slots `last` lies after `first`. */
    static function Distance(first: Iterator, last: Iterator): (d: nat)
      requires first.offset <= last.offset
      ensures first.Plus(d) == last
    {
      last.offset - first.offset
    }

    // ---- capacity ----

    /** `empty()`. */
    function Empty(): (r: bool)
      reads this, buf
      requires Valid()
      ensures r <==> Contents() == []
    {
      size == 0
    }

    /** `size()`. */
    function Size(): (r: nat)
      reads this, buf
      requires Valid()
      ensures r == |Contents()|
    {
      size
    }

    /** `capacity()`: never below the size. */
    function Capacity(): (r: nat)
      reads this
      requires Valid()
      ensures r == buf.Length && size <= r
    {
      cap
    }

    /** `reserve(newCap)`: nothing happens unless `newCap` exceeds the capacity; then
      the live elements move to a fresh buffer of exactly `newCap` slots. */
    method Reserve(newCap: nat)
      requires Valid()
      modifies this
      ensures Valid() && Contents() == old(Contents())
      ensures newCap <= old(cap) ==> unchanged(this)
      ensures old(cap) < newCap ==> cap == newCap && fresh(buf)
    {
      if newCap <= cap {
        return;
      }
      var a := new T[newCap];
      CopyRange(buf, a, size);
      buf := a;
      cap := newCap;
    }

    /** `shrink_to_fit()`: the capacity becomes the size; a buffer that is not
      already full is replaced by a fresh one of exactly that size. */
    method ShrinkToFit()
      requires Valid()
      modifies this
      ensures Valid() && Contents() == old(Contents()) && cap == size
      ensures old(size) == old(cap) ==> unchanged(this)
      ensures old(size) < old(cap) ==> fresh(buf)
    {
      if size == cap {
        return;
      }
      var a := new T[size];
      CopyRange(buf, a, size);
      buf := a;
      cap := size;
    }

    /** The private `relocate()`: reserve room for growth, 1 slot for an empty vector
      and twice the size otherwise. */
    method Relocate()
      requires Valid()
      modifies this
      ensures Valid() && Contents() == old(Contents())
      ensures cap == Max(old(cap), GrowthTarget(old(size)))
      ensures cap == old(cap) ==> unchanged(this)
      ensures old(cap) < cap ==> fresh(buf)
    {
      if size == 0 {
        Reserve(1);
      } else {
        Reserve(2 * size);
      }
    }

    // ---- modifiers ----

    /** `clear()`: no elements; capacity and buffer are kept. */
    method Clear()
      requires Valid()
      modifies this
      ensures Valid() && Contents() == []
      ensures cap == old(cap) && buf == old(buf)
    {
      size := 0;
    }

    /** `insert(pos, value)`: `value` placed at the offset of `pos`, later elements
      moved one slot right, relocating first if the buffer is full. The result
      designates the inserted element. */
    method Insert(pos: Iterator, value: T) returns (r: Iterator)
      requires Valid() && pos.offset <= size
      modifies this, buf
      ensures Valid()
      ensures Contents() == InsertAt(old(Contents()), pos.offset, value)
      ensures cap == NextCapacity(old(size), old(cap))
      ensures old(size) < old(cap) ==> buf == old(buf)
      ensures old(size) == old(cap) ==> fresh(buf)
      ensures r == pos
    {
      var id := Distance(Begin(), pos);
      if size == cap {
        Relocate();
      }
      ghost var before := buf[..size];
      ShiftRight(buf, id, size);
      buf[id] := value;
      size := size + 1;
      assert Contents() == InsertAt(before, id, value);
      r := Begin().Plus(id);
    }

    /** `insert(pos, (*this)[src])` as written, for a vector with a spare slot: the
      C++ code takes the element by reference and reads it after shifting, so the
      element stored is whatever then sits in slot `src`. */
    method InsertOwnElementAsWritten(pos: Iterator, src: nat) returns (r: Iterator)
      requires Valid() && pos.offset <= size && src < size && size < cap
      modifies this, buf
      ensures Valid()
      ensures Contents() == InsertReadAfterShift(old(Contents()), pos.offset, src)
      ensures cap == old(cap) && buf == old(buf)
      ensures r == pos
    {
      var id := Distance(Begin(), pos);
      ghost var before := buf[..size];
      ShiftRight(buf, id, size);
      buf[id] := buf[src];
      size := size + 1;
      assert Contents() == InsertReadAfterShift(before, id, src);
      r := Begin().Plus(id);
    }

    /** `insert(pos, (*this)[src])` as meant: the element in slot `src` is read before
      anything moves, so it is the one inserted, whether or not the buffer grows. */
    method InsertOwnElement(pos: Iterator, src: nat) returns (r: Iterator)
      requires Valid() && pos.offset <= size && src < size
      modifies this, buf
      ensures Valid()
      ensures Contents() == InsertAt(old(Contents()), pos.offset, old(Contents())[src])
      ensures cap == NextCapacity(old(size), old(cap))
      ensures old(size) < old(cap) ==> buf == old(buf)
      ensures old(size) == old(cap) ==> fresh(buf)
      ensures r == pos
    {
      var value := buf[src];
      r := Insert(pos, value);
    }

    /** `erase(pos)`: the element at the offset of `pos` removed, later elements moved
      one slot left. Capacity and buffer are kept; the result designates the slot
      that followed the removed element. */
    method Erase(pos: Iterator) returns (r: Iterator)
      requires Valid() && pos.offset < size
      modifies this, buf
      ensures Valid()
      ensures Contents() == EraseAt(old(Contents()), pos.offset)
      ensures cap == old(cap) && buf == old(buf)
      ensures r == pos
    {
      var id := Distance(Begin(), pos);
      ShiftLeft(buf, id, size);
      size := size - 1;
      assert Contents() == EraseAt(old(Contents()), id);
      r := Begin().Plus(id);
    }

    /** `push_back(value)`: `value` appended, relocating first if the buffer is full. */
    method PushBack(value: T)
      requires Valid()
      modifies this, buf
      ensures Valid()
      ensures Contents() == old(Contents()) + [value]
      ensures cap == NextCapacity(old(size), old(cap))
      ensures old(size) < old(cap) ==> buf == old(buf)
      ensures old(size) == old(cap) ==> fresh(buf)
    {
      if size == cap {
        Relocate();
      }
      buf[size] := value;
      size := size + 1;
    }

    /** `emplace_back(args...)`: the element constructed from the arguments, here
      `value`, appended on the same growth path as `push_back`. */
    method EmplaceBack(value: T)
      requires Valid()
      modifies this, buf
      ensures Valid()
      ensures Contents() == old(Contents()) + [value]
      ensures cap == NextCapacity(old(size), old(cap))
      ensures old(size) < old(cap) ==> buf == old(buf)
      ensures old(size) == old(cap) ==> fresh(buf)
    {
      PushBack(value);
    }

    /** `pop_back()` on a non-empty vector: the last element dropped; capacity and
      buffer are kept. */
    method PopBack()
      requires Valid() && 0 < size
      modifies this
      ensures Valid() && Contents() == old(Contents())[..old(size) - 1]
      ensures cap == old(cap) && buf == old(buf)
    {
      size := size - 1;
    }

    /** `resize(newSize)`, with `init` the value-initialised `T()`: the same size
      changes nothing; growing reserves `newSize` and fills the new slots with `init`;
      shrinking keeps the first `newSize` elements in a fresh buffer of exactly
      `newSize` slots. */
    method Resize(newSize: nat, init: T)
      requires Valid()
      modifies this, buf
      ensures Valid() && Contents() == Resized(old(Contents()), newSize, init)
      ensures newSize == old(size) ==> unchanged(this)
      ensures old(size) < newSize ==> cap == Max(old(cap), newSize)
      ensures old(size) < newSize <= old(cap) ==> buf == old(buf)
      ensures old(cap) < newSize ==> fresh(buf)
      ensures newSize < old(size) ==> cap == newSize && fresh(buf)
    {
      if newSize == size {
        return;
      } else if newSize > size {
        Reserve(newSize);
        ghost var before := buf[..size];
        Fill(buf, size, newSize, init);
        assert buf[..newSize] == Resized(before, newSize, init);
      } else {
        var a := new T[newSize];
        CopyRange(buf, a, newSize);
        cap, size := newSize, newSize;
        buf := a;
      }
      size := newSize;
    }

    /** `resize(newSize, value)`: growing fills the new slots with `value`; any other
      size is handled as `resize(newSize)`, which then fills nothing. */
    method ResizeWith(newSize: nat, value: T)
      requires Valid()
      modifies this, buf
      ensures Valid() && Contents() == Resized(old(Contents()), newSize, value)
      ensures newSize == old(size) ==> unchanged(this)
      ensures old(size) < newSize ==> cap == Max(old(cap), newSize)
      ensures old(size) < newSize <= old(cap) ==> buf == old(buf)
      ensures old(cap) < newSize ==> fresh(buf)
      ensures newSize < old(size) ==> cap == newSize && fresh(buf)
    {
      if newSize > size {
        Reserve(newSize);
        ghost var before := buf[..size];
        Fill(buf, size, newSize, value);
        assert buf[..newSize] == Resized(before, newSize, value);
        size := newSize;
      } else {
        Resize(newSize, value);
      }
    }

    /** `swap(other)`: size, capacity and buffer exchanged, no element is touched. */
    method Swap(other: Vector<T>)
      requires Valid() && other.Valid()
      modifies this, other
      ensures Valid() && other.Valid()
      ensures buf == old(other.buf) && other.buf == old(buf)
      ensures cap == old(other.cap) && other.cap == old(cap)
      ensures Contents() == old(other.Contents()) && other.Contents() == old(Contents())
    {
      var s := size;
      size := other.size;
      other.size := s;
      var c := cap;
      cap := other.cap;
      other.cap := c;
      var b := buf;
      buf := other.buf;
      other.buf := b;
    }

    // ---- comparison ----

    /** `left == right`: equal sizes and pairwise equal elements, whatever the two
      capacities are. */
    static method Equal(left: Vector<T>, right: Vector<T>) returns (r: bool)
      requires left.Valid() && right.Valid()
      ensures r <==> left.Contents() == right.Contents()
    {
      if left.size != right.size {
        return false;
      }
      var id := 0;
      while id < left.size
        invariant id <= left.size
        invariant left.buf[..id] == right.buf[..id]
      {
        if left.Get(id) != right.Get(id) {
          assert left.Contents()[id] != right.Contents()[id];
          return false;
        }
        id := id + 1;
      }
      return true;
    }

    /** `left != right`: the negation of `==`. */
    static method NotEqual(left: Vector<T>, right: Vector<T>) returns (r: bool)
      requires left.Valid() && right.Valid()
      ensures r <==> left.Contents() != right.Contents()
    {
      var eq := Equal(left, right);
      return !eq;
    }
  }
}
