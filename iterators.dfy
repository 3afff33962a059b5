/** The vector's random-access iterator. In `vector.h` the iterator wraps a raw pointer
    into the vector's buffer; here it is the offset of that slot from the first one,
    so `begin()` is offset 0 and `end()` is offset `size`. Moving before the first
    slot is undefined behaviour in `vector.h` and is excluded by `requires`. */
module Iterators {

  datatype Iterator = Iterator(offset: nat) {

    /** `it += n`: move `n` slots forward. That this is as far as `n` one-slot moves
        go is `AdvanceIsSteps`; that `-= n` undoes it is `AdvanceThenRetreat`. */
    function Advance(n: nat): (r: Iterator)
      ensures n <= r.offset && r.offset - n == offset
    {
      Iterator(offset + n)
    }

    /** `++it` (and the move made by `it++`): one slot forward, the same as `it += 1`. */
    function Next(): (r: Iterator)
      ensures r == Advance(1)
    {
      Iterator(offset + 1)
    }

    /** `it -= n`: move `n` slots back, to the slot from which `+= n` returns here. */
    function Retreat(n: nat): (r: Iterator)
      requires n <= offset
      ensures r.Advance(n) == this
    {
      Iterator(offset - n)
    }

    /** `--it` (and the move made by `it--`): one slot back; the move `++` undoes. */
    function Prev(): (r: Iterator)
      requires 0 < offset
      ensures r.Next() == this
      ensures r == Retreat(1)
    {
      Iterator(offset - 1)
    }

    /** `it + n` and `n + it`: a new iterator where `it += n` would have moved `it`. */
    function Plus(n: nat): (r: Iterator)
      ensures r == Advance(n)
    {
      Iterator(offset + n)
    }

    /** `it == other`: two iterators are equal when they designate the same slot. */
    function Eq(other: Iterator): (r: bool)
      ensures r <==> this == other
    {
      offset == other.offset
    }

    /** `it != other`. */
    function Ne(other: Iterator): (r: bool)
      ensures r <==> !Eq(other)
    {
      offset != other.offset
    }
  }

  /** The iterator reached from `it` by applying `++` `n` times. */
  function Steps(it: Iterator, n: nat): Iterator
  {
    if n == 0 then it else Steps(it, n - 1).Next()
  }

  /** `it += n` reaches the iterator that `n` successive `++` reach. */
  lemma {:induction false} AdvanceIsSteps(it: Iterator, n: nat)
    ensures it.Advance(n) == Steps(it, n)
  {
    if n > 0 {
      AdvanceIsSteps(it, n - 1);
    }
  }

  /** `n` increments after a `+= m` reach the iterator that `m + n` increments reach. */
  lemma {:induction false} AdvanceThenSteps(it: Iterator, m: nat, n: nat)
    ensures Steps(it.Advance(m), n) == Steps(it, m + n)
  {
    AdvanceIsSteps(it.Advance(m), n);
    AdvanceIsSteps(it, m + n);
  }

  /** `it += n` followed by `it -= n` returns to the same slot. */
  lemma AdvanceThenRetreat(it: Iterator, n: nat)
    ensures n <= it.Advance(n).offset && it.Advance(n).Retreat(n) == it
  {
  }
}
