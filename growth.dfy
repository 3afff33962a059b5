/** The capacity policy of the vector: how `relocate` grows a full buffer, and what
    that policy yields over a run of appends that start from an empty vector. */
module Growth {

  function Max(a: nat, b: nat): nat
  {
    if a < b then b else a
  }

  /** The capacity `relocate` asks `reserve` for: 1 for an empty vector, twice the
      size otherwise. It always leaves room for one more element. */
  function GrowthTarget(size: nat): (r: nat)
    ensures size < r
    ensures size == 0 ==> r == 1
    ensures size > 0 ==> r == 2 * size
  {
    if size == 0 then 1 else 2 * size
  }

  /** Capacity after making room for one more element, as `push_back`, `emplace_back`
      and `insert` do: relocate when full, leave the buffer alone otherwise. */
  function NextCapacity(size: nat, cap: nat): (r: nat)
    requires size <= cap
    ensures size < r && cap <= r
    ensures size < cap ==> r == cap
    ensures size == cap ==> r == GrowthTarget(size)
  {
    if size == cap then GrowthTarget(size) else cap
  }

  ghost predicate IsPowerOfTwo(k: nat)
  {
    k == 1 || (k > 1 && k % 2 == 0 && IsPowerOfTwo(k / 2))
  }

  /** Capacity of a vector that started empty (size 0, capacity 0) after `n` appends
      and nothing else. */
  ghost function CapacityAfterPushes(n: nat): nat
  {
    if n == 0 then 0 else NextCapacity(n - 1, CapacityAfterPushes(n - 1))
  }

  /** Elements copied by the reallocations of those `n` appends: every relocation
      copies the `size` live elements into the new buffer. */
  ghost function CopiesAfterPushes(n: nat): nat
  {
    if n == 0 then 0
    else CopiesAfterPushes(n - 1) + (if n - 1 == CapacityAfterPushes(n - 1) then n - 1 else 0)
  }

  /** Under the doubling rule, appending `n > 0` elements to an empty vector leaves the
      capacity at the least power of two that holds them: a power of two in [n, 2n). */
  lemma {:induction false} CapacityAfterPushesIsPowerOfTwo(n: nat)
    requires n > 0
    ensures IsPowerOfTwo(CapacityAfterPushes(n))
    ensures n <= CapacityAfterPushes(n) < 2 * n
  {
    if n > 1 {
      CapacityAfterPushesIsPowerOfTwo(n - 1);
      var c := CapacityAfterPushes(n - 1);
      if c == n - 1 {
        assert CapacityAfterPushes(n) == 2 * c;
        assert (2 * c) / 2 == c;
      }
    }
  }

  /** The doubling rule amortises the cost of appending: `n > 0` appends from empty
      copy exactly one element fewer than the final capacity, hence fewer than `2n`. */
  lemma {:induction false} CopiesAfterPushesAmortised(n: nat)
    requires n > 0
    ensures CopiesAfterPushes(n) + 1 == CapacityAfterPushes(n)
    ensures CopiesAfterPushes(n) < 2 * n
  {
    if n > 1 {
      CopiesAfterPushesAmortised(n - 1);
    }
    CapacityAfterPushesIsPowerOfTwo(n);
  }
}
