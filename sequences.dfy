/** The abstract effect of the vector's sequence-mutating operations on the list of
    live elements. The class in module Vectors is specified by these functions. */
module Sequences {

  /** `count` copies of `v`: the contents `assign(count, value)` and the sized
      constructor produce. */
  function Repeat<T>(v: T, count: nat): (r: seq<T>)
    ensures |r| == count
    ensures forall k :: 0 <= k < count ==> r[k] == v
  {
    seq(count, _ => v)
  }

  /** `v` placed at offset `i`, everything from `i` on moved one place to the right. */
  function InsertAt<T>(s: seq<T>, i: nat, v: T): (r: seq<T>)
    requires i <= |s|
    ensures |r| == |s| + 1
    ensures r[i] == v
    ensures forall k :: 0 <= k < i ==> r[k] == s[k]
    ensures forall k :: i < k < |r| ==> r[k] == s[k - 1]
  {
    s[..i] + [v] + s[i..]
  }

  /** The element at offset `i` removed, everything after it moved one place left. */
  function EraseAt<T>(s: seq<T>, i: nat): (r: seq<T>)
    requires i < |s|
    ensures |r| == |s| - 1
    ensures forall k :: 0 <= k < i ==> r[k] == s[k]
    ensures forall k :: i <= k < |r| ==> r[k] == s[k + 1]
  {
    s[..i] + s[i + 1..]
  }

  /** The contents after `resize(n)` (with `fill` the value-initialised `T()`) or
      `resize(n, fill)`: the first `n` elements are kept and any new slot holds `fill`. */
  function Resized<T>(s: seq<T>, n: nat, fill: T): (r: seq<T>)
    ensures |r| == n
    ensures forall k :: 0 <= k < n && k < |s| ==> r[k] == s[k]
    ensures forall k :: |s| <= k < n ==> r[k] == fill
  {
    if n <= |s| then s[..n] else s + Repeat(fill, n - |s|)
  }

  /** Erasing at the offset just inserted at gives the original contents back. */
  lemma EraseUndoesInsert<T>(s: seq<T>, i: nat, v: T)
    requires i <= |s|
    ensures EraseAt(InsertAt(s, i, v), i) == s
  {
  }

  /** Re-inserting an erased element at its offset gives the original contents back. */
  lemma InsertUndoesErase<T>(s: seq<T>, i: nat)
    requires i < |s|
    ensures InsertAt(EraseAt(s, i), i, s[i]) == s
  {
  }

  /** Inserting at the end offset is appending, as `push_back` does. */
  lemma InsertAtEndIsAppend<T>(s: seq<T>, v: T)
    ensures InsertAt(s, |s|, v) == s + [v]
  {
  }

  /** Erasing the last element is what `pop_back` does. */
  lemma EraseLastIsDropLast<T>(s: seq<T>)
    requires |s| > 0
    ensures EraseAt(s, |s| - 1) == s[..|s| - 1]
  {
  }

  /** Growing with `resize` and then shrinking back to the old size restores the
      contents; shrinking keeps exactly a prefix. */
  lemma ResizeGrowThenShrink<T>(s: seq<T>, n: nat, fill: T)
    requires |s| <= n
    ensures Resized(Resized(s, n, fill), |s|, fill) == s
    ensures Resized(s, |s|, fill) == s
  {
  }

  /** The contents `insert(pos, v)` leaves, without a relocation, when `v` refers to
      slot `src` of the same vector: the element is read only after the slots from
      `i` on have moved one place right, so a slot past `i` yields its left neighbour. */
  function InsertReadAfterShift<T>(s: seq<T>, i: nat, src: nat): (r: seq<T>)
    requires i <= |s| && src < |s|
  {
    InsertAt(s, i, if src <= i then s[src] else s[src - 1])
  }

  /** The aliased insert stores the referenced element exactly when that element lies
      at or before the insertion offset, or equals its left neighbour. */
  lemma InsertReadAfterShiftCorrectIff<T>(s: seq<T>, i: nat, src: nat)
    requires i <= |s| && src < |s|
    ensures InsertReadAfterShift(s, i, src) == InsertAt(s, i, s[src])
        <==> src <= i || s[src - 1] == s[src]
  {
    if InsertReadAfterShift(s, i, src) == InsertAt(s, i, s[src]) {
      assert InsertReadAfterShift(s, i, src)[i] == InsertAt(s, i, s[src])[i];
    }
  }

  /** {1, 2} with the element at offset 1 inserted at offset 0 gives {1, 1, 2} as
      written, where {2, 1, 2} is meant. */
  lemma InsertReadAfterShiftCounterexample()
    ensures InsertReadAfterShift([1, 2], 0, 1) == [1, 1, 2]
    ensures InsertAt([1, 2], 0, [1, 2][1]) == [2, 1, 2]
  {
  }
}
