/** The buffer-level steps the vector is built from: `std::copy` between buffers or
    from a list, `std::fill`, and the one-slot shifts of `insert` and `erase`. */
module ArrayOps {

  /** `std::copy(src, src + n, dst)` into a different buffer. */
  method CopyRange<T>(src: array<T>, dst: array<T>, n: nat)
    requires n <= src.Length && n <= dst.Length && src != dst
    modifies dst
    ensures dst[..n] == src[..n]
    ensures forall k :: n <= k < dst.Length ==> dst[k] == old(dst[k])
  {
    var i := 0;
    while i < n
      invariant i <= n
      invariant forall k :: 0 <= k < i ==> dst[k] == src[k]
      invariant forall k :: i <= k < dst.Length ==> dst[k] == old(dst[k])
    {
      dst[i] := src[i];
      i := i + 1;
    }
  }

  /** `std::copy(list.begin(), list.end(), dst)`: the elements of a list or an
      iterator range copied to the front of a buffer. */
  method CopySeq<T>(s: seq<T>, dst: array<T>)
    requires |s| <= dst.Length
    modifies dst
    ensures dst[..|s|] == s
    ensures forall k :: |s| <= k < dst.Length ==> dst[k] == old(dst[k])
  {
    var i := 0;
    while i < |s|
      invariant i <= |s|
      invariant forall k :: 0 <= k < i ==> dst[k] == s[k]
      invariant forall k :: i <= k < dst.Length ==> dst[k] == old(dst[k])
    {
      dst[i] := s[i];
      i := i + 1;
    }
  }

  /** `std::fill(a + from, a + to, v)`. */
  method Fill<T>(a: array<T>, from: nat, to: nat, v: T)
    requires from <= to <= a.Length
    modifies a
    ensures forall k :: from <= k < to ==> a[k] == v
    ensures forall k :: 0 <= k < a.Length && !(from <= k < to) ==> a[k] == old(a[k])
  {
    var i := from;
    while i < to
      invariant from <= i <= to
      invariant forall k :: from <= k < i ==> a[k] == v
      invariant forall k :: 0 <= k < a.Length && !(from <= k < i) ==> a[k] == old(a[k])
    {
      a[i] := v;
      i := i + 1;
    }
  }

  /** Moves `a[id..n)` one slot to the right, into `a[id+1..n+1)`, working from the
      back so that no element is overwritten before it is moved. Slot `id` keeps its
      old value, ready to be overwritten by the inserted element. */
  method ShiftRight<T>(a: array<T>, id: nat, n: nat)
    requires id <= n < a.Length
    modifies a
    ensures forall k :: 0 <= k <= id ==> a[k] == old(a[k])
    ensures forall k :: id < k <= n ==> a[k] == old(a[k - 1])
    ensures forall k :: n < k < a.Length ==> a[k] == old(a[k])
  {
    var i := n;
    while i > id
      invariant id <= i <= n
      invariant forall k :: 0 <= k <= i ==> a[k] == old(a[k])
      invariant forall k :: i < k <= n ==> a[k] == old(a[k - 1])
      invariant forall k :: n < k < a.Length ==> a[k] == old(a[k])
    {
      a[i] := a[i - 1];
      i := i - 1;
    }
  }

  /** `std::copy(a + id + 1, a + n, a + id)`: moves `a[id+1..n)` one slot to the left,
      over the element at `id`. The last slot `n - 1` keeps its old value. */
  method ShiftLeft<T>(a: array<T>, id: nat, n: nat)
    requires id < n <= a.Length
    modifies a
    ensures forall k :: 0 <= k < id ==> a[k] == old(a[k])
    ensures forall k :: id <= k < n - 1 ==> a[k] == old(a[k + 1])
    ensures forall k :: n - 1 <= k < a.Length ==> a[k] == old(a[k])
  {
    var i := id;
    while i + 1 < n
      invariant id <= i < n
      invariant forall k :: 0 <= k < id ==> a[k] == old(a[k])
      invariant forall k :: id <= k < i ==> a[k] == old(a[k + 1])
      invariant forall k :: i <= k < a.Length ==> a[k] == old(a[k])
    {
      a[i] := a[i + 1];
      i := i + 1;
    }
  }
}
