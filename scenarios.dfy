/** Client code that follows the repository's test scenarios step by step. It uses only
    the contracts of module Vectors, so each assertion shows that the contracts
    determine the outcome the tests expect. */
module Scenarios {
  import opened Vectors
  import opened Sequences

  /** pop_back, push_back, clear and swap on {1, 3, 5} and {2, 4}. */
  method BasicScenario()
  {
    var a := new Vector<int>.FromSeq([1, 3, 5]);
    a.PopBack();
    assert a.Contents() == [1, 3];
    a.PushBack(1);
    assert a.Contents() == [1, 3, 1];
    a.Clear();
    assert a.Contents() == [];
    a.PushBack(3);
    var b := new Vector<int>.FromSeq([2, 4]);
    a.Swap(b);
    assert a.Contents() == [2, 4];
    assert b.Contents() == [3];
  }

  /** Copies are independent of their source; moves leave the source empty. */
  method CopyScenario()
  {
    var a := new Vector<int>();
    var b := new Vector<int>.Copy(a);
    b.PushBack(1);
    assert a.Contents() == [] && b.Contents() == [1];
    b.CopyFrom(b);
    assert b.Contents() == [1];
    a.CopyFrom(b);
    assert a.Contents() == [1];
    b.MoveFrom(a);
    assert b.Contents() == [1] && a.Contents() == [] && a.Capacity() == 0;
    var c := new Vector<int>.Move(b);
    assert c.Contents() == [1] && b.Contents() == [];
    var d := new Vector<int>.FromSeq([3, 4, 5]);
    var e := new Vector<int>.Copy(d);
    assert e.Contents() == [3, 4, 5];
    d.Swap(c);
    assert e.Contents() == [3, 4, 5] && d.Contents() == [1] && c.Contents() == [3, 4, 5];
  }

  /** Walking {1, 2, 3, 4} with iterators. */
  method IteratorScenario()
  {
    var a := new Vector<int>.FromSeq([1, 2, 3, 4]);
    var it := a.Begin();
    assert a.Deref(it) == 1;
    it := it.Next();
    assert a.Deref(it) == 2;
    it := it.Advance(2);
    assert a.Deref(it) == 4;
    assert a.Begin().Plus(4) == a.End();
    assert a.Deref(a.End().Prev()) == 4;
  }

  /** A range-for loop that reads {1, 2, 3, 4} visits the elements in order. */
  method RangeForReadScenario()
  {
    var a := new Vector<int>.FromSeq([1, 2, 3, 4]);
    ghost var elements := a.Contents();
    var b: seq<int> := [];
    var it := a.Begin();
    while it.Ne(a.End())
      invariant a.Valid() && a.size == 4 && a.Contents() == elements
      invariant it.offset <= 4 && b == elements[..it.offset]
      decreases 4 - it.offset
    {
      var elem := a.Deref(it);
      assert elements[..it.offset + 1] == elements[..it.offset] + [elem];
      b := b + [elem];
      it := it.Next();
    }
    assert b == elements[..4];
    assert b == a.Contents() == [1, 2, 3, 4];
  }

  /** A range-for loop that adds 1 through each element's reference turns
      {1, 2, 3, 4} into {2, 3, 4, 5}. */
  method RangeForWriteScenario()
  {
    var a := new Vector<int>.FromSeq([1, 2, 3, 4]);
    var it := a.Begin();
    while it.Ne(a.End())
      invariant a.Valid() && fresh(a.buf) && a.size == 4 && it.offset <= 4
      invariant a.Contents()[..it.offset] == [2, 3, 4, 5][..it.offset]
      invariant a.Contents()[it.offset..] == [1, 2, 3, 4][it.offset..]
      decreases 4 - it.offset
    {
      a.Set(it.offset, a.Deref(it) + 1);
      it := it.Next();
    }
    assert a.Contents() == a.Contents()[..4];
    assert a.Contents() == [2, 3, 4, 5];
  }

  /** Inserting 9 at offset 2 of the full vector {1, 2, 3, 4} doubles its capacity;
      erasing at the returned iterator restores the contents. */
  method InsertEraseScenario()
  {
    var a := new Vector<int>.FromSeq([1, 2, 3, 4]);
    var at := a.Insert(a.Begin().Plus(2), 9);
    assert a.Contents() == InsertAt([1, 2, 3, 4], 2, 9);
    assert a.Contents() == [1, 2, 9, 3, 4];
    assert a.Capacity() == 8;
    var next := a.Erase(at);
    EraseUndoesInsert([1, 2, 3, 4], 2, 9);
    assert a.Contents() == [1, 2, 3, 4];
    assert a.Deref(next) == 3;
  }

  /** Equality ignores capacity; appending breaks it. */
  method EqualScenario()
  {
    var a := new Vector<int>.FromSeq([1, 2, 3, 4]);
    var b := new Vector<int>.FromSeq([1, 2, 3, 4]);
    b.Reserve(10);
    var eq := Vector.Equal(a, b);
    assert eq;
    a.PushBack(4);
    var ne := Vector.NotEqual(a, b);
    assert ne;
    var checked := a.At(4);
    assert checked == Ok(4);
    assert a.At(5) == OutOfRange;
  }
}
