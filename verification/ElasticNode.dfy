// The array embedded in a base node: class ElasticNode, bwtree.h:1812-2061. It is allocated for a
// fixed number of elements and filled from the front.
module ElasticNodes {
  class ElasticNode<T(0)> {
    const data: array<T>
    var end: nat

    ghost predicate Valid()
      reads this
    {
      end <= data.Length
    }

    ghost function Contents(): (s: seq<T>)
      requires Valid()
      reads this, data
      ensures |s| == end
    {
      data[..end]
    }

    constructor (size: nat)
      ensures Valid() && fresh(data) && data.Length == size && Contents() == []
    {
      data := new T[size];
      end := 0;
    }

    method PushBack(element: T)
      requires Valid() && end < data.Length
      modifies this, data
      ensures Valid() && Contents() == old(Contents()) + [element]
    {
      data[end] := element;
      end := end + 1;
    }

    // The overload that copies the range [copyStart, copyEnd) of another array.
    method PushBackRange(source: seq<T>, copyStart: nat, copyEnd: nat)
      requires Valid() && copyStart <= copyEnd <= |source| && end + (copyEnd - copyStart) <= data.Length
      modifies this, data
      ensures Valid() && Contents() == old(Contents()) + source[copyStart..copyEnd]
    {
      var i := copyStart;
      while i != copyEnd
        invariant copyStart <= i <= copyEnd
        invariant Valid() && Contents() == old(Contents()) + source[copyStart..i]
        decreases copyEnd - i
      {
        PushBack(source[i]);
        i := i + 1;
      }
    }
  }
}
