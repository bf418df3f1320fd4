// The thread-local garbage list: class GCMetaData and the two routines that change it in place,
// bwtree.h:160-205 and 8792-8857.
module GarbageList {
  datatype Garbage = Garbage(deleteEpoch: nat, node: nat)

  class GarbageNode {
    const item: Garbage
    var next: GarbageNode?

    constructor (item: Garbage)
      ensures this.item == item && next == null
    {
      this.item := item;
      next := null;
    }
  }

  // The garbage behind the header.
  ghost function ItemsBehind(chain: seq<GarbageNode>): (items: seq<Garbage>)
    requires |chain| > 0
    ensures |items| == |chain| - 1 && forall i :: 0 <= i < |items| ==> items[i] == chain[i + 1].item
  {
    seq(|chain| - 1, i requires 0 <= i < |chain| - 1 => chain[i + 1].item)
  }

  // The number of leading items unlinked before the epoch.
  function CountBefore(items: seq<Garbage>, minEpoch: nat): (k: nat)
    ensures k <= |items|
    ensures forall i :: 0 <= i < k ==> items[i].deleteEpoch < minEpoch
    ensures k < |items| ==> items[k].deleteEpoch >= minEpoch
  {
    if items == [] || items[0].deleteEpoch >= minEpoch then 0 else 1 + CountBefore(items[1..], minEpoch)
  }

  ghost predicate SortedByEpoch(items: seq<Garbage>) {
    forall i, j :: 0 <= i < j < |items| ==> items[i].deleteEpoch <= items[j].deleteEpoch
  }

  // In a sorted list, exactly the items before the epoch lead.
  lemma CountBeforeIsAll(items: seq<Garbage>, minEpoch: nat, i: nat)
    requires SortedByEpoch(items) && i < |items|
    ensures items[i].deleteEpoch < minEpoch <==> i < CountBefore(items, minEpoch)
  {
    var k := CountBefore(items, minEpoch);
    if k < i {
      assert items[k].deleteEpoch <= items[i].deleteEpoch;
    }
  }

  lemma StopsAt(items: seq<Garbage>, minEpoch: nat, k: nat)
    requires k <= |items| && (forall i :: 0 <= i < k ==> items[i].deleteEpoch < minEpoch)
    requires k < |items| ==> items[k].deleteEpoch >= minEpoch
    ensures CountBefore(items, minEpoch) == k
  {
  }

  lemma SuffixIsSorted(items: seq<Garbage>, k: nat)
    requires SortedByEpoch(items) && k <= |items|
    ensures SortedByEpoch(items[k..])
  {
  }

  class GCMetaData {
    const header: GarbageNode
    var last: GarbageNode
    var nodeCount: nat
    // The nodes of the list in order, the header first.
    ghost var chain: seq<GarbageNode>

    ghost predicate Linked()
      reads this, chain
    {
      && |chain| > 0 && chain[0] == header
      && (forall i, j :: 0 <= i < j < |chain| ==> chain[i] != chain[j])
      && (forall i :: 0 <= i < |chain| - 1 ==> chain[i].next == chain[i + 1])
      && chain[|chain| - 1].next == null
    }

    ghost function Contents(): seq<Garbage>
      reads this
    {
      if |chain| == 0 then [] else ItemsBehind(chain)
    }

    // last_p is the tail, node_count the length, and the list is sorted by delete epoch.
    ghost predicate Valid()
      reads this, chain
    {
      Linked() && last == chain[|chain| - 1] && nodeCount == |chain| - 1 && SortedByEpoch(Contents())
    }

    constructor ()
      ensures Valid() && Contents() == [] && fresh(header)
    {
      var h := new GarbageNode(Garbage(0, 0));
      header := h;
      last := h;
      nodeCount := 0;
      chain := [h];
    }

    // The global epoch counter never decreases, so the new node goes to the end. The result tells
    // whether the list has grown beyond the threshold for a collection.
    method AddGarbageNode(globalEpoch: nat, node: nat, threshold: nat) returns (collect: bool)
      requires Valid()
      requires forall i :: 0 <= i < |Contents()| ==> Contents()[i].deleteEpoch <= globalEpoch
      modifies this, last
      ensures Valid() && Contents() == old(Contents()) + [Garbage(globalEpoch, node)]
      ensures collect <==> |Contents()| > threshold
    {
      var garbage := new GarbageNode(Garbage(globalEpoch, node));
      last.next := garbage;
      last := garbage;
      nodeCount := nodeCount + 1;
      chain := chain + [garbage];
      assert Contents() == old(Contents()) + [Garbage(globalEpoch, node)];
      collect := nodeCount > threshold;
    }

    // Takes the first node out of the list.
    method UnlinkFirst(first: GarbageNode)
      requires Linked() && nodeCount == |chain| - 1 && header.next == first
      modifies this`chain, this`nodeCount, header
      ensures Linked() && nodeCount == |chain| - 1
      ensures old(|chain|) > 1 && |chain| == old(|chain|) - 1 && first.item == old(Contents())[0]
      ensures Contents() == old(Contents())[1..]
      ensures |chain| > 1 ==> chain[|chain| - 1] == old(chain[|chain| - 1])
    {
      assert |chain| > 1 && first == chain[1];
      header.next := first.next;
      chain := [header] + chain[2..];
      nodeCount := nodeCount - 1;
      assert Contents() == old(Contents())[1..];
    }

    // Frees the leading nodes whose delete epoch is before the minimum, and only those.
    method PerformGC(minEpoch: nat) returns (freed: seq<Garbage>)
      requires Valid()
      modifies this, header
      ensures Valid()
      ensures var k := CountBefore(old(Contents()), minEpoch);
              freed == old(Contents())[..k] && Contents() == old(Contents())[k..]
    {
      freed := [];
      var first := header.next;
      ghost var items := Contents();
      ghost var k := 0;
      while first != null && first.item.deleteEpoch < minEpoch
        invariant k <= |items| && freed == items[..k] && Contents() == items[k..]
        invariant Linked() && nodeCount == |chain| - 1 && first == header.next
        invariant last == old(last) && (|chain| > 1 ==> last == chain[|chain| - 1])
        invariant forall i :: 0 <= i < k ==> items[i].deleteEpoch < minEpoch
        decreases |chain|
      {
        UnlinkFirst(first);
        freed := freed + [first.item];
        k := k + 1;
        first := header.next;
      }
      if first == null {
        last := header;
      } else {
        assert first == chain[1] && first.item == items[k];
      }
      StopsAt(items, minEpoch, k);
      SuffixIsSorted(items, k);
    }
  }
}
