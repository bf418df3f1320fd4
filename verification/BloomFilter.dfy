// The membership test behind "the topmost record wins":
// project3/sourcefile/bwtree/include/bloom_filter.h.
module BloomFilters {
  const FILTER_SIZE: nat := 32

  // (hash & BYTE_OFFSET_MASK) >> 3
  function ByteOffset(hash: bv64): (i: nat)
    ensures i < FILTER_SIZE
  {
    var b := (hash & 0xF8) >> 3;
    ByteOffsetInRange(hash);
    b as nat
  }

  lemma ByteOffsetInRange(hash: bv64)
    ensures ((hash & 0xF8) >> 3) < 32
    ensures (((hash & 0xF8) >> 3) as nat) < 32
  {
  }

  // 0x1 << (hash & BIT_OFFSET_MASK)
  function BitMask(hash: bv64): bv8 {
    1 << ((hash & 7) as bv3)
  }

  class BloomFilter<T(==, !new)> {
    const bits: array<bv8>
    const data: array<T>
    const hash: T -> bv64
    var count: nat

    predicate BitSet(value: T)
      requires bits.Length == FILTER_SIZE
      reads bits
    {
      bits[ByteOffset(hash(value))] & BitMask(hash(value)) != 0
    }

    ghost predicate Valid()
      reads this, bits, data
    {
      && bits.Length == FILTER_SIZE && count <= data.Length && bits as object != data
      && forall i :: 0 <= i < count ==> BitSet(data[i])
    }

    ghost function Values(): (s: seq<T>)
      requires Valid()
      reads this, bits, data
      ensures |s| == count
    {
      data[..count]
    }

    constructor (data: array<T>, hash: T -> bv64)
      ensures Valid() && this.data == data && this.hash == hash && count == 0
      ensures fresh(bits)
    {
      this.data := data;
      this.hash := hash;
      count := 0;
      bits := new bv8[FILTER_SIZE](_ => 0);
    }

    method Insert(value: T)
      requires Valid() && count < data.Length
      modifies this, bits, data
      ensures Valid() && count == old(count) + 1
      ensures Values() == old(Values()) + [value]
    {
      data[count] := value;
      count := count + 1;
      var k := ByteOffset(hash(value));
      ghost var was := bits[k];
      bits[k] := bits[k] | BitMask(hash(value));
      forall i | 0 <= i < count
        ensures BitSet(data[i])
      {
        OrKeepsBits(was, BitMask(hash(value)), BitMask(hash(data[i])));
        MaskIsNotZero(hash(value));
      }
    }

    // Exact: the bit array only short-cuts misses, a hit is confirmed in the list.
    method Exists(value: T) returns (b: bool)
      requires Valid()
      ensures b <==> value in Values()
    {
      if !BitSet(value) {
        return false;
      }
      var i := 0;
      while i < count
        invariant 0 <= i <= count
        invariant forall j :: 0 <= j < i ==> data[j] != value
      {
        if value == data[i] {
          assert value == Values()[i];
          return true;
        }
        i := i + 1;
      }
      return false;
    }
  }

  lemma OrKeepsBits(byte: bv8, mask: bv8, other: bv8)
    ensures byte & other != 0 ==> (byte | mask) & other != 0
    ensures mask & other != 0 ==> (byte | mask) & other != 0
  {
  }

  lemma MaskIsNotZero(hash: bv64)
    ensures BitMask(hash) & BitMask(hash) != 0
  {
    var k := (hash & 7) as bv3;
    assert k == 0 || k == 1 || k == 2 || k == 3 || k == 4 || k == 5 || k == 6 || k == 7;
  }
}
