// Time stamps of the atomic snapshot: project2/snapshot.cpp:74 computes
// `(label + 1) % UINT_MAX` on a 64-bit size_t, narrows it to a 32-bit int and
// hands it to a constructor that widens it back to size_t.
module SnapshotLabels {
  const UINT_MAX: nat := 0xFFFF_FFFF
  const TWO_32: nat := 0x1_0000_0000
  const TWO_64: nat := 0x1_0000_0000_0000_0000

  // Two's complement narrowing of an unsigned 32-bit value to int.
  function NarrowToInt(x: nat): int
    requires x < TWO_32
  {
    if x < 0x8000_0000 then x else x - TWO_32
  }

  // int to size_t: negative values are sign-extended to 64 bits.
  function WidenToSizeT(x: int): nat
    requires -0x8000_0000 <= x < 0x8000_0000
  {
    if x >= 0 then x else x + TWO_64
  }

  function NextLabel(stamp: nat): nat
    requires stamp < TWO_64
  {
    var sum := (stamp + 1) % TWO_64;
    WidenToSizeT(NarrowToInt(sum % UINT_MAX))
  }

  // The label a register carries after n writes; the first one is 0.
  function LabelAfter(n: nat): (stamp: nat)
    ensures stamp < TWO_64
  {
    if n == 0 then 0 else NextLabel(LabelAfter(n - 1))
  }

  lemma ResidueIsUnique(x: int, k: int, r: int)
    requires x == r + 0xFFFF_FFFF * k && 0 <= r < 0xFFFF_FFFF
    ensures x % UINT_MAX == r
  {
    assert x % 0xFFFF_FFFF == r;
  }

  // Sign extension does not disturb the residue: 2^64 and 2^32 are both 1 modulo UINT_MAX.
  lemma NextLabelOfResidue(r: nat)
    requires r < UINT_MAX
    ensures NextLabel(WidenToSizeT(NarrowToInt(r))) == WidenToSizeT(NarrowToInt((r + 1) % UINT_MAX))
  {
    var stamp := WidenToSizeT(NarrowToInt(r));
    var carry := if r + 1 == UINT_MAX then 1 else 0;
    var next := if r + 1 == UINT_MAX then 0 else r + 1;
    ResidueIsUnique(r + 1, carry, next);
    ResidueIsUnique(stamp + 1, if r < 0x8000_0000 then carry else carry + TWO_32, next);
    assert (stamp + 1) % TWO_64 == stamp + 1;
  }

  lemma {:induction false} LabelClosedForm(n: nat)
    ensures LabelAfter(n) == WidenToSizeT(NarrowToInt(n % UINT_MAX))
  {
    if n > 0 {
      LabelClosedForm(n - 1);
      var q, r := (n - 1) / UINT_MAX, (n - 1) % UINT_MAX;
      NextLabelOfResidue(r);
      var carry := if r + 1 == UINT_MAX then 1 else 0;
      var next := if r + 1 == UINT_MAX then 0 else r + 1;
      ResidueIsUnique(r + 1, carry, next);
      ResidueIsUnique(n, q + carry, next);
    }
  }

  // Two write counts carry the same label exactly when they differ by a multiple of UINT_MAX.
  lemma LabelsCollideExactlyOnThePeriod(m: nat, n: nat)
    ensures LabelAfter(m) == LabelAfter(n) <==> m % UINT_MAX == n % UINT_MAX
  {
    LabelClosedForm(m);
    LabelClosedForm(n);
  }

  // Within one period the label identifies the write.
  lemma LabelsDistinctWithinAPeriod(m: nat, n: nat)
    requires m <= n < m + UINT_MAX
    ensures LabelAfter(m) == LabelAfter(n) <==> m == n
  {
    LabelsCollideExactlyOnThePeriod(m, n);
    if m < n {
      var q, r := m / 0xFFFF_FFFF, m % 0xFFFF_FFFF;
      var carry := if r + (n - m) < 0xFFFF_FFFF then 0 else 1;
      ResidueIsUnique(n, q + carry, r + (n - m) - 0xFFFF_FFFF * carry);
    }
  }
}
