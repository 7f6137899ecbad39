/**
 Properties of memory-type selection that relate several calls or pin down
 particular inputs: the empty requirement mask, the lowest-index tie-break,
 superset-versus-overlap, and worked examples.
 */
module MemoryTypeProperties {
  import opened Wrappers
  import opened DivMod
  import opened MemoryTypes
  import opened CTypes

  /** Zero stays zero however often it is shifted. */
  lemma {:induction false} ShiftedZero(i: nat)
    ensures ShiftedRight(0, i) == 0
  {
    if i > 0 {
      ShiftedZero(i - 1);
    }
  }

  /** A 32-bit mask shifted right 32 times is empty. */
  lemma ShiftedOutAll(typeBits: Uint32)
    ensures ShiftedRight(typeBits, MaxMemoryTypes) == 0
  {
    ShiftedRightIsDivision(typeBits, MaxMemoryTypes);
    Pow2Of32();
  }

  /** If bits `from`..31 are all clear, the mask shifted `from` times is empty. */
  lemma {:induction false} ClearFrom(typeBits: Uint32, from: nat)
    requires from <= MaxMemoryTypes
    requires forall j :: from <= j < MaxMemoryTypes ==> !Eligible(typeBits, j)
    ensures ShiftedRight(typeBits, from) == 0
    decreases MaxMemoryTypes - from
  {
    if from == MaxMemoryTypes {
      ShiftedOutAll(typeBits);
    } else {
      ClearFrom(typeBits, from + 1);
      assert !Eligible(typeBits, from);
    }
  }

  /** A mask has no eligible bit in [0, 32) exactly when it is zero. */
  lemma NoEligibleBitIffZero(typeBits: Uint32)
    ensures (forall j :: 0 <= j < MaxMemoryTypes ==> !Eligible(typeBits, j)) <==> typeBits == 0
  {
    if forall j :: 0 <= j < MaxMemoryTypes ==> !Eligible(typeBits, j) {
      ClearFrom(typeBits, 0);
    }
    if typeBits == 0 {
      forall j | 0 <= j < MaxMemoryTypes
        ensures !Eligible(typeBits, j)
      {
        ShiftedZero(j);
      }
    }
  }

  /**
   With no required property every memory type matches, so the selection is
   the lowest set bit of `typeBits`, whatever the catalog says, and it fails
   only when `typeBits` is zero.
   */
  lemma EmptyMaskSelectsLowestSetBit(catalog: Catalog, typeBits: Uint32)
    ensures forall i: nat :: SelectMemoryType(catalog, typeBits, 0) == Some(i) <==>
      i < MaxMemoryTypes && Eligible(typeBits, i) && forall j :: 0 <= j < i ==> !Eligible(typeBits, j)
    ensures SelectMemoryType(catalog, typeBits, 0) == None <==> typeBits == 0
  {
    assert forall j: nat :: Suitable(catalog, typeBits, 0, j) <==> j < MaxMemoryTypes && Eligible(typeBits, j);
    NoEligibleBitIffZero(typeBits);
  }

  /** When two indices both qualify, the lower one is chosen and the higher never is. */
  lemma LowerSuitableIndexWins(catalog: Catalog, typeBits: Uint32, requirementsMask: bv32, i: nat, j: nat)
    requires i < j
    requires Suitable(catalog, typeBits, requirementsMask, i)
    requires Suitable(catalog, typeBits, requirementsMask, j)
    ensures SelectMemoryType(catalog, typeBits, requirementsMask) != Some(j)
    ensures SelectMemoryType(catalog, typeBits, requirementsMask).Some?
    ensures SelectMemoryType(catalog, typeBits, requirementsMask).value <= i
  {
  }

  /** When exactly one index qualifies, it is the one chosen. */
  lemma OnlySuitableIndexIsSelected(catalog: Catalog, typeBits: Uint32, requirementsMask: bv32, k: nat)
    requires Suitable(catalog, typeBits, requirementsMask, k)
    requires forall j :: 0 <= j < MaxMemoryTypes && j != k ==> !Suitable(catalog, typeBits, requirementsMask, j)
    ensures SelectMemoryType(catalog, typeBits, requirementsMask) == Some(k)
  {
  }

  /** A catalog with the given flags at the front and no properties after them. */
  function CatalogOf(front: seq<bv32>): (c: Catalog)
    requires |front| <= MaxMemoryTypes
    ensures forall i :: 0 <= i < |front| ==> c[i].propertyFlags == front[i]
    ensures forall i :: |front| <= i < MaxMemoryTypes ==> c[i].propertyFlags == 0
  {
    seq(MaxMemoryTypes, i requires 0 <= i < MaxMemoryTypes => if i < |front| then MemoryType(front[i]) else MemoryType(0))
  }

  /**
   Types 0: host-visible, 1: device-local, 2: host-visible and host-coherent.
   Only types 1 and 2 eligible, host-visible required: type 2 is chosen (type 0
   is not eligible, type 1 lacks host-visible).
   */
  lemma ExampleSelectsIndexTwo()
    ensures SelectMemoryType(CatalogOf([HostVisibleBit, DeviceLocalBit, HostVisibleBit | HostCoherentBit]), 0x6, HostVisibleBit) == Some(2)
  {
  }

  /** Same catalog, only type 1 eligible: it lacks host-visible, so selection fails. */
  lemma ExampleNoSuitableType()
    ensures SelectMemoryType(CatalogOf([HostVisibleBit, DeviceLocalBit, HostVisibleBit | HostCoherentBit]), 0x2, HostVisibleBit) == None
  {
  }

  /**
   Sharing one required flag is not enough: a host-visible type does not
   satisfy a host-visible and host-coherent requirement.
   */
  lemma ExampleOverlapIsNotEnough()
    ensures SelectMemoryType(CatalogOf([HostVisibleBit]), 0x1, HostVisibleBit | HostCoherentBit) == None
  {
  }
}
