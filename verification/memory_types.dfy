/**
 Memory-type selection of the device setup code (VulkanMain.cpp): given a
 32-bit eligibility mask and a required property-flag mask, pick the lowest
 memory type that is eligible and carries every required flag. This is the
 `memoryTypeBits` / `propertyFlags` matching rule of section 10.2 (Device
 Memory) of the Vulkan 1.0 specification.

 The driver's memory-type catalog is a parameter: one routine reads a copy
 fetched earlier, the other fetches it again itself, but both then scan the
 same 32 entries the same way.
 */
module MemoryTypes {
  import opened Wrappers
  import FirstMatch
  import opened DivMod
  import opened CTypes

  /** VK_MAX_MEMORY_TYPES: the catalog has one entry per bit of a 32-bit type mask. */
  const MaxMemoryTypes: nat := 32

  /** VkMemoryPropertyFlagBits of Vulkan 1.0. */
  const DeviceLocalBit: bv32 := 0x1
  const HostVisibleBit: bv32 := 0x2
  const HostCoherentBit: bv32 := 0x4

  /** One entry of VkPhysicalDeviceMemoryProperties.memoryTypes. */
  datatype MemoryType = MemoryType(propertyFlags: bv32)

  /** The driver's memory-type array: always all 32 entries. */
  type Catalog = c: seq<MemoryType> | |c| == MaxMemoryTypes
    witness seq(MaxMemoryTypes, _ => MemoryType(0))

  /** The two status codes AllocateMemoryTypeFromProperties can return. */
  datatype VkResult = VkSuccess | VkErrorMemoryMapFailed

  /**
   `typeBits` after `i` rounds of `typeBits >>= 1`. On an unsigned value a
   right shift by one place is halving, rounding down.
   */
  function ShiftedRight(typeBits: nat, i: nat): (r: nat)
    ensures r <= typeBits
  {
    if i == 0 then typeBits else ShiftedRight(typeBits, i - 1) / 2
  }

  /**
   Bit `i` of `typeBits` is set: after `i` shifts it is the lowest bit (`& 1`).
   `ShiftedRightIsDivision` shows this is bit `i` of the binary representation.
   */
  predicate Eligible(typeBits: Uint32, i: nat)
    requires i < MaxMemoryTypes
  {
    ShiftedRight(typeBits, i) % 2 == 1
  }

  /**
   Shifting right `i` times is dividing by 2 to the `i`: so testing bit 0 of
   the shifted mask, as the scan does, reads bit `i` of the original.
   */
  lemma {:induction false} ShiftedRightIsDivision(typeBits: nat, i: nat)
    ensures ShiftedRight(typeBits, i) == typeBits / Pow2(i)
  {
    if i > 0 {
      ShiftedRightIsDivision(typeBits, i - 1);
      DivDivTwo(typeBits, Pow2(i - 1));
    }
  }

  /** `flags` contains every flag of `required` (a superset, not mere overlap). */
  predicate HasAllFlags(flags: bv32, required: bv32) {
    flags & required == required
  }

  /** Memory type `i` may be used and has every required property. */
  predicate Suitable(catalog: Catalog, typeBits: Uint32, requirementsMask: bv32, i: nat) {
    i < MaxMemoryTypes && Eligible(typeBits, i) && HasAllFlags(catalog[i].propertyFlags, requirementsMask)
  }

  /** `i` is suitable and no lower index is. */
  predicate IsFirstSuitable(catalog: Catalog, typeBits: Uint32, requirementsMask: bv32, i: nat) {
    Suitable(catalog, typeBits, requirementsMask, i) &&
    forall j :: 0 <= j < i ==> !Suitable(catalog, typeBits, requirementsMask, j)
  }

  /**
   The selection rule: the lowest suitable memory type, or `None` when no
   index in [0, 32) is suitable.
   */
  function SelectMemoryType(catalog: Catalog, typeBits: Uint32, requirementsMask: bv32): (r: Option<nat>)
    ensures forall i: nat :: r == Some(i) <==> IsFirstSuitable(catalog, typeBits, requirementsMask, i)
    ensures r == None <==> forall j :: 0 <= j < MaxMemoryTypes ==> !Suitable(catalog, typeBits, requirementsMask, j)
  {
    var p := (i: nat) => Suitable(catalog, typeBits, requirementsMask, i);
    assert forall j: nat :: p(j) == Suitable(catalog, typeBits, requirementsMask, j);
    assert forall i: nat :: FirstMatch.IsFirst(MaxMemoryTypes, p, i) <==> IsFirstSuitable(catalog, typeBits, requirementsMask, i);
    FirstMatch.First(MaxMemoryTypes, p)
  }

  /**
   The loop both routines run: test bit 0 of the remaining mask, compare the
   entry's flags, shift the mask right by one. On failure the index output is
   left as it was (`typeIndexIn`).
   */
  method ScanMemoryTypes(catalog: Catalog, typeBits: Uint32, requirementsMask: bv32, typeIndexIn: Uint32)
    returns (found: bool, typeIndex: Uint32)
    ensures found <==> SelectMemoryType(catalog, typeBits, requirementsMask).Some?
    ensures found ==> SelectMemoryType(catalog, typeBits, requirementsMask) == Some(typeIndex)
    ensures !found ==> typeIndex == typeIndexIn
  {
    ghost var selected := SelectMemoryType(catalog, typeBits, requirementsMask);
    var bits: nat := typeBits;
    var i: nat := 0;
    while i < MaxMemoryTypes
      invariant i <= MaxMemoryTypes
      invariant bits == ShiftedRight(typeBits, i)
      invariant forall j :: 0 <= j < i ==> !Suitable(catalog, typeBits, requirementsMask, j)
    {
      // `bits % 2` is `bits & 1` and `bits / 2` is `bits >> 1` on an unsigned value.
      if bits % 2 == 1 {
        // Type is available; does it carry every required property?
        if catalog[i].propertyFlags & requirementsMask == requirementsMask {
          assert IsFirstSuitable(catalog, typeBits, requirementsMask, i);
          return true, i;
        }
      }
      bits := bits / 2;
      i := i + 1;
    }
    assert selected == None;
    return false, typeIndexIn;
  }

  /**
   AllocateMemoryTypeFromProperties: the catalog is the copy fetched into the
   device state at setup. VkSuccess with the selected index, or
   VkErrorMemoryMapFailed with the index output untouched.
   */
  method AllocateMemoryTypeFromProperties(catalog: Catalog, typeBits: Uint32, requirementsMask: bv32, typeIndexIn: Uint32)
    returns (result: VkResult, typeIndex: Uint32)
    ensures result == VkSuccess ==>
      typeIndex < MaxMemoryTypes && Eligible(typeBits, typeIndex) &&
      HasAllFlags(catalog[typeIndex].propertyFlags, requirementsMask)
    ensures result == VkSuccess ==>
      forall j :: 0 <= j < typeIndex ==> !Suitable(catalog, typeBits, requirementsMask, j)
    ensures result == VkErrorMemoryMapFailed <==>
      forall j :: 0 <= j < MaxMemoryTypes ==> !Suitable(catalog, typeBits, requirementsMask, j)
    ensures result == VkErrorMemoryMapFailed ==> typeIndex == typeIndexIn
  {
    var found;
    found, typeIndex := ScanMemoryTypes(catalog, typeBits, requirementsMask, typeIndexIn);
    result := if found then VkSuccess else VkErrorMemoryMapFailed;
  }

  /**
   MapMemoryTypeToIndex: the catalog is whatever the driver reports when the
   routine queries it. `true` with the selected index, or `false` with the
   index output untouched.
   */
  method MapMemoryTypeToIndex(catalog: Catalog, typeBits: Uint32, requirementsMask: bv32, typeIndexIn: Uint32)
    returns (ok: bool, typeIndex: Uint32)
    ensures ok ==>
      typeIndex < MaxMemoryTypes && Eligible(typeBits, typeIndex) &&
      HasAllFlags(catalog[typeIndex].propertyFlags, requirementsMask)
    ensures ok ==> forall j :: 0 <= j < typeIndex ==> !Suitable(catalog, typeBits, requirementsMask, j)
    ensures !ok <==> forall j :: 0 <= j < MaxMemoryTypes ==> !Suitable(catalog, typeBits, requirementsMask, j)
    ensures !ok ==> typeIndex == typeIndexIn
  {
    ok, typeIndex := ScanMemoryTypes(catalog, typeBits, requirementsMask, typeIndexIn);
  }

  /**
   Given the same catalog, the two routines agree: VkSuccess exactly when
   `true`, with the same index; and on failure both leave the index alone.
   */
  method RoutinesAgree(catalog: Catalog, typeBits: Uint32, requirementsMask: bv32, typeIndexIn: Uint32)
    returns (result: VkResult, allocatedIndex: Uint32, ok: bool, mappedIndex: Uint32)
    ensures (result == VkSuccess) == ok
    ensures allocatedIndex == mappedIndex
  {
    result, allocatedIndex := AllocateMemoryTypeFromProperties(catalog, typeBits, requirementsMask, typeIndexIn);
    ok, mappedIndex := MapMemoryTypeToIndex(catalog, typeBits, requirementsMask, typeIndexIn);
    if ok {
      assert IsFirstSuitable(catalog, typeBits, requirementsMask, allocatedIndex);
      assert IsFirstSuitable(catalog, typeBits, requirementsMask, mappedIndex);
    }
  }
}
