# Vulkan NDK template: memory-type selection and capability scans

This project models the one piece of real logic in an Android Vulkan setup
scaffold: choosing a memory type for an allocation. Given a 32-bit
eligibility mask `typeBits` and a required property-flag mask, the routine
picks the lowest memory type `i` that is eligible (bit `i` of `typeBits` is
set) and whose `propertyFlags` contain every required flag. This is the
`memoryTypeBits` / `propertyFlags` matching rule of section 10.2 (Device
Memory) of the Vulkan 1.0 specification. Two routines do it:

- `AllocateMemoryTypeFromProperties` reads the memory-type catalog fetched at
  device creation. It returns `VK_SUCCESS` or `VK_ERROR_MEMORY_MAP_FAILED`.
- `MapMemoryTypeToIndex` queries the driver for the catalog again. It
  returns `true` or `false`.

The catalog is a parameter here: a `Catalog`, a sequence of exactly 32
`MemoryType` entries. With the catalog fixed, both routines are the same
"first index satisfying a predicate" query. The same first-match pattern also
drives the two capability searches of setup, which are modelled too: the
first queue family with the graphics bit, and the first surface format equal
to `R8G8B8A8_UNORM`.

Modules:

- `FirstMatch` (`first_match.dfy`): the generic first-match query. `First` is
  the pure version over indices `[0, n)`. `FirstIn` is the same query over
  the elements of a sequence. `Scan` is the imperative loop with a `break`.
- `MemoryTypes` (`memory_types.dfy`): the catalog, the flag constants and
  the selection rule `SelectMemoryType`. `ScanMemoryTypes` is the shared
  shift-and-test loop. `AllocateMemoryTypeFromProperties` and
  `MapMemoryTypeToIndex` are the two routines built on it.
- `MemoryTypeProperties` (`memory_type_properties.dfy`): the empty-mask
  boundary, the tie-break, and worked examples.
- `DeviceSetup` (`device_setup.dfy`): the queue-family and surface-format
  searches.
- `DivMod` (`div_mod.dfy`), `CTypes` (`c_types.dfy`) and `Wrappers`
  (`wrappers.dfy`): arithmetic helpers, the `uint32_t` type and `Option`.

Modelling choices:

- `typeBits` and the index `*typeIndex` are `Uint32`, integers in
  `[0, 2^32)`. The loop tests `(typeBits & 1) == 1` and then does
  `typeBits >>= 1`. On an unsigned value these are exactly `% 2 == 1` and
  `/ 2`, and the model writes them that way. `Eligible(typeBits, i)` tests
  bit 0 of `typeBits` shifted right `i` times. `ShiftedRightIsDivision` proves
  that this shift is division by `2^i`, so `Eligible` is bit `i` in the usual
  sense, `(typeBits / 2^i) % 2 == 1`.
- Property flags are `bv32`, because the match needs a bitwise AND:
  `flags & required == required`. That is a superset test, not an overlap
  test.
- The out-parameter `*typeIndex` becomes an input `typeIndexIn` plus an
  output `typeIndex`. On failure the output equals the input, because the
  routine never writes through it.
- Both source routines scan all 32 entries and never read `memoryTypeCount`.
  The model does the same, so entries past the driver's count take part with
  whatever flags the catalog holds.
- The two setup searches run the loop as written: `FirstMatch.Scan` stops
  at the first hit, or runs off the end and returns the count. In setup,
  "no graphics family" and "no `R8G8B8A8_UNORM` format" are then checked by a
  C `assert`. `DeviceSetup` states those asserts as preconditions.
  Queue-family and format counts are `uint32_t`, so sequence lengths are
  below `2^32`.

## Model

| member | source | states |
|---|---|---|
| MemoryTypes.SelectMemoryType | app/src/main/cpp/VulkanMain.cpp:285-299 | Returns `Some(i)` exactly when `i` is below 32, eligible in `typeBits`, has every required flag, and no lower index is all three. Returns `None` exactly when no index in [0, 32) qualifies. |
| MemoryTypes.ScanMemoryTypes | app/src/main/cpp/VulkanMain.cpp:287-296 | The shift-and-test loop finds an index exactly when the selection rule does, and it finds the same index. On failure the index output keeps its old value. Loop invariant: the remaining mask is the original shifted right `i` times. |
| MemoryTypes.AllocateMemoryTypeFromProperties | app/src/main/cpp/VulkanMain.cpp:285-299 | On `VkSuccess`, `typeIndex < 32`, bit `typeIndex` of `typeBits` is set, the entry has every required flag, and no lower index qualifies. `VkErrorMemoryMapFailed` is returned exactly when no index qualifies, and then `*typeIndex` is unchanged. |
| MemoryTypes.MapMemoryTypeToIndex | app/src/main/cpp/VulkanMain.cpp:302-317 | The same guarantees as the first routine, for the catalog it fetches itself: `true` with the lowest qualifying index, or `false` exactly when none qualifies, with `*typeIndex` unchanged. |
| MemoryTypes.RoutinesAgree | app/src/main/cpp/VulkanMain.cpp:285-317 | Given the same catalog, the two routines agree: `VkSuccess` exactly when `true`, and the same index in both cases. |
| MemoryTypes.ShiftedRightIsDivision | app/src/main/cpp/VulkanMain.cpp:288-295 | Testing bit 0 after `i` rounds of `typeBits >>= 1` reads bit `i` of the original mask, because `i` shifts divide by `2^i`. |
| MemoryTypeProperties.NoEligibleBitIffZero | app/src/main/cpp/VulkanMain.cpp:287-295 | A 32-bit `typeBits` has no set bit among bits 0 to 31 exactly when it is zero. |
| MemoryTypeProperties.EmptyMaskSelectsLowestSetBit | app/src/main/cpp/VulkanMain.cpp:288-290 | With an empty requirement mask the result is the lowest set bit of `typeBits`, whatever the catalog holds. It fails only when `typeBits == 0`. |
| MemoryTypeProperties.LowerSuitableIndexWins | app/src/main/cpp/VulkanMain.cpp:287-296 | When indices `i < j` both qualify, the result is at most `i` and never `j`. |
| MemoryTypeProperties.OnlySuitableIndexIsSelected | app/src/main/cpp/VulkanMain.cpp:287-296 | When exactly one index `k` qualifies, the result is `k`. |
| MemoryTypeProperties.ExampleSelectsIndexTwo | app/src/main/cpp/VulkanMain.cpp:288-292 | Types [host-visible, device-local, host-visible and host-coherent] with mask `0b110` and host-visible required: index 2 is chosen. |
| MemoryTypeProperties.ExampleNoSuitableType | app/src/main/cpp/VulkanMain.cpp:297-298 | Same catalog with mask `0b010`: the only eligible type lacks host-visible, so selection fails. |
| MemoryTypeProperties.ExampleOverlapIsNotEnough | app/src/main/cpp/VulkanMain.cpp:290 | A host-visible type does not satisfy a host-visible and host-coherent requirement. Sharing one flag is not a match. |
| FirstMatch.First | app/src/main/cpp/VulkanMain.cpp:287-296 | The generic first-match query returns `Some(i)` exactly when `i < n`, `p(i)` holds and no smaller index satisfies `p`. It returns `None` exactly when no index below `n` does. |
| FirstMatch.Scan | app/src/main/cpp/VulkanMain.cpp:132-136 | The loop that breaks on the first hit returns an index no larger than the count. No earlier element satisfies `p`. The index is below the count exactly when some element satisfies `p`, and then that element does. Its result matches the pure query: `Some(i)`, or `None` when it ran off the end. |
| DeviceSetup.FindGraphicsQueueFamily | app/src/main/cpp/VulkanMain.cpp:125-138 | Returns the lowest family index below `queueFamilyCount` whose flags include `VK_QUEUE_GRAPHICS_BIT`. The source asserts that a family exists and that one is found, so the model requires both. |
| DeviceSetup.ChooseSurfaceFormat | app/src/main/cpp/VulkanMain.cpp:186-193 | Returns the lowest position holding `VK_FORMAT_R8G8B8A8_UNORM` and the entry there. That entry's format becomes the display format. The source asserts that one is found. |

## Left out

- Every Vulkan and Android call is left out: creating and destroying the instance, surface, physical and logical device, swapchain, image views and framebuffers, and registering the debug-report callback (VulkanMain.cpp:75-280, 320-378). They are calls into a driver this model cannot see.
- The driver queries for the memory-type catalog (VulkanMain.cpp:140, 304) are left out. The catalog is a parameter instead.
- The queue-family and surface-format list queries are left out. Their results are parameters.
- Global state (the device and swapchain structs, the `initialized` flag, `IsVulkanReady`) and the stub `VulkanDrawFrame` are left out. They only store and return values.
- Logging and the `CALL_VK` / `ASSERT` wrappers in Util.h are left out. `ASSERT` logs and aborts through `__android_log_assert`. It is not used in the modelled file. `CALL_VK` logs and then calls the C `assert(false)`, which does nothing when `NDEBUG` is defined. It only guards the Vulkan calls that are left out.
- DeviceSetup.FindGraphicsQueueFamily: requires a graphics family, because the source's check is a C `assert` (VulkanMain.cpp:137). In a release build with `NDEBUG` that assert is compiled out. Then the loop ends with `queueFamilyIndex == queueFamilyCount`, and that out-of-range index is stored and passed to device creation (VulkanMain.cpp:138, 151). `FirstMatch.Scan` models that outcome, returning the count. The method does not follow it past the assert.
- DeviceSetup.ChooseSurfaceFormat: requires an `R8G8B8A8_UNORM` entry, for the same reason (VulkanMain.cpp:190). In a release build the missing-format case reads `formats[formatCount]`, one past the end of the array (VulkanMain.cpp:193, 201-202). That read is undefined behaviour and is not modelled. `FirstMatch.Scan` covers the loop up to it, returning the count.
- ValidationLayers.h and CreateShaderModule.h are left out. They hold declarations only, and shader loading is file I/O.
- The floating-point queue priority is left out.
- `MemoryType` carries only `propertyFlags`. The `heapIndex` field is not read by the selection.
- `QueueFamilyProperties` carries only `queueFlags`. The search reads no other field.
- Setup fields that are fixed settings and not computed are left out: swapchain image count, present mode, sharing mode and transform.
