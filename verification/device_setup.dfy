/**
 The two capability searches of device and swapchain setup (VulkanMain.cpp):
 the first queue family that supports graphics, and the first surface format
 that is R8G8B8A8_UNORM. Both scans stop at the first hit; when there is none
 the setup code aborts on a C `assert` in a debug build, so here the existence
 of a hit is a precondition.
 */
module DeviceSetup {
  import opened Wrappers
  import FirstMatch
  import opened CTypes

  /** VK_QUEUE_GRAPHICS_BIT. */
  const QueueGraphicsBit: bv32 := 0x1

  /** VK_FORMAT_R8G8B8A8_UNORM. */
  const FormatR8G8B8A8Unorm: int := 37

  /** The part of VkQueueFamilyProperties the search reads. */
  datatype QueueFamilyProperties = QueueFamilyProperties(queueFlags: bv32)

  /** One entry of the surface's supported-format list (VkSurfaceFormatKHR). */
  datatype SurfaceFormat = SurfaceFormat(format: int, colorSpace: int)

  /** The family's flags include the graphics bit. */
  predicate SupportsGraphics(family: QueueFamilyProperties) {
    family.queueFlags & QueueGraphicsBit != 0
  }

  /** The format is R8G8B8A8_UNORM, whatever its color space. */
  predicate IsR8G8B8A8Unorm(surfaceFormat: SurfaceFormat) {
    surfaceFormat.format == FormatR8G8B8A8Unorm
  }

  /**
   The queue-family search of device creation: the lowest family index whose
   flags include the graphics bit. The family count is a `uint32_t` and is
   asserted non-zero; the setup asserts a graphics family was found.
   */
  method FindGraphicsQueueFamily(families: seq<QueueFamilyProperties>) returns (queueFamilyIndex: Uint32)
    requires 0 < |families| < Uint32Limit
    requires exists k :: 0 <= k < |families| && SupportsGraphics(families[k])
    ensures queueFamilyIndex < |families|
    ensures SupportsGraphics(families[queueFamilyIndex])
    ensures forall j :: 0 <= j < queueFamilyIndex ==> !SupportsGraphics(families[j])
    ensures FirstMatch.FirstIn(families, SupportsGraphics) == Some(queueFamilyIndex)
  {
    var i := FirstMatch.Scan(families, SupportsGraphics);
    assert i < |families|;
    queueFamilyIndex := i;
  }

  /**
   The format search of swapchain creation: the lowest position holding
   R8G8B8A8_UNORM, together with the entry there, whose format becomes the
   display format and whose color space the swapchain uses.
   */
  method ChooseSurfaceFormat(formats: seq<SurfaceFormat>) returns (chosenFormat: Uint32, chosen: SurfaceFormat)
    requires |formats| < Uint32Limit
    requires exists k :: 0 <= k < |formats| && IsR8G8B8A8Unorm(formats[k])
    ensures chosenFormat < |formats| && chosen == formats[chosenFormat]
    ensures chosen.format == FormatR8G8B8A8Unorm
    ensures forall j :: 0 <= j < chosenFormat ==> formats[j].format != FormatR8G8B8A8Unorm
    ensures FirstMatch.FirstIn(formats, IsR8G8B8A8Unorm) == Some(chosenFormat)
  {
    var i := FirstMatch.Scan(formats, IsR8G8B8A8Unorm);
    assert i < |formats|;
    chosenFormat := i;
    chosen := formats[chosenFormat];
  }
}
