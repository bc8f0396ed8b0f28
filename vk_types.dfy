/**
 * The data a Vulkan driver reports about a physical device, reduced to what
 * the device-selection logic of `sprocket/src/graphics/vulkan/mod.rs` reads.
 */
module VkTypes {
  import opened Wrappers

  const U32_MAX: int := 0xFFFF_FFFF

  /** Rust's `u32`. */
  type u32 = x: int | 0 <= x <= U32_MAX

  /** A failing `VkResult` code returned by a driver query. */
  datatype VkError = VkError(code: int)

  /** `VkPhysicalDeviceType`. */
  datatype DeviceType = Other | IntegratedGpu | DiscreteGpu | VirtualGpu | Cpu

  /** The four `VkPhysicalDeviceLimits` that `rate_device` adds to the score. */
  datatype Limits = Limits(
    maxFramebufferHeight: u32,
    maxFramebufferWidth: u32,
    maxImageDimension2D: u32,
    maxColorAttachments: u32)

  /** The `GRAPHICS` and `COMPUTE` bits of one family's `queue_flags`. */
  datatype QueueFamilyProperties = QueueFamilyProperties(graphics: bool, compute: bool)

  /**
   * What `Swapchain::query_support` returns: the image-count bounds of
   * `VkSurfaceCapabilitiesKHR` and the lengths of the format and
   * present-mode lists.
   */
  datatype SwapchainSupport = SwapchainSupport(
    minImageCount: u32,
    maxImageCount: u32,
    formatCount: nat,
    presentModeCount: nat)

  /**
   * A candidate GPU as the driver describes it for one fixed surface.
   * `surfaceSupport(i)` is the answer of `get_physical_device_surface_support`
   * for queue family `i`; being a function it answers the same question the
   * same way every time. `extensions` holds the raw, NUL-terminated
   * `extension_name` buffers, or the error of the enumeration.
   */
  datatype PhysicalDevice = PhysicalDevice(
    deviceType: DeviceType,
    limits: Limits,
    queueFamilies: seq<QueueFamilyProperties>,
    surfaceSupport: nat -> Result<bool, VkError>,
    extensions: Result<seq<seq<char>>, VkError>,
    swapchainSupport: Result<SwapchainSupport, VkError>)
}
