/**
 * `rate_device` (sprocket/src/graphics/vulkan/mod.rs): a chain of checks,
 * each of which disqualifies the device with score 0, followed by an
 * additive score that starts at 1.
 */
module DeviceRating {
  import opened Wrappers
  import opened VkTypes
  import opened CStrings
  import opened NameCheck
  import opened QueueFamilyResolution

  const DISCRETE_BONUS: nat := 500

  /**
   * `VkSurfaceCapabilitiesKHR` admits `imageCount` images: at least the
   * minimum and, unless the maximum is 0 (no upper limit), at most the maximum.
   */
  function AdmitsImageCount(caps: SwapchainSupport, imageCount: u32): (ok: bool)
    ensures ok ==> caps.minImageCount <= imageCount
    ensures ok && caps.maxImageCount != 0 ==> imageCount <= caps.maxImageCount
    ensures caps.maxImageCount == 0 ==> (ok <==> caps.minImageCount <= imageCount)
  {
    caps.minImageCount <= imageCount && (caps.maxImageCount == 0 || imageCount <= caps.maxImageCount)
  }

  /** The score of a device that passes every check. */
  function CapabilityScore(dev: PhysicalDevice): (s: nat)
    ensures s >= 1 + dev.limits.maxColorAttachments
    ensures dev.deviceType == DiscreteGpu ==> s >= 1 + DISCRETE_BONUS
  {
    1 + (if dev.deviceType == DiscreteGpu then DISCRETE_BONUS else 0)
      + dev.limits.maxFramebufferHeight / 10
      + dev.limits.maxFramebufferWidth / 10
      + dev.limits.maxImageDimension2D / 10
      + dev.limits.maxColorAttachments
  }

  /** The `u32` additions of `rate_device` do not overflow. */
  predicate ScoreFits(dev: PhysicalDevice) {
    CapabilityScore(dev) <= U32_MAX
  }

  /**
   * What makes a device usable, stated without the checks' order: its
   * extensions can be listed and include every required one, some family
   * does graphics, some family can present to the surface, and its
   * swapchain support can be queried, admits `imageCount` images and lists
   * at least one format and one present mode.
   */
  ghost predicate Suitable(dev: PhysicalDevice, required: seq<string>, imageCount: u32) {
    && dev.extensions.Ok?
    && (forall k :: 0 <= k < |required| ==> required[k] in Names(dev.extensions.value))
    && (exists i :: 0 <= i < |dev.queueFamilies| && dev.queueFamilies[i].graphics)
    && (exists i :: 0 <= i < |dev.queueFamilies| && Presentable(dev.surfaceSupport, i))
    && dev.swapchainSupport.Ok?
    && AdmitsImageCount(dev.swapchainSupport.value, imageCount)
    && dev.swapchainSupport.value.formatCount > 0
    && dev.swapchainSupport.value.presentModeCount > 0
  }

  /** The value `rate_device` returns, check by check in the source's order. */
  function Score(dev: PhysicalDevice, required: seq<string>, imageCount: u32): (s: nat)
    ensures s > 0 <==> Suitable(dev, required, imageCount)
    ensures Suitable(dev, required, imageCount) ==> s == CapabilityScore(dev) && s >= 1
  {
    var qf := Resolve(dev.queueFamilies, dev.surfaceSupport);
    match dev.extensions
    case Err(_) => 0
    case Ok(buffers) =>
      if FirstMissing(required, Names(buffers)).Some? then 0
      else if qf.graphics.None? then 0
      // the `present` and `present_support` checks, both returning 0
      else if qf.present.None? || !qf.presentSupport then 0
      else match dev.swapchainSupport
        case Err(_) => 0
        case Ok(caps) =>
          if caps.minImageCount > imageCount
             || (caps.maxImageCount != 0 && caps.maxImageCount < imageCount) then 0
          else if caps.formatCount == 0 then 0
          else if caps.presentModeCount == 0 then 0
          else CapabilityScore(dev)
  }

  /** The rating itself, with its early returns and the mutable `score`. */
  method RateDevice(dev: PhysicalDevice, required: seq<string>, imageCount: u32) returns (score: u32)
    // only the score of a device that passes every check is summed in `u32`
    requires Suitable(dev, required, imageCount) ==> ScoreFits(dev)
    ensures score == Score(dev, required, imageCount)
  {
    score := 1;
    var queueFamilies := Find(dev.queueFamilies, dev.surfaceSupport);
    if dev.extensions.Err? {
      return 0;
    }
    var available := Names(dev.extensions.value);
    var missing := FindMissing(required, available);
    if missing.Some? {
      return 0;
    }
    if queueFamilies.graphics.None? {
      return 0;
    }
    // the `present` and `present_support` checks, both returning 0
    if queueFamilies.present.None? || !queueFamilies.presentSupport {
      return 0;
    }
    if dev.swapchainSupport.Err? {
      return 0;
    }
    var caps := dev.swapchainSupport.value;
    if caps.minImageCount > imageCount
       || (caps.maxImageCount != 0 && caps.maxImageCount < imageCount) {
      return 0;
    }
    if caps.formatCount == 0 {
      return 0;
    }
    if caps.presentModeCount == 0 {
      return 0;
    }
    assert Score(dev, required, imageCount) == CapabilityScore(dev);
    if dev.deviceType == DiscreteGpu {
      score := score + DISCRETE_BONUS;
    }
    score := score + dev.limits.maxFramebufferHeight / 10;
    score := score + dev.limits.maxFramebufferWidth / 10;
    score := score + dev.limits.maxImageDimension2D / 10;
    score := score + dev.limits.maxColorAttachments;
  }

  /** Two images minimum with no upper limit (maximum 0) admit a request for three. */
  lemma UnboundedMaximumAdmitsThree()
    ensures AdmitsImageCount(SwapchainSupport(2, 0, 1, 1), 3)
    ensures !AdmitsImageCount(SwapchainSupport(4, 0, 1, 1), 3)
    ensures !AdmitsImageCount(SwapchainSupport(1, 2, 1, 1), 3)
  {
  }
}
