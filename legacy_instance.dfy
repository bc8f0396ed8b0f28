/**
 * The older `sprocket/src/graphics/vulkan.rs`: its
 * `check_validation_layer_support` and the extension and layer lists that
 * `create_instance` hands to `vkCreateInstance`.
 */
module LegacyInstance {
  import opened Wrappers
  import opened VkTypes
  import opened CStrings
  import opened NameCheck

  const DEBUG_UTILS_EXTENSION: string := "VK_EXT_debug_utils"

  /** Rust's `as u32` on a length: the value modulo 2^32. */
  function AsU32(n: nat): (r: u32)
    ensures n <= U32_MAX ==> r == n
  {
    n % 0x1_0000_0000
  }

  /** The name and count fields of the `VkInstanceCreateInfo` that `create_instance` builds. */
  datatype InstanceCreateInfo = InstanceCreateInfo(
    enabledExtensionNames: seq<string>,
    enabledExtensionCount: u32,
    enabledLayerNames: seq<seq<char>>,
    enabledLayerCount: u32)

  /**
   * Lists the available instance layers (`enumerated`, the driver's answer)
   * and scans them for each requested layer with a `found` flag, returning
   * at the first one that is missing.
   */
  method CheckValidationLayerSupport(enumerated: Result<seq<seq<char>>, VkError>, layers: seq<string>)
    returns (r: Result<(), LayerError>)
    ensures r == LayerCheck(enumerated, layers)
    ensures enumerated.Ok? ==> (r.Ok? <==> forall k :: 0 <= k < |layers| ==> layers[k] in Names(enumerated.value))
  {
    var availableLayers;
    match enumerated {
      case Ok(buffers) => availableLayers := Names(buffers);
      case Err(e) => return Err(CouldNotEnumerate(e));
    }
    for k := 0 to |layers|
      invariant forall j :: 0 <= j < k ==> layers[j] in availableLayers
    {
      var found := false;
      for a := 0 to |availableLayers|
        invariant found <==> layers[k] in availableLayers[..a]
      {
        if availableLayers[a] == layers[k] {
          found := true;
          break;
        }
      }
      if !found {
        assert availableLayers[..|availableLayers|] == availableLayers;
        return Err(MissingLayer(layers[k]));
      }
    }
    return Ok(());
  }

  /**
   * The extension list: the names glfw requires, copied one by one in
   * their order, then `VK_EXT_debug_utils`. The source pushes pointers to
   * NUL-terminated C strings; here each name is the string the pointer
   * designates, without its terminator.
   */
  method InstanceExtensions(glfwExtensions: seq<string>) returns (extensions: seq<string>)
    requires |glfwExtensions| <= U32_MAX
    ensures |extensions| == |glfwExtensions| + 1
    ensures extensions[..|glfwExtensions|] == glfwExtensions
    ensures extensions[|glfwExtensions|] == DEBUG_UTILS_EXTENSION
  {
    extensions := [];
    for i := 0 to |glfwExtensions|
      invariant extensions == glfwExtensions[..i]
    {
      extensions := extensions + [glfwExtensions[i]];
    }
    extensions := extensions + [DEBUG_UTILS_EXTENSION];
  }

  /**
   * The layer list: each requested name converted with `CString::new`,
   * whose `expect` panics on a name holding a NUL.
   */
  function LayerNames(layers: seq<string>): (names: seq<seq<char>>)
    requires forall k :: 0 <= k < |layers| ==> '\0' !in layers[k]
    ensures |names| == |layers|
    ensures forall k :: 0 <= k < |layers| ==> |names[k]| == |layers[k]| + 1 && names[k][|layers[k]|] == '\0'
    ensures forall k :: 0 <= k < |layers| ==> FromPtr(names[k]) == layers[k]
  {
    seq(|layers|, k requires 0 <= k < |layers| => FromPtrOfNew(layers[k]); New(layers[k]))
  }

  /** The create-info `create_instance` passes to the driver. */
  method CreateInstanceInfo(glfwExtensions: seq<string>, layers: seq<string>) returns (info: InstanceCreateInfo)
    requires |glfwExtensions| <= U32_MAX
    requires forall k :: 0 <= k < |layers| ==> '\0' !in layers[k]
    ensures |info.enabledExtensionNames| == |glfwExtensions| + 1
    ensures info.enabledExtensionNames[..|glfwExtensions|] == glfwExtensions
    ensures info.enabledExtensionNames[|glfwExtensions|] == DEBUG_UTILS_EXTENSION
    ensures |glfwExtensions| < U32_MAX ==> info.enabledExtensionCount == |glfwExtensions| + 1
    ensures |info.enabledLayerNames| == |layers|
    ensures forall k :: 0 <= k < |layers| ==> info.enabledLayerNames[k] == New(layers[k])
    ensures forall k :: 0 <= k < |layers| ==> FromPtr(info.enabledLayerNames[k]) == layers[k]
    ensures info.enabledLayerCount == AsU32(|layers|)
  {
    var extensions := InstanceExtensions(glfwExtensions);
    var layerCount := |layers|;
    var layerNames := LayerNames(layers);
    info := InstanceCreateInfo(extensions, AsU32(|extensions|), layerNames, AsU32(layerCount));
  }
}
