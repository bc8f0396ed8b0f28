/** `check_validation_layer_support` of sprocket/src/graphics/vulkan/mod.rs. */
module ValidationLayers {
  import opened Wrappers
  import opened VkTypes
  import opened CStrings
  import opened NameCheck

  /**
   * Lists the available instance layers (`enumerated`, the driver's answer)
   * and checks that every requested layer is among them.
   */
  method CheckValidationLayerSupport(enumerated: Result<seq<seq<char>>, VkError>, layers: seq<string>)
    returns (r: Result<(), LayerError>)
    ensures r == LayerCheck(enumerated, layers)
    ensures enumerated.Ok? ==> (r.Ok? <==> forall k :: 0 <= k < |layers| ==> layers[k] in Names(enumerated.value))
  {
    if enumerated.Err? {
      return Err(CouldNotEnumerate(enumerated.error));
    }
    var availableLayers := Names(enumerated.value);
    var missing := FindMissing(layers, availableLayers);
    if missing.Some? {
      return Err(MissingLayer(layers[missing.value]));
    }
    return Ok(());
  }
}
