/**
 * The name-membership search shared by `check_validation_layer_support`
 * (both versions) and the device-extension check in `rate_device`: for each
 * requested name in order, scan the available names with a `found` flag and
 * stop at the first requested name that is missing.
 */
module NameCheck {
  import opened Wrappers
  import opened VkTypes
  import opened CStrings

  /** The errors of `check_validation_layer_support`. */
  datatype LayerError = CouldNotEnumerate(error: VkError) | MissingLayer(name: string)

  /** Every requested name occurs among the available names. */
  ghost predicate AllPresent(requested: seq<string>, available: seq<string>) {
    forall k :: 0 <= k < |requested| ==> requested[k] in available
  }

  /** The position of the first requested name that is not available, if any. */
  function FirstMissing(requested: seq<string>, available: seq<string>): (r: Option<nat>)
    ensures r.None? <==> AllPresent(requested, available)
    ensures r.Some? ==> r.value < |requested| && requested[r.value] !in available
    ensures r.Some? ==> forall j :: 0 <= j < r.value ==> requested[j] in available
  {
    if requested == [] then None
    else if requested[0] !in available then Some(0)
    else match FirstMissing(requested[1..], available)
      case None => None
      case Some(k) => Some(k + 1)
  }

  /** The nested loops with the `found` flag, returning at the first missing name. */
  method FindMissing(requested: seq<string>, available: seq<string>) returns (missing: Option<nat>)
    ensures missing == FirstMissing(requested, available)
  {
    for k := 0 to |requested|
      invariant forall j :: 0 <= j < k ==> requested[j] in available
    {
      var found := false;
      for a := 0 to |available|
        invariant found <==> requested[k] in available[..a]
      {
        if available[a] == requested[k] {
          found := true;
          break;
        }
      }
      if !found {
        assert available[..|available|] == available;
        return Some(k);
      }
    }
    return None;
  }

  /** Only which names are available matters, not their order or repetitions. */
  lemma FirstMissingIgnoresOrder(requested: seq<string>, available: seq<string>, available': seq<string>)
    requires forall n :: n in available <==> n in available'
    ensures FirstMissing(requested, available) == FirstMissing(requested, available')
  {
  }

  /**
   * What `check_validation_layer_support` returns: an enumeration error
   * first, then the first requested layer that is missing, else success.
   */
  function LayerCheck(enumerated: Result<seq<seq<char>>, VkError>, layers: seq<string>): (r: Result<(), LayerError>)
    ensures enumerated.Err? ==> r == Err(CouldNotEnumerate(enumerated.error))
    ensures enumerated.Ok? ==> (r.Ok? <==> AllPresent(layers, Names(enumerated.value)))
    ensures enumerated.Ok? && r.Err? ==>
      exists k :: (&& 0 <= k < |layers| && r.error == MissingLayer(layers[k])
                   && layers[k] !in Names(enumerated.value)
                   && forall j :: 0 <= j < k ==> layers[j] in Names(enumerated.value))
  {
    match enumerated
    case Err(e) => Err(CouldNotEnumerate(e))
    case Ok(buffers) =>
      match FirstMissing(layers, Names(buffers))
      case None => Ok(())
      case Some(k) => Err(MissingLayer(layers[k]))
  }

  /** An empty request always succeeds once the layers can be listed. */
  lemma EmptyRequestSucceeds(enumerated: Result<seq<seq<char>>, VkError>)
    ensures LayerCheck(enumerated, []) == if enumerated.Ok? then Ok(()) else Err(CouldNotEnumerate(enumerated.error))
  {
  }
}
