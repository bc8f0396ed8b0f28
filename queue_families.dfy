/**
 * `QueueFamilies::find` (sprocket/src/graphics/vulkan/mod.rs): one pass over
 * a device's queue families that records an index per capability. Every
 * match overwrites the index recorded so far, so the LAST qualifying family
 * is the one kept.
 */
module QueueFamilyResolution {
  import opened Wrappers
  import opened VkTypes

  /** The `QueueFamilies` record. */
  datatype QueueFamilies = QueueFamilies(
    graphics: Option<nat>,
    present: Option<nat>,
    compute: Option<nat>,
    presentSupport: bool)

  /** The index of the last `true` in `flags`. */
  function LastMatch(flags: seq<bool>): (r: Option<nat>)
    ensures r.Some? <==> exists i :: 0 <= i < |flags| && flags[i]
    ensures r.Some? ==> r.value < |flags| && flags[r.value]
    ensures r.Some? ==> forall j :: r.value < j < |flags| ==> !flags[j]
  {
    if flags == [] then None
    else if flags[|flags| - 1] then Some(|flags| - 1)
    else LastMatch(flags[..|flags| - 1])
  }

  /** `get_physical_device_surface_support(..).unwrap_or(false)`: a failed query counts as "no". */
  function Presentable(surfaceSupport: nat -> Result<bool, VkError>, i: nat): (b: bool)
    ensures b <==> surfaceSupport(i) == Ok(true)
  {
    surfaceSupport(i).UnwrapOr(false)
  }

  function GraphicsFlags(families: seq<QueueFamilyProperties>): (f: seq<bool>)
    ensures |f| == |families| && forall i :: 0 <= i < |f| ==> f[i] == families[i].graphics
  {
    seq(|families|, i requires 0 <= i < |families| => families[i].graphics)
  }

  function ComputeFlags(families: seq<QueueFamilyProperties>): (f: seq<bool>)
    ensures |f| == |families| && forall i :: 0 <= i < |f| ==> f[i] == families[i].compute
  {
    seq(|families|, i requires 0 <= i < |families| => families[i].compute)
  }

  function PresentFlags(n: nat, surfaceSupport: nat -> Result<bool, VkError>): (f: seq<bool>)
    ensures |f| == n && forall i :: 0 <= i < n ==> f[i] == Presentable(surfaceSupport, i)
  {
    seq(n, i requires 0 <= i < n => Presentable(surfaceSupport, i))
  }

  /**
   * The record `find` builds. `presentSupport` is the answer of the second,
   * repeated support query, made for the last present-capable family.
   */
  function Resolve(families: seq<QueueFamilyProperties>, surfaceSupport: nat -> Result<bool, VkError>): (qf: QueueFamilies)
    ensures qf.graphics.Some? <==> exists i :: 0 <= i < |families| && families[i].graphics
    ensures qf.graphics.Some? ==> var g := qf.graphics.value;
      g < |families| && families[g].graphics && forall j :: g < j < |families| ==> !families[j].graphics
    ensures qf.present.Some? <==> exists i :: 0 <= i < |families| && Presentable(surfaceSupport, i)
    ensures qf.present.Some? ==> var p := qf.present.value;
      p < |families| && Presentable(surfaceSupport, p)
      && forall j :: p < j < |families| ==> !Presentable(surfaceSupport, j)
    ensures qf.compute.Some? <==> exists i :: 0 <= i < |families| && families[i].compute
    ensures qf.compute.Some? ==> var c := qf.compute.value;
      c < |families| && families[c].compute && forall j :: c < j < |families| ==> !families[j].compute
    // the repeated query agrees with the first, as the driver is deterministic
    ensures qf.presentSupport <==> qf.present.Some?
  {
    var present := LastMatch(PresentFlags(|families|, surfaceSupport));
    QueueFamilies(
      LastMatch(GraphicsFlags(families)),
      present,
      LastMatch(ComputeFlags(families)),
      present.Some? && Presentable(surfaceSupport, present.value))
  }

  /** Appending one more flag to a prefix: the new index wins when it matches. */
  lemma LastMatchSnoc(flags: seq<bool>, i: nat)
    requires i < |flags|
    ensures LastMatch(flags[..i + 1]) == if flags[i] then Some(i) else LastMatch(flags[..i])
  {
  }

  /** The loop of `find`, querying surface support twice for a present-capable family. */
  method Find(families: seq<QueueFamilyProperties>, surfaceSupport: nat -> Result<bool, VkError>) returns (qf: QueueFamilies)
    ensures qf == Resolve(families, surfaceSupport)
  {
    var graphicsFamily: Option<nat> := None;
    var presentationFamily: Option<nat> := None;
    var computeFamily: Option<nat> := None;
    var presentSupport := false;
    ghost var gf, pf, cf := GraphicsFlags(families), PresentFlags(|families|, surfaceSupport), ComputeFlags(families);
    for i := 0 to |families|
      invariant graphicsFamily == LastMatch(gf[..i])
      invariant presentationFamily == LastMatch(pf[..i])
      invariant computeFamily == LastMatch(cf[..i])
      invariant presentSupport == (presentationFamily.Some? && Presentable(surfaceSupport, presentationFamily.value))
    {
      LastMatchSnoc(gf, i);
      LastMatchSnoc(pf, i);
      LastMatchSnoc(cf, i);
      if families[i].graphics {
        graphicsFamily := Some(i);
      }
      if surfaceSupport(i).UnwrapOr(false) {
        presentationFamily := Some(i);
        presentSupport := surfaceSupport(i).UnwrapOr(false);
      }
      if families[i].compute {
        computeFamily := Some(i);
      }
    }
    assert gf[..|families|] == gf && pf[..|families|] == pf && cf[..|families|] == cf;
    qf := QueueFamilies(graphicsFamily, presentationFamily, computeFamily, presentSupport);
  }
}
