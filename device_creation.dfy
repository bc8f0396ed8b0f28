/**
 * The queue part of `create_device` (sprocket/src/graphics/vulkan/mod.rs):
 * the graphics and present family indices go into a `HashSet`, and one
 * `VkDeviceQueueCreateInfo` with a single queue is pushed per element of
 * the set, in the set's (unspecified) iteration order.
 */
module DeviceCreation {
  import opened Wrappers
  import opened QueueFamilyResolution

  /** A `VkDeviceQueueCreateInfo`: the family index and `queueCount`, the length of `priorities`. */
  datatype QueueCreateInfo = QueueCreateInfo(queueFamilyIndex: nat, queueCount: nat)

  /** Vulkan's valid-usage rule for `VkDeviceCreateInfo`: no family index is used twice. */
  ghost predicate UniqueFamilies(infos: seq<QueueCreateInfo>) {
    forall i, j :: 0 <= i < j < |infos| ==> infos[i].queueFamilyIndex != infos[j].queueFamilyIndex
  }

  lemma PairSize(a: nat, b: nat)
    ensures |{a, b}| == if a == b then 1 else 2
  {
  }

  /**
   * The queue create-infos `create_device` builds. The `unwrap`s require both
   * families to be present; their queue priority list `[1.0]` gives one queue each.
   */
  method QueueCreateInfos(families: QueueFamilies) returns (infos: seq<QueueCreateInfo>)
    requires families.graphics.Some? && families.present.Some?
    ensures UniqueFamilies(infos)
    ensures forall i :: 0 <= i < |infos| ==>
      infos[i].queueFamilyIndex == families.graphics.value || infos[i].queueFamilyIndex == families.present.value
    ensures exists i :: 0 <= i < |infos| && infos[i].queueFamilyIndex == families.graphics.value
    ensures exists i :: 0 <= i < |infos| && infos[i].queueFamilyIndex == families.present.value
    ensures |infos| == if families.graphics.value == families.present.value then 1 else 2
    ensures forall i :: 0 <= i < |infos| ==> infos[i].queueCount == 1
  {
    var uniqueFamilies: set<nat> := {};
    uniqueFamilies := uniqueFamilies + {families.graphics.value};
    uniqueFamilies := uniqueFamilies + {families.present.value};
    assert uniqueFamilies == {families.graphics.value, families.present.value};
    PairSize(families.graphics.value, families.present.value);
    infos := [];
    var remaining := uniqueFamilies;
    while remaining != {}
      invariant remaining <= uniqueFamilies
      invariant |infos| + |remaining| == |uniqueFamilies|
      invariant forall i :: 0 <= i < |infos| ==>
        infos[i].queueFamilyIndex in uniqueFamilies && infos[i].queueFamilyIndex !in remaining && infos[i].queueCount == 1
      invariant forall f :: f in uniqueFamilies && f !in remaining ==>
        exists i :: 0 <= i < |infos| && infos[i].queueFamilyIndex == f
      invariant UniqueFamilies(infos)
      decreases |remaining|
    {
      var family :| family in remaining;
      ghost var before := infos;
      infos := infos + [QueueCreateInfo(family, 1)];
      assert infos[|before|].queueFamilyIndex == family;
      assert forall i :: 0 <= i < |before| ==> infos[i] == before[i];
      remaining := remaining - {family};
    }
  }
}
