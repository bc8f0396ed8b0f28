/**
 * `find_physical_device` (sprocket/src/graphics/vulkan/mod.rs): rate every
 * enumerated device, drop those scoring 0, and reduce the rest with
 * `Iterator::max_by` under the comparator `|(_, prev), (_, score)|
 * score.cmp(prev)`. The comparator is reversed, so the reduction keeps the
 * LOWEST positive score and, among equal scores, the LAST device enumerated.
 */
module DeviceSelection {
  import opened Wrappers
  import opened VkTypes
  import opened QueueFamilyResolution
  import opened DeviceRating
  import opened CStrings

  /** `std::cmp::Ordering`. */
  datatype Ordering = Less | Equal | Greater

  /** `Ord::cmp` on scores. */
  function Cmp(a: nat, b: nat): (o: Ordering)
    ensures o == Less <==> a < b
    ensures o == Equal <==> a == b
    ensures o == Greater <==> a > b
  {
    if a < b then Less else if a == b then Equal else Greater
  }

  /** A device's position in the enumeration, zipped with its score. */
  datatype Rated = Rated(index: nat, score: nat)

  /**
   * `std::cmp::max_by(acc, next, compare)` with the source's comparator:
   * `acc` is kept only when `next.score.cmp(acc.score)` is `Greater`.
   */
  function MaxByStep(acc: Rated, next: Rated): (r: Rated)
    // the lower score wins, and on a tie the later element
    ensures next.score <= acc.score ==> r == next
    ensures acc.score < next.score ==> r == acc
  {
    match Cmp(next.score, acc.score)
    case Greater => acc
    case _ => next
  }

  /** The left fold behind `max_by`. */
  function Reduce(acc: Rated, rest: seq<Rated>): (r: Rated)
    ensures r == acc || r in rest
    ensures r.score <= acc.score && forall j :: 0 <= j < |rest| ==> r.score <= rest[j].score
    decreases |rest|
  {
    if rest == [] then acc else Reduce(MaxByStep(acc, rest[0]), rest[1..])
  }

  /**
   * Among the first `n` elements, position `k` holds the lowest score, and
   * every later one of them scores strictly higher.
   */
  ghost predicate IsLastMinimum(c: seq<Rated>, n: int, k: int) {
    && 0 <= k < n <= |c|
    && (forall j :: 0 <= j < n ==> c[k].score <= c[j].score)
    && (forall j :: k < j < n ==> c[k].score < c[j].score)
  }

  /** One `max_by` step extends the last minimum of `c[..i]` to that of `c[..i + 1]`. */
  lemma MaxByStepExtends(c: seq<Rated>, i: nat, m: nat) returns (m': nat)
    requires IsLastMinimum(c, i, m) && i < |c|
    ensures IsLastMinimum(c, i + 1, m') && MaxByStep(c[m], c[i]) == c[m']
  {
    m' := if c[m].score < c[i].score then m else i;
  }

  /**
   * Folding `c[i..]` into the last minimum of `c[..i]` gives the last minimum
   * of `c`, at position `k`.
   */
  lemma {:induction false} ReduceIsLastMinimum(c: seq<Rated>, i: nat, m: nat) returns (k: nat)
    requires IsLastMinimum(c, i, m)
    ensures IsLastMinimum(c, |c|, k) && c[k] == Reduce(c[m], c[i..])
    decreases |c| - i
  {
    if i == |c| {
      k := m;
    } else {
      var m' := MaxByStepExtends(c, i, m);
      assert c[i..][1..] == c[i + 1..];
      k := ReduceIsLastMinimum(c, i + 1, m');
    }
  }

  /** The fold over a non-empty `c` lands on its last minimum. */
  lemma ReduceFindsLastMinimum(c: seq<Rated>)
    requires c != []
    ensures exists k :: IsLastMinimum(c, |c|, k) && c[k] == Reduce(c[0], c[1..])
  {
    var k := ReduceIsLastMinimum(c, 1, 0);
  }

  /** `Iterator::max_by` with the reversed comparator: `None` exactly on an empty input. */
  function MaxBy(c: seq<Rated>): (r: Option<Rated>)
    ensures r.None? <==> c == []
    ensures r.Some? ==> exists k :: IsLastMinimum(c, |c|, k) && c[k] == r.value
  {
    if c == [] then None
    else
      ReduceFindsLastMinimum(c);
      Some(Reduce(c[0], c[1..]))
  }

  /** `zip(devices, scores).filter(|(_, score)| *score > 0)`, keeping enumeration order. */
  function Candidates(scores: seq<nat>): (c: seq<Rated>)
    ensures forall k :: 0 <= k < |c| ==>
      c[k].index < |scores| && c[k].score == scores[c[k].index] && c[k].score > 0
  {
    if scores == [] then []
    else
      var last := |scores| - 1;
      var front := Candidates(scores[..last]);
      assert forall i :: 0 <= i < last ==> scores[..last][i] == scores[i];
      front + if scores[last] > 0 then [Rated(last, scores[last])] else []
  }

  /** Every device scoring above 0 is a candidate. */
  lemma {:induction false} CandidatesCover(scores: seq<nat>, i: nat)
    requires i < |scores| && scores[i] > 0
    ensures exists k :: 0 <= k < |Candidates(scores)| && Candidates(scores)[k].index == i
  {
    var last := |scores| - 1;
    var front := Candidates(scores[..last]);
    assert Candidates(scores) == front + if scores[last] > 0 then [Rated(last, scores[last])] else [];
    if i < last {
      assert scores[..last][i] == scores[i];
      CandidatesCover(scores[..last], i);
      var k :| 0 <= k < |front| && front[k].index == i;
      assert Candidates(scores)[k] == front[k];
    } else {
      assert Candidates(scores)[|front|].index == i;
    }
  }

  /** Candidates keep the enumeration order. */
  lemma {:induction false} CandidatesOrdered(scores: seq<nat>)
    ensures forall k, l :: 0 <= k < l < |Candidates(scores)| ==> Candidates(scores)[k].index < Candidates(scores)[l].index
  {
    if scores != [] {
      var last := |scores| - 1;
      var front := Candidates(scores[..last]);
      CandidatesOrdered(scores[..last]);
      var c := Candidates(scores);
      assert c == front + if scores[last] > 0 then [Rated(last, scores[last])] else [];
      assert forall k :: 0 <= k < |front| ==> c[k] == front[k] && front[k].index < last;
    }
  }

  /** Every device's rating, in enumeration order. */
  function Scores(devs: seq<PhysicalDevice>, required: seq<string>, imageCount: u32): (s: seq<nat>)
    ensures |s| == |devs|
    ensures forall i :: 0 <= i < |devs| ==> s[i] == Score(devs[i], required, imageCount)
  {
    seq(|devs|, i requires 0 <= i < |devs| => Score(devs[i], required, imageCount))
  }

  /**
   * Position `k` is the one the source picks: it scores above 0, nothing
   * scoring above 0 scores lower, and everything later scoring above 0
   * scores strictly higher.
   */
  ghost predicate LastLowestPositive(scores: seq<nat>, k: int) {
    && 0 <= k < |scores|
    && scores[k] > 0
    && (forall j :: 0 <= j < |scores| && scores[j] > 0 ==> scores[k] <= scores[j])
    && (forall j :: k < j < |scores| && scores[j] > 0 ==> scores[k] < scores[j])
  }

  /** `max_by` over the candidates finds nothing exactly when every score is 0. */
  lemma NoCandidates(scores: seq<nat>)
    ensures MaxBy(Candidates(scores)).None? <==> forall i :: 0 <= i < |scores| ==> scores[i] == 0
  {
  }

  /** Otherwise it picks the last lowest positive score. */
  lemma CandidateChoice(scores: seq<nat>)
    requires MaxBy(Candidates(scores)).Some?
    ensures LastLowestPositive(scores, MaxBy(Candidates(scores)).value.index)
  {
    var c := Candidates(scores);
    var m :| IsLastMinimum(c, |c|, m) && c[m] == MaxBy(c).value;
    var k := c[m].index;
    CandidatesOrdered(scores);
    forall j | 0 <= j < |scores| && scores[j] > 0
      ensures scores[k] <= scores[j]
      ensures k < j ==> scores[k] < scores[j]
    {
      CandidatesCover(scores, j);
      var l :| 0 <= l < |c| && c[l].index == j;
      if k < j {
        assert m < l;
      }
    }
  }

  /** The position `zip`/`filter`/`max_by` selects among the scores. */
  function SelectIndex(scores: seq<nat>): (r: Option<nat>)
    ensures r.None? <==> forall i :: 0 <= i < |scores| ==> scores[i] == 0
    ensures r.Some? ==> LastLowestPositive(scores, r.value)
  {
    NoCandidates(scores);
    match MaxBy(Candidates(scores))
    case None => None
    case Some(best) =>
      CandidateChoice(scores);
      Some(best.index)
  }

  /** A device scoring above 0 has the graphics and present families that `init` unwraps. */
  lemma PositiveScoreHasQueues(dev: PhysicalDevice, required: seq<string>, imageCount: u32)
    requires Score(dev, required, imageCount) > 0
    ensures var qf := Resolve(dev.queueFamilies, dev.surfaceSupport);
      qf.graphics.Some? && qf.present.Some? && qf.presentSupport
  {
  }

  datatype SelectionError = NoSuitableGpu

  /**
   * The device `find_physical_device` returns, with its queue families found
   * again. A failed enumeration counts as no devices (`unwrap_or_default`).
   */
  function FindPhysicalDevice(enumerated: Result<seq<PhysicalDevice>, VkError>, required: seq<string>, imageCount: u32)
    : (r: Result<(PhysicalDevice, QueueFamilies), SelectionError>)
    ensures var scores := Scores(enumerated.UnwrapOr([]), required, imageCount);
      r.Err? <==> forall i :: 0 <= i < |scores| ==> scores[i] == 0
    ensures r.Ok? ==> var devs := enumerated.UnwrapOr([]);
      var scores := Scores(devs, required, imageCount);
      && SelectIndex(scores).Some?
      && var k := SelectIndex(scores).value;
      && LastLowestPositive(scores, k)
      && r.value.0 == devs[k]
      && r.value.1 == Resolve(devs[k].queueFamilies, devs[k].surfaceSupport)
    // so the `unwrap`s of the graphics and present family indices cannot fail
    ensures r.Ok? ==> r.value.1.graphics.Some? && r.value.1.present.Some? && r.value.1.presentSupport
  {
    var devs := enumerated.UnwrapOr([]);
    match SelectIndex(Scores(devs, required, imageCount))
    case None => Err(NoSuitableGpu)
    case Some(k) =>
      var dev := devs[k];
      PositiveScoreHasQueues(dev, required, imageCount);
      Ok((dev, Resolve(dev.queueFamilies, dev.surfaceSupport)))
  }

  const SWAPCHAIN_EXTENSION: string := "VK_KHR_swapchain"

  /** A GPU with one all-purpose queue family, presenting, and an adequate swapchain. */
  function SampleGpu(deviceType: DeviceType, limit: u32, extensions: seq<seq<char>>): PhysicalDevice {
    PhysicalDevice(
      deviceType, Limits(limit, limit, limit, 8),
      [QueueFamilyProperties(true, true)], i => Ok(true),
      Ok(extensions), Ok(SwapchainSupport(2, 8, 1, 1)))
  }

  /** A sample GPU offering the swapchain extension passes every check. */
  lemma SampleGpuSuitable(deviceType: DeviceType, limit: u32)
    ensures Score(SampleGpu(deviceType, limit, [New(SWAPCHAIN_EXTENSION)]), [SWAPCHAIN_EXTENSION], 3)
      == CapabilityScore(SampleGpu(deviceType, limit, [New(SWAPCHAIN_EXTENSION)]))
  {
    var dev := SampleGpu(deviceType, limit, [New(SWAPCHAIN_EXTENSION)]);
    FromPtrOfNew(SWAPCHAIN_EXTENSION);
    assert Names(dev.extensions.value)[0] == SWAPCHAIN_EXTENSION;
    assert Presentable(dev.surfaceSupport, 0) && dev.queueFamilies[0].graphics;
    assert Suitable(dev, [SWAPCHAIN_EXTENSION], 3);
  }

  /** Without the swapchain extension a sample GPU scores 0. */
  lemma SampleGpuLacking(deviceType: DeviceType, limit: u32)
    ensures Score(SampleGpu(deviceType, limit, []), [SWAPCHAIN_EXTENSION], 3) == 0
  {
  }

  /** A discrete GPU, an integrated GPU and a discrete GPU lacking the swapchain extension. */
  function ThreeGpus(): seq<PhysicalDevice> {
    [ SampleGpu(DiscreteGpu, 16384, [New(SWAPCHAIN_EXTENSION)]),
      SampleGpu(IntegratedGpu, 8192, [New(SWAPCHAIN_EXTENSION)]),
      SampleGpu(DiscreteGpu, 16384, []) ]
  }

  /** The discrete GPU scores highest and the one lacking the extension 0. */
  lemma ThreeGpuScores()
    ensures Scores(ThreeGpus(), [SWAPCHAIN_EXTENSION], 3) == [5423, 2466, 0]
  {
    SampleGpuSuitable(DiscreteGpu, 16384);
    SampleGpuSuitable(IntegratedGpu, 8192);
    SampleGpuLacking(DiscreteGpu, 16384);
  }

  /** Of three scores, high, lower and 0, the lower positive one is selected. */
  lemma LowerPositiveSelected(scores: seq<nat>)
    requires |scores| == 3 && scores[0] > scores[1] > 0 == scores[2]
    ensures SelectIndex(scores) == Some(1)
  {
    var k := SelectIndex(scores).value;
    assert scores[k] <= scores[1];
  }

  /** Of three devices scoring high, lower and 0, the selection returns the one with the LOWER positive score. */
  lemma LowerPositiveScoreWins(devs: seq<PhysicalDevice>, required: seq<string>, imageCount: u32)
    requires |devs| == 3
    requires var scores := Scores(devs, required, imageCount); scores[0] > scores[1] > 0 == scores[2]
    ensures FindPhysicalDevice(Ok(devs), required, imageCount).Ok?
    ensures FindPhysicalDevice(Ok(devs), required, imageCount).value.0 == devs[1]
  {
    LowerPositiveSelected(Scores(devs, required, imageCount));
  }

  /** The discrete GPU scores highest, yet the reversed comparator selects the integrated GPU. */
  lemma ThreeCandidates()
    ensures FindPhysicalDevice(Ok(ThreeGpus()), [SWAPCHAIN_EXTENSION], 3).Ok?
    ensures FindPhysicalDevice(Ok(ThreeGpus()), [SWAPCHAIN_EXTENSION], 3).value.0 == ThreeGpus()[1]
  {
    ThreeGpuScores();
    LowerPositiveScoreWins(ThreeGpus(), [SWAPCHAIN_EXTENSION], 3);
  }
}
