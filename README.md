# Sprocket GPU selection, modelled in Dafny

Sprocket is a small Rust game engine that draws through Vulkan, using the
`ash` bindings and glfw. This project models the decision logic it runs
while bringing Vulkan up: which queue families a GPU offers, how a GPU is
rated and chosen, which validation layers and instance extensions are
requested, and which queue create-infos are handed to `vkCreateDevice`.
All driver calls are left out. A GPU is a value that records what the
driver would report about it (`VkTypes.PhysicalDevice`):

- its queue families, with their graphics and compute flags;
- a deterministic surface-support oracle per family index;
- its extension name buffers, or the enumeration error;
- its swapchain capabilities, or the query error;
- its device type and four limits.

The modules follow the source:

- `QueueFamilyResolution` models `QueueFamilies::find`.
- `DeviceRating` models `rate_device`.
- `DeviceSelection` models `find_physical_device`.
- `DeviceCreation` models the queue part of `create_device`.
- `ValidationLayers` models `check_validation_layer_support` in
  `sprocket/src/graphics/vulkan/mod.rs`.
- `LegacyInstance` models the older `sprocket/src/graphics/vulkan.rs`: its
  layer check and the names and counts `create_instance` passes to the driver.
- `NameCheck` holds the name search that both layer checks and the
  device-extension check share.
- `CStrings` models `CStr::from_ptr` and `CString::new`.

The model follows the code where a reader might expect something else:

- **Last match.** `find` keeps the LAST qualifying queue family of each
  kind, not the first, because every match overwrites the index recorded
  so far.
- **Reversed comparator.** `find_physical_device` passes `max_by` the
  comparator `score.cmp(prev_score)`, which is reversed. So the device it
  chooses has the LOWEST positive score, and on a tie the one enumerated
  LAST. It does not choose the best-rated device.
  `DeviceSelection.ThreeCandidates` shows this on three sample GPUs. A
  discrete GPU scores 5423, an integrated GPU 2466, and a GPU without the
  swapchain extension 0; the integrated GPU is chosen.
- **Repeated query.** Once a family can present, `find` asks for its surface
  support a second time. With a deterministic driver, `present_support` is
  therefore true exactly when a present family was found: this is the last
  ensures of `Resolve`. `Score`'s characterisation depends on it, because
  `Suitable` asks only for a family that can present and does not mention
  `present_support` separately.

`graphics::SWAPCHAIN_IMAGE_COUNT` is defined in a module that is not part
of this model. It is therefore a parameter, `imageCount`.

## Model

| member | source | states |
|---|---|---|
| `Wrappers.Result.UnwrapOr` | sprocket/src/graphics/vulkan/mod.rs:77-79 | `unwrap_or`: the value on `Ok`, the default on `Err` |
| `CStrings.FromPtr` | sprocket/src/graphics/vulkan/mod.rs:257-260 | the name read from a driver buffer is a NUL-free prefix of the buffer, stopping at the first NUL |
| `CStrings.Names` | sprocket/src/graphics/vulkan/mod.rs:338-343 | the list of names read from the buffers, one per buffer, in order |
| `CStrings.New` | sprocket/src/graphics/vulkan.rs:50-53 | `CString::new` on a NUL-free name: the name followed by exactly one NUL |
| `CStrings.FromPtrOfNew` | sprocket/src/graphics/vulkan.rs:50-55 | reading back a converted name returns the name unchanged |
| `NameCheck.FirstMissing` | sprocket/src/graphics/vulkan/mod.rs:263-274 | `None` exactly when every requested name is available; otherwise the position of a missing name, with every earlier name available |
| `NameCheck.FindMissing` | sprocket/src/graphics/vulkan/mod.rs:351-362 | the nested loops with the `found` flag stop at exactly the first missing requested name |
| `NameCheck.FirstMissingIgnoresOrder` | sprocket/src/graphics/vulkan.rs:83-96 | the outcome depends only on which names are available, not on their order or repetition |
| `NameCheck.LayerCheck` | sprocket/src/graphics/vulkan/mod.rs:252-276 | a failed enumeration is reported first; otherwise `Ok` exactly when every requested layer is available, and an error names the first missing layer |
| `NameCheck.EmptyRequestSucceeds` | sprocket/src/graphics/vulkan.rs:73-83 | an empty request yields `Ok` once the layers can be listed; a failed enumeration is reported even then |
| `ValidationLayers.CheckValidationLayerSupport` | sprocket/src/graphics/vulkan/mod.rs:248-277 | returns the `LayerCheck` outcome; after a successful enumeration, `Ok` exactly when every requested layer is available |
| `LegacyInstance.CheckValidationLayerSupport` | sprocket/src/graphics/vulkan.rs:72-97 | its own nested loops return the `LayerCheck` outcome: the enumeration error, or the first missing layer in request order, or `Ok` exactly when all are present |
| `QueueFamilyResolution.Presentable` | sprocket/src/graphics/vulkan/mod.rs:77-84 | a family counts as presentable exactly when the support query succeeds with `true`; a failed query counts as "no" |
| `QueueFamilyResolution.LastMatch` | sprocket/src/graphics/vulkan/mod.rs:73-89 | `Some` exactly when some flag is set; then the index is in range, its flag is set, and no later flag is |
| `QueueFamilyResolution.LastMatchSnoc` | sprocket/src/graphics/vulkan/mod.rs:74-76 | one more family overwrites the recorded index exactly when it qualifies |
| `QueueFamilyResolution.Resolve` | sprocket/src/graphics/vulkan/mod.rs:62-97 | graphics, present and compute are each `Some` exactly when some family qualifies, and then hold the last qualifying index; `present_support` holds exactly when `present` is `Some` |
| `QueueFamilyResolution.Find` | sprocket/src/graphics/vulkan/mod.rs:62-97 | the loop, with its repeated surface-support query, builds the record `Resolve` describes |
| `DeviceRating.AdmitsImageCount` | sprocket/src/graphics/vulkan/mod.rs:381-386 | an admitted image count is at least the minimum and, when the maximum is not 0, at most the maximum; a maximum of 0 leaves only the minimum |
| `DeviceRating.CapabilityScore` | sprocket/src/graphics/vulkan/mod.rs:395-403 | the score of a passing device is above its colour-attachment count, and above the 500-point bonus for a discrete GPU |
| `DeviceRating.Score` | sprocket/src/graphics/vulkan/mod.rs:325-404 | positive exactly when extensions can be listed and include every required one, some family does graphics, some family presents, and swapchain support can be queried, admits the image count and lists a format and a present mode; then it is `1 + 500 (discrete) + h/10 + w/10 + dim2d/10 + colour attachments` |
| `DeviceRating.RateDevice` | sprocket/src/graphics/vulkan/mod.rs:325-404 | the early-return chain and the `u32` accumulation return `Score`; a device failing a check gets 0 whatever its limits, and a passing device's sum must fit in `u32` |
| `DeviceRating.UnboundedMaximumAdmitsThree` | sprocket/src/graphics/vulkan/mod.rs:381-386 | a maximum image count of 0 sets no upper limit; a larger minimum or a smaller non-zero maximum rejects the request |
| `DeviceSelection.Cmp` | sprocket/src/graphics/vulkan/mod.rs:420 | `Ord::cmp` on scores: `Less`, `Equal` or `Greater` exactly as the first is below, equal to or above the second |
| `DeviceSelection.MaxByStep` | sprocket/src/graphics/vulkan/mod.rs:420 | `std::cmp::max_by` under `score.cmp(prev_score)`: the new element wins when its score is not higher, so the lower score wins and a tie goes to the later element |
| `DeviceSelection.Reduce` | sprocket/src/graphics/vulkan/mod.rs:414-420 | the fold inside `Iterator::max_by` returns the start or one of the rest, scoring no higher than any of them |
| `DeviceSelection.MaxByStepExtends` | sprocket/src/graphics/vulkan/mod.rs:420 | one `max_by` step with the reversed comparator turns the last minimum of a prefix into the last minimum of the prefix one longer |
| `DeviceSelection.ReduceIsLastMinimum` | sprocket/src/graphics/vulkan/mod.rs:420 | folding the rest of the candidates gives the candidate with the lowest score, and no later candidate ties it |
| `DeviceSelection.ReduceFindsLastMinimum` | sprocket/src/graphics/vulkan/mod.rs:420 | the fold over a non-empty candidate list ends on its last minimum |
| `DeviceSelection.MaxBy` | sprocket/src/graphics/vulkan/mod.rs:420 | `None` exactly on no candidates; otherwise the last candidate with the lowest score |
| `DeviceSelection.Candidates` | sprocket/src/graphics/vulkan/mod.rs:414-419 | every candidate carries a device index in range, that device's score, and a score above 0 |
| `DeviceSelection.CandidatesCover` | sprocket/src/graphics/vulkan/mod.rs:419 | every device scoring above 0 is a candidate |
| `DeviceSelection.CandidatesOrdered` | sprocket/src/graphics/vulkan/mod.rs:414-416 | candidates keep the enumeration order |
| `DeviceSelection.Scores` | sprocket/src/graphics/vulkan/mod.rs:416-418 | one score per enumerated device, in order |
| `DeviceSelection.NoCandidates` | sprocket/src/graphics/vulkan/mod.rs:419-423 | `max_by` finds nothing exactly when every device scores 0 |
| `DeviceSelection.CandidateChoice` | sprocket/src/graphics/vulkan/mod.rs:414-422 | the device found scores above 0, no device scoring above 0 scores lower, and every later one scoring above 0 scores strictly higher |
| `DeviceSelection.SelectIndex` | sprocket/src/graphics/vulkan/mod.rs:414-424 | `None` exactly when every score is 0; otherwise the last lowest positive score |
| `DeviceSelection.PositiveScoreHasQueues` | sprocket/src/graphics/vulkan/mod.rs:128-129 | a device scoring above 0 has a graphics family, a present family and present support |
| `DeviceSelection.FindPhysicalDevice` | sprocket/src/graphics/vulkan/mod.rs:406-436 | `Err` exactly when every device scores 0 or none can be enumerated; otherwise the device with the last lowest positive score and its queue families found again, in which the graphics and present `unwrap`s cannot fail; defined for every enumeration, whatever the devices' limits |
| `DeviceSelection.SampleGpuSuitable` | sprocket/src/graphics/vulkan/mod.rs:395-403 | a sample GPU offering the swapchain extension scores its full capability score |
| `DeviceSelection.SampleGpuLacking` | sprocket/src/graphics/vulkan/mod.rs:351-361 | a sample GPU lacking the swapchain extension scores 0 |
| `DeviceSelection.ThreeGpuScores` | sprocket/src/graphics/vulkan/mod.rs:395-403 | the three sample GPUs score 5423, 2466 and 0 |
| `DeviceSelection.LowerPositiveSelected` | sprocket/src/graphics/vulkan/mod.rs:419-420 | of scores high, lower and 0, the lower positive one is selected |
| `DeviceSelection.LowerPositiveScoreWins` | sprocket/src/graphics/vulkan/mod.rs:414-433 | of three devices scoring high, lower and 0, the lower-scoring device is returned |
| `DeviceSelection.ThreeCandidates` | sprocket/src/graphics/vulkan/mod.rs:414-433 | of discrete, integrated and extension-less GPUs, the integrated GPU is chosen |
| `DeviceCreation.PairSize` | sprocket/src/graphics/vulkan/mod.rs:448-451 | the set of the two family indices has one element if they are equal, else two |
| `DeviceCreation.QueueCreateInfos` | sprocket/src/graphics/vulkan/mod.rs:446-459 | one create-info with a single queue per distinct family: family indices pairwise distinct, each the graphics or the present index, both covered, 1 info when the two are equal and 2 otherwise |
| `LegacyInstance.AsU32` | sprocket/src/graphics/vulkan.rs:59-62 | `as u32` leaves a length that fits in `u32` unchanged, and otherwise wraps it modulo 2^32 |
| `LegacyInstance.InstanceExtensions` | sprocket/src/graphics/vulkan.rs:37-44 | the glfw extensions in their order, then exactly one `VK_EXT_debug_utils`; length is the glfw count plus one (names without their NUL terminators) |
| `LegacyInstance.LayerNames` | sprocket/src/graphics/vulkan.rs:49-55 | one name per requested layer, in order, each the name plus a final NUL, and each reading back as the requested name |
| `LegacyInstance.CreateInstanceInfo` | sprocket/src/graphics/vulkan.rs:57-64 | the create-info holds the extension list with its count and the converted layers in request order, each exactly `CString::new` of the requested name (NUL-terminated) and reading back as it; the layer count is the number of requested layers, cast to `u32` |

## Left out

- Driver and window-system calls are left out: creating the entry, instance, surface, debug messenger, semaphores and fences, and `vkCreateInstance`/`vkCreateDevice` themselves. They are foreign calls whose only logic is forwarding errors with `?`. The driver's answers are inputs.
- `create_instance` in `sprocket/src/graphics/vulkan/mod.rs` is modelled only through the `vulkan.rs` version. Its extension list is built by the same loop. Its layer list goes through `utils::vec_to_null_terminated`, which is not part of this model.
- `debug_callback` is left out: it only logs.
- Swapchain, render pass, pipeline, framebuffer and command-buffer construction, and the pre-recording loop in `init`, are left out. Their modules are not part of this model.
- The `Drop` teardown is left out: it is a fixed sequence of driver calls. The model does not claim any cleanup order, and `init` releases nothing when it fails partway.
- `sprocket/src/application.rs` and `sandbox/src/main.rs` are left out: they are I/O, event polling and frame timing.
- Floating-point values are left out: the queue priorities `[1.0]` become a queue count of 1, and the clear colour is not modelled.
- The application name, versions and `apiVersion` of `VkApplicationInfo` are left out: they are constants passed straight to the driver.
- Logging is left out, and so is the text of error messages built by `errfmt!`, `unwrap_or_return!` and `Cow`. Errors are datatypes that carry what the message names: the enumeration error or the missing layer.
- `to_string_lossy` is modelled as the identity on characters. Invalid UTF-8 in a driver buffer is not modelled.
- `CStrings.FromPtr` reads a buffer with no NUL to its end, whereas the driver always terminates its buffers.
- `CStrings.New` requires a name without NUL. `CString::new(..).expect(..)` panics on such a name; the model has no panic.
- Queue family indices are `nat`: `i as u32` never truncates, because the driver reports the family count as a `u32`.
- The surface-support oracle is a function, so the driver is assumed to answer the same query the same way twice. A driver that changes its answer between the two queries in `find` is not modelled.
- `DeviceRating.RateDevice`: requires, for a device that passes every check, that its score fits in `u32`. For such a device the source's `u32` additions would otherwise overflow, panicking in debug builds and wrapping in release. A device that fails a check returns 0 before any addition and is not restricted. `DeviceRating.Score` is the unbounded sum.
- `DeviceSelection.FindPhysicalDevice` rates with the unbounded `Score`; for a passing device whose score overflows `u32`, the wrapped value of the source is not modelled.
- `LegacyInstance.InstanceExtensions`: extension names are strings without the NUL terminator that the source's C pointers carry, including the one in `b"VK_EXT_debug_utils\0"`.
- `DeviceCreation.QueueCreateInfos`: the `HashSet` iteration order is unspecified, so the method may emit the distinct families in any order and states no order.
- `graphics::SWAPCHAIN_IMAGE_COUNT` is defined in a module that is not part of this model, so it is the parameter `imageCount`.
