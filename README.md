# GSP-RenderX point-cloud data path, in Dafny

GSP-RenderX shows reconstructed 3D scenes as point splats in the browser.
This project models the path a point cloud takes through it:

- The backend writer `write_gsp` serialises positions, normals, colours and
  sizes into a `.gsp` container. The container is a 32-byte header holding
  the magic `"GSP1"`, a little-endian u32 point count and the bounding box,
  followed by four contiguous blocks.
- The browser loader `loadGSP` reads the count and lays typed-array views
  over those blocks.
- The viewer keeps a frame-rate driven draw budget. It decimates the cloud
  to that budget by copying every `step`-th point, and it keeps a coarser
  copy of 80,000 points for picking.
- The splat renderer does four things: it converts colours and sizes to
  floats, sets the draw range, resolves a picked point and mirrors the
  clip-plane uniforms into its three materials. It also re-sorts the point
  indices into depth order at most twice a second.
- It also covers the scene record (`SceneModel`), built from immutable
  records with spread-style merges, and the inspector's derived values: the
  count, the bounding-box centre, the octant label and distance
  availability.

Modules follow the program's files:

- `PointCloud` (point_cloud.dfy): the `data` object.
- `Decimation` (decimation.dfy): `decimateData`.
- `Viewer` (adaptive_budget.dfy): the budget controller, as the class
  `ViewerState`.
- `GspFormat`, `GspEncoder`, `GspLoader` and `GspRoundTrip`: the container,
  its writer, its loader, and what the loader makes of written files.
- `GaussianRenderer`: the renderer, with the classes `Geometry`,
  `Material` and `DepthSorter`.
- `SceneModel` and `InfoPanel`.

### Modelling choices

- **Bytes and words.** Bytes are the integer subset type `byte` (< 256).
  32- and 16-bit words are `u32` and `u16`. A float32 is kept as its
  IEEE-754 bit pattern (`F32`), so the container's layout and round trip
  are proved without any float arithmetic. The model uses integer subset
  types rather than 8- and 32-bit bit-vectors. Little-endian encoding and
  decoding are written out arithmetically.
- **JavaScript edge cases.** The loosely typed `data` object has optional
  `count`, `activeCount` and bounding box, and JavaScript's `||` and `??`
  are kept apart. `data.count || positions.length / 3` is a real number,
  so a fractional count is possible. A typed-array read past its end
  stores NaN (or 0) into the destination array.
- **Clocks.** Clocks (`clock.elapsedTime`, `Date.now()`) and the frame
  delta are parameters.
- **The camera transform.** The depth sort takes it as a function from a
  stored position to view-space z.

### Where the code differs from the project's own description

The model follows the code in each case:

- The depth sort orders indices by *descending* stored view-space z (the
  comparator is `depths[b] - depths[a]`). In a right-handed view space that
  is nearest-first, not farthest-first. The model states the order in terms
  of the stored depth values.
- The budget controller has no stable-time hysteresis: any throttled tick
  with an average above 58 FPS proposes a raise. The 20,000 gate means no
  raise ever happens below a budget of 200,000, and no cut between 30,000
  and 99,996 (`Viewer.SlowWindow`, `Viewer.FastWindow`).
- The 50,000 floor can lift the budget above the active count.
- Decimation keys off `count || positions.length / 3`, not `activeCount`.
- The loader checks neither the magic nor the truncation, and it never
  reads the bounding box.
- A freshly loaded cloud carries neither `count` nor `activeCount`, so its
  initial budget is 0 and it is drawn undecimated. The renderer's draw
  range (`activeCount ?? count ?? 0`) is then 0.

## Model

| member | source | states |
|---|---|---|
| PointCloud.At | frontend/src/core/Viewer.jsx:60-69 | a typed-array read inside the array gives the element; outside it gives the value an out-of-range store leaves (NaN or 0) |
| Decimation.SourceCount | frontend/src/core/Viewer.jsx:45 | the count decimation keys off is never negative |
| Decimation.Stride | frontend/src/core/Viewer.jsx:48 | when the input is cut, the stride is at least 2 and `step * maxPoints >= count` |
| Decimation.Gather3 | frontend/src/core/Viewer.jsx:51-53 | a gathered triple array has `3 * newCount` slots |
| Decimation.GatherSizes | frontend/src/core/Viewer.jsx:54 | the gathered sizes array has `newCount` slots |
| Decimation.Gather3At | frontend/src/core/Viewer.jsx:58-68 | slot `3j+k` of a gathered array is slot `3(j*step)+k` of the source |
| Decimation.StrideStaysInside | frontend/src/core/Viewer.jsx:57 | while `j < newCount` the source index `j*step` is below `count`, so the `i < count` guard never ends the loop early |
| Decimation.CopyTriple | frontend/src/core/Viewer.jsx:60-68 | three element writes append the three source reads to the destination prefix |
| Decimation.CopyPoint | frontend/src/core/Viewer.jsx:58-70 | one loop iteration extends the copied prefix of all four arrays by destination point `j` from source point `j*step` |
| Decimation.Decimate | frontend/src/core/Viewer.jsx:43-80 | the loop over freshly allocated arrays returns exactly `Decimated(d, maxPoints)`, including the three early returns |
| Decimation.DecimatedWithinBudget | frontend/src/core/Viewer.jsx:44-79 | with a positive budget the result never holds more than `maxPoints` points; a cut result holds `newCount` points in every array, has `count = newCount`, and has no `activeCount` or bounding box |
| Decimation.KeptWithinBudget | frontend/src/core/Viewer.jsx:48-49 | `newCount = floor(count/step) <= maxPoints` |
| Decimation.DecimatedShape | frontend/src/core/Viewer.jsx:51-79 | a cut cloud's arrays have lengths `3n, 3n, 3n, n` and its count is `n` |
| Decimation.DecimatedSourcesActive | frontend/src/core/Viewer.jsx:57 | every output point reads a source point below `count`, and the source points strictly increase |
| Decimation.DecimatedCorrespondence | frontend/src/core/Viewer.jsx:56-71 | destination point `j` carries position, normal, colour and size of source point `j*step` |
| Decimation.DecimatedCopiesSource | frontend/src/core/Viewer.jsx:56-71 | when the source arrays hold `count` points, no read falls outside them and each output slot equals its source slot |
| Decimation.DecimateFourToTwo | frontend/src/core/Viewer.jsx:48-49 | four points with budget 2 give step 2 and the source points 0 and 2 |
| Viewer.FpsSample | frontend/src/core/Viewer.jsx:111 | each frame's sample `1/max(delta, 0.001)` lies in (0, 1000] |
| Viewer.Window | frontend/src/core/Viewer.jsx:111-112 | push then, past 20 samples, shift: the newest sample is last, and a full window keeps its length and drops the oldest |
| Viewer.AverageWithin | frontend/src/core/Viewer.jsx:117-118 | the average of the window lies between its smallest and largest samples |
| Viewer.CutFloor | frontend/src/core/Viewer.jsx:122 | `floor(0.8 b)` takes `ceil(b/5)` away |
| Viewer.GrowFloor | frontend/src/core/Viewer.jsx:124 | `floor(1.1 b)` adds `floor(b/10)` |
| Viewer.NextBudgetGated | frontend/src/core/Viewer.jsx:127-130 | a tick either keeps the budget or moves it by at least 20,000 |
| Viewer.MidBandKeepsBudget | frontend/src/core/Viewer.jsx:120-125 | an average from 45 to 58 FPS leaves the budget alone |
| Viewer.SlowWindow | frontend/src/core/Viewer.jsx:121-127 | below 45 FPS: a budget of at least 99,996 becomes `floor(0.8 b)`, a budget over 30,000 and under 99,996 stays, and a budget of at most 30,000 becomes 50,000 |
| Viewer.FastWindow | frontend/src/core/Viewer.jsx:123-127 | above 58 FPS the budget moves toward `min(activeCount, floor(1.1 b))` only past the gate, and never above the active count |
| Viewer.NextBudgetBounded | frontend/src/core/Viewer.jsx:120-130 | the budget stays at most `max(50000, activeCount)` |
| Viewer.PickData | frontend/src/core/Viewer.jsx:88-91 | a pick copy exists exactly in inspect mode with data, and never holds more than 80,000 points |
| Viewer.ViewerState.constructor | frontend/src/core/Viewer.jsx:84-102 | mounting with data starts the budget at `min(200000, activeCount or else count or else 0)` with render data decimated to it and an empty FPS window |
| Viewer.ViewerState.SetData | frontend/src/core/Viewer.jsx:93-102 | a new dataset restarts the budget at `min(200000, activeCount)` and re-decimates; no data clears the render data |
| Viewer.ViewerState.OnFrame | frontend/src/core/Viewer.jsx:104-130 | with data, every frame pushes its sample into the window; only a tick 0.5 s after the last one moves the throttle and sets the budget to the gated proposal, with the render data re-decimated to it |
| Viewer.SteadyWindowKeepsBudget | frontend/src/core/Viewer.jsx:117-125 | a window of samples all between 45 and 58 FPS never changes the budget |
| Viewer.SlowSamplesCut | frontend/src/core/Viewer.jsx:117-130 | samples all under 45 FPS cut any budget of at least 99,996 |
| Viewer.FastSamplesRaise | frontend/src/core/Viewer.jsx:117-130 | samples all over 58 FPS raise a budget of at least 200,000 when the active count leaves room for the gate |
| Viewer.LoadedCloudBudget | frontend/src/core/Viewer.jsx:98-122 | a loaded cloud starts with budget 0 and is drawn undecimated; a slow tick lifts its budget to 50,000 |
| GspFormat.WordDecodesEncoding | frontend/src/core/loaders/GSPLoader.js:6 | a little-endian u32 read returns the word `struct.pack("I")` wrote |
| GspFormat.HalfWordDecodesEncoding | frontend/src/core/loaders/GSPLoader.js:20 | a little-endian u16 read returns the halfword `tobytes()` wrote |
| GspFormat.WordsAtWordsBytes | backend/app/services/gsp_encoder.py:24-25 | the words of a float32 block read back, wherever in a buffer they lie |
| GspFormat.Float32View | frontend/src/core/loaders/GSPLoader.js:11-14 | the view exists exactly when the offset is a multiple of 4 and the block fits, and it then holds the little-endian words there |
| GspFormat.Uint8View | frontend/src/core/loaders/GSPLoader.js:17 | the view exists exactly when the block fits, and it then holds those bytes |
| GspFormat.Uint16View | frontend/src/core/loaders/GSPLoader.js:20 | the view exists exactly when the offset is even and the block fits, and it then holds the little-endian halfwords there |
| GspFormat.Uint16LeReads | frontend/src/core/loaders/GSPLoader.js:20 | per-element little-endian reads succeed whenever the block fits, at any offset |
| GspEncoder.AxisMin | backend/app/services/gsp_encoder.py:13 | the minimum is one of the coordinates and no coordinate on that axis is smaller |
| GspEncoder.AxisMax | backend/app/services/gsp_encoder.py:14 | the maximum is one of the coordinates and no coordinate on that axis is larger |
| GspEncoder.FlatAt | backend/app/services/gsp_encoder.py:24-25 | element `3i+axis` of a flattened `(N,3)` array is coordinate `axis` of row `i` |
| GspEncoder.RgbBytesAt | backend/app/services/gsp_encoder.py:26 | byte `3i+k` of the colour block is channel `k` of colour `i` |
| GspEncoder.Header | backend/app/services/gsp_encoder.py:18-21 | the header is exactly 32 bytes |
| GspEncoder.ByteSink.constructor | backend/app/services/gsp_encoder.py:16 | a sink starts with the bytes the file already held |
| GspEncoder.ByteSink.Truncate | backend/app/services/gsp_encoder.py:16 | opening with `"wb"` empties the file |
| GspEncoder.ByteSink.Write | backend/app/services/gsp_encoder.py:18-27 | a write appends its bytes |
| GspEncoder.WriteGsp | backend/app/services/gsp_encoder.py:5-27 | no positions: an error before the file is touched; a count that does not fit a u32: an error with only the magic written; otherwise the file is the header and the four blocks |
| GspEncoder.GspFileSize | backend/app/services/gsp_encoder.py:24-27 | with `c` rows each, the file is `32 + 29c` bytes |
| GspEncoder.HeaderFields | backend/app/services/gsp_encoder.py:18-21 | the header reads back as the magic, the row count and the bounding-box words at bytes 8 and 20 |
| GspEncoder.GspFileHeader | backend/app/services/gsp_encoder.py:6-21 | the whole file starts with the magic, then the count at byte 4, then the bounding box |
| GspEncoder.BboxEnclosesPositions | backend/app/services/gsp_encoder.py:13-14 | every position lies between the written minimum and maximum on every axis |
| GspLoader.DecodeFront | frontend/src/core/loaders/GSPLoader.js:6-18 | a successful front decode carries the count at byte 4 and positions, normals and colours of `3*count` elements |
| GspLoader.Decode | frontend/src/core/loaders/GSPLoader.js:6-22 | a loaded cloud holds `count` points in all four arrays and has no count, activeCount or bounding box |
| GspLoader.DecodeAligned | frontend/src/core/loaders/GSPLoader.js:6-22 | the corrected loader yields the same shape of cloud |
| GspLoader.LoadGsp | frontend/src/core/loaders/GSPLoader.js:4-22 | the straight-line loader with its running offset computes exactly `Decode` |
| GspLoader.RegionAlignment | frontend/src/core/loaders/GSPLoader.js:8-20 | the float regions start on 4-byte boundaries; the sizes region's offset is odd exactly when the count is |
| GspLoader.DecodeSucceedsIff | frontend/src/core/loaders/GSPLoader.js:6-20 | loading succeeds exactly when the buffer has a count, the count is even and the buffer holds `32 + 29c` bytes |
| GspLoader.DecodeRejection | frontend/src/core/loaders/GSPLoader.js:6-20 | which RangeError a rejected buffer raises: a missing count, or the first region that does not fit or is misaligned |
| GspLoader.DecodeLayout | frontend/src/core/loaders/GSPLoader.js:8-20 | positions at 32, normals at `32+12c`, colours at `32+24c`, sizes at `32+27c` |
| GspLoader.DecodeAlignedSucceedsIff | frontend/src/core/loaders/GSPLoader.js:6-20 | the corrected loader succeeds exactly when the buffer holds the declared payload |
| GspLoader.DecodeAlignedAgrees | frontend/src/core/loaders/GSPLoader.js:20 | wherever the loader as written succeeds, the corrected one agrees with it |
| GspLoader.DecodeIgnoresMagicAndBbox | frontend/src/core/loaders/GSPLoader.js:6-22 | two buffers that differ only in bytes 0-3 and 8-31 load identically |
| GspRoundTrip.FileRegions | backend/app/services/gsp_encoder.py:18-27 | each region of a written file holds the block written for it, at the loader's offsets |
| GspRoundTrip.RoundTrip | frontend/src/core/loaders/GSPLoader.js:6-22 | a file with an even number of points loads back to exactly the arrays written |
| GspRoundTrip.OddCountRejected | frontend/src/core/loaders/GSPLoader.js:20 | every written file with an odd number of points is rejected with the sizes region misaligned |
| GspRoundTrip.RoundTripAligned | backend/app/services/gsp_encoder.py:18-27 | with the sizes read at any offset, every written file loads back to exactly the arrays written |
| GspRoundTrip.WrittenPoint | backend/app/services/gsp_encoder.py:24-27 | point `i` of a loaded file is row `i` of each written array |
| GaussianRenderer.Geometry.constructor | frontend/src/core/gaussian/GaussianRenderer.jsx:109-112 | a new geometry holds the given attributes, draws everything and has no index |
| GaussianRenderer.ColorFloats | frontend/src/core/gaussian/GaussianRenderer.jsx:114-118 | one float per byte, `colors[i]/255`, all in [0, 1] |
| GaussianRenderer.SizeFloats | frontend/src/core/gaussian/GaussianRenderer.jsx:121-125 | one float per stored size, `sizes[i]/1000`, all in [0, 65.535] |
| GaussianRenderer.BuildGeometry | frontend/src/core/gaussian/GaussianRenderer.jsx:104-130 | no geometry exactly when there is no data or no position; otherwise the positions, normals and converted attributes of the data |
| GaussianRenderer.DrawCount | frontend/src/core/gaussian/GaussianRenderer.jsx:134 | `activeCount ?? count ?? 0`: a present activeCount wins even when 0 |
| GaussianRenderer.ApplyDrawRange | frontend/src/core/gaussian/GaussianRenderer.jsx:132-136 | with a geometry, the draw range becomes `[0, DrawCount)` and the index is untouched |
| GaussianRenderer.DecimatedDrawsKept | frontend/src/core/gaussian/GaussianRenderer.jsx:134 | a cut render copy draws exactly the points it holds |
| GaussianRenderer.ZeroActiveCountDrawsNothing | frontend/src/core/gaussian/GaussianRenderer.jsx:134 | a present `activeCount` of 0 draws nothing, although the viewer's falsy fallback goes on to `count` |
| GaussianRenderer.LoadedCloudDrawRange | frontend/src/core/gaussian/GaussianRenderer.jsx:134 | a cloud straight from the loader draws nothing |
| GaussianRenderer.ClipAxisValue | frontend/src/core/gaussian/GaussianRenderer.jsx:266 | `"x"` gives 0, `"y"` gives 1, and anything else gives 2, each as an if-and-only-if |
| GaussianRenderer.ClipSectionLaw | frontend/src/core/gaussian/GaussianRenderer.jsx:266-267 | with the uniforms written, the fragment shader's clip test discards a fragment exactly when clipping is on and the named coordinate exceeds the clip value |
| GaussianRenderer.Material.constructor | frontend/src/core/gaussian/GaussianRenderer.jsx:139-168 | a material starts with its own size and blending factors and the shared default uniforms |
| GaussianRenderer.NewFillMaterial | frontend/src/core/gaussian/GaussianRenderer.jsx:139-168 | the fill pass's constants, with depth writes |
| GaussianRenderer.NewDetailMaterial | frontend/src/core/gaussian/GaussianRenderer.jsx:170-199 | the detail pass's constants, without depth writes |
| GaussianRenderer.NewEdgeMaterial | frontend/src/core/gaussian/GaussianRenderer.jsx:201-230 | the edge pass's constants, without depth writes |
| GaussianRenderer.SyncUniforms | frontend/src/core/gaussian/GaussianRenderer.jsx:256-272 | all three materials share viewport, near, far and the same clip uniforms; fill and edge boosts scale with `edgeFillBoost`; every pass discards exactly what the section law says |
| GaussianRenderer.Selected | frontend/src/core/gaussian/GaussianRenderer.jsx:236-249 | index `i`; position and colour entry `k` is defined exactly when `3i+k` is inside its array and is then that element; size `sizes[i]/1000`, defined exactly when `i` is inside the sizes |
| GaussianRenderer.Pick | frontend/src/core/gaussian/GaussianRenderer.jsx:234-250 | nothing without a callback or a hit index; otherwise the selection is read from the pick copy when there is one, else from the data |
| GaussianRenderer.PickInside | frontend/src/core/gaussian/GaussianRenderer.jsx:236-248 | a hit inside a cloud that holds its points reads that whole point |
| GaussianRenderer.PickMapsToSource | frontend/src/core/gaussian/GaussianRenderer.jsx:239-248 | hit `j` on the viewer's pick copy reports the position, colour and size of source point `j*step` |
| GaussianRenderer.PickWithinBudget | frontend/src/core/gaussian/GaussianRenderer.jsx:239-248 | within 80,000 points the pick copy is the data itself |
| GaussianRenderer.IotaCounts | frontend/src/core/gaussian/GaussianRenderer.jsx:303-310 | the identity order holds each index below `n` once and nothing else |
| GaussianRenderer.Depths | frontend/src/core/gaussian/GaussianRenderer.jsx:290-308 | one depth per whole stored point |
| GaussianRenderer.DepthOrderIsPermutation | frontend/src/core/gaussian/GaussianRenderer.jsx:296-313 | a depth order lists every point index exactly once |
| GaussianRenderer.NearestFirst | frontend/src/core/gaussian/GaussianRenderer.jsx:312 | the first index has the largest stored depth, and depth never increases along the order |
| GaussianRenderer.Swap | frontend/src/core/gaussian/GaussianRenderer.jsx:312 | exchanges two entries and keeps the multiset |
| GaussianRenderer.Insert | frontend/src/core/gaussian/GaussianRenderer.jsx:312 | one insertion step: the prefix through `i` is in non-increasing depth, the rest is untouched, and the multiset is kept |
| GaussianRenderer.SortByDepth | frontend/src/core/gaussian/GaussianRenderer.jsx:312 | the in-place sort permutes the indices into non-increasing stored depth |
| GaussianRenderer.DepthsAndIdentity | frontend/src/core/gaussian/GaussianRenderer.jsx:295-310 | the fill loop yields each point's depth and the identity order |
| GaussianRenderer.DepthSorter.constructor | frontend/src/core/gaussian/GaussianRenderer.jsx:252-253 | the refs start empty, with the throttle at 0 |
| GaussianRenderer.DepthSorter.OnFrame | frontend/src/core/gaussian/GaussianRenderer.jsx:286-315 | if a guard fails or less than 0.5 s has passed, nothing changes; otherwise the throttle moves to now and the geometry's index and the ref become one depth order of the points; the draw range never changes |
| InfoPanel.DisplayCount | frontend/src/ui/InfoPanel.jsx:30 | no data gives 0; a truthy count is shown; otherwise positions.length / 3 |
| InfoPanel.DisplayCountIsSourceCount | frontend/src/ui/InfoPanel.jsx:30 | the panel shows the same count decimation keys off |
| InfoPanel.Center | frontend/src/ui/InfoPanel.jsx:31-39 | a centre exists exactly when both corners do, and it is equidistant from them on every axis |
| InfoPanel.CenterInsideBox | frontend/src/ui/InfoPanel.jsx:33-38 | on every ordered axis the centre lies between the corners |
| InfoPanel.OctantOf | frontend/src/ui/InfoPanel.jsx:44-47 | Right iff x >= cx, Upper iff y >= cy, Front iff z >= cz |
| InfoPanel.LabelIsOneOfEight | frontend/src/ui/InfoPanel.jsx:48 | every part label is one of the eight octant labels |
| InfoPanel.LabelRoundTrip | frontend/src/ui/InfoPanel.jsx:48 | the label alone determines the octant |
| InfoPanel.LabelsAgreeIffSameOctant | frontend/src/ui/InfoPanel.jsx:43-48 | two points get the same label exactly when they lie on the same side of the centre on all three axes |
| InfoPanel.PlaceholderIffMissing | frontend/src/ui/InfoPanel.jsx:41-50 | label and description are `"--"` exactly when there is no selection or no centre |
| InfoPanel.DescriptionMatchesLabel | frontend/src/ui/InfoPanel.jsx:48-49 | the description names the label's three words in the same order |
| InfoPanel.MeasuredSquared | frontend/src/ui/InfoPanel.jsx:52-59 | a distance exists exactly when there are two measure points, and its square is never negative |
| SceneModel.EmptyScene | frontend/src/core/scene/SceneModel.js:5-42 | the root id, untitled metadata stamped with the clock, no entities, all five rendering factors 1.0, dynamics disabled in orbit mode, training disabled in mode none |
| SceneModel.SceneCenter | frontend/src/core/scene/SceneModel.js:50-59 | the per-axis bbox midpoint when both corners exist, else the origin |
| SceneModel.BuildWithoutData | frontend/src/core/scene/SceneModel.js:45-48 | no data gives the empty scene, with no entities |
| SceneModel.BuildEntities | frontend/src/core/scene/SceneModel.js:61-117 | entity 0 is the cloud `gaussian-cloud-0`; a second entity `mesh-surface-0` typed `meshType`, or null when it is falsy, exists exactly when the mesh URL is truthy |
| SceneModel.BuildCenterShared | frontend/src/core/scene/SceneModel.js:52-123 | the one centre appears in the cloud component and as the camera's suggested centre |
| SceneModel.EnableDynamicsFields | frontend/src/core/scene/SceneModel.js:128-141 | `enabled` is set unless the options supply it; the other dynamics keys are kept or overwritten by the options; nothing else changes |
| SceneModel.UpdateSettings | frontend/src/core/scene/SceneModel.js:143-180 | an update changes only its one settings sub-record, only at the keys of `partial`; id, meta, entities, camera and the other sections are unchanged |
| SceneModel.UpdateSettingsComposes | frontend/src/core/scene/SceneModel.js:143-180 | the same update twice is one update, and two updates in a row are one update with the merged partial |
| SceneModel.EnableDynamicsIsUpdate | frontend/src/core/scene/SceneModel.js:128-141 | `enableDynamics` is a dynamics update with `{enabled, ...options}` |
| SceneModel.ToggleEntityAnimation | frontend/src/core/scene/SceneModel.js:182-204 | entity count, order and ids are preserved; entities with another id are untouched; metadata and settings are unchanged |
| SceneModel.ToggleMatching | frontend/src/core/scene/SceneModel.js:185-201 | a matching entity keeps its name and other components; its animation takes `enabled` unless the overrides set it and every override, and keeps the other keys of its current animation, or of the default when it has none, with exactly those keys |
| SceneModel.ToggleIdempotent | frontend/src/core/scene/SceneModel.js:182-204 | toggling twice with the same arguments is toggling once |

## Left out

- Host byte order. `struct.pack("I")` and `tobytes()` in the writer, and the loader's `Float32Array`/`Uint16Array` views, use the host's byte order; the model takes it to be little-endian on both sides.
- Network and file I/O. The fetch in `loadGSP` is not modelled: the loader starts from the fetched bytes. The OS side of `open`/`f.write` is not modelled either: a write appends to a byte sequence.
- GLSL shading math. Only the clip discard is modelled; point size, falloff, depth boost, silhouette, lighting and the alpha discard are not.
- Float32 arithmetic and rounding. Floats are opaque bit patterns, and renderer and panel numbers are exact reals. This covers the Float32Array rounding of `colors[i]/255`, `sizes[i]/1000` and the stored depths.
- The quantising casts `colors * 255` and `sizes * 1000` in `write_gsp`. The writer takes the already quantised `uint8`/`uint16` arrays.
- Viewer.CutFloor: `b * 0.8` and `b * 1.1` are taken as exact products before the floor. Float rounding is not modelled.
- InfoPanel.MeasuredSquared: it gives the squared distance. `Math.sqrt` is not modelled, and the contract does not state that the distance is 0 exactly when the two points coincide.
- GspEncoder.AxisMin: the fold orders float words by their numeric value. It does not model how NumPy treats NaN, and the two zeros are tied.
- GspEncoder.AxisMax: same limitation as GspEncoder.AxisMin.
- GaussianRenderer.SortByDepth: proved with an insertion sort against the comparator's intended order. The JavaScript engine's own sort algorithm is not modelled, nor the comparator's behaviour on NaN depths.
- The camera's model-view transform. The sorter receives the view-space z of each stored position as a function.
- CameraFitter's near/far and distance arithmetic in the viewer.
- The mesh loader and sampler, the fitter and pipeline glue, the mesh surface, the background grid, the random sample data and the UI panels' markup.
- React and three.js plumbing: hook dependency wiring, `BufferGeometry` internals, `computeBoundingSphere` and the raycaster threshold. Also the unchanged uniforms (`uMono`, `uPointScale` and the like, which are constants of each material) and the annotation points and labels.
- A `data` object lacking one of its four arrays. `Cloud` always has all four, so the `!data.positions` branches are only reached through `data` itself being absent.
- Spreads of values that are not objects. JavaScript spreads a string or an array into index keys; the model spreads them as nothing. JavaScript key order is not modelled either, since records are maps.
- `partial`, `options` and `overrides` are records, i.e. objects. Other argument kinds are not modelled.
- NaN as a JavaScript number in truthiness tests (`Truthy`). Numbers are reals.

## Findings

| source | as written | input that shows it | evidently intended | confidence | as-written member | corrected member |
|---|---|---|---|---|---|---|
| frontend/src/core/loaders/GSPLoader.js:17-20 | the sizes view is `new Uint16Array(buffer, 32 + 27c, c)`, and a Uint16Array needs an even byte offset | a one-point file of 61 bytes as `write_gsp` writes it: offset 59 is odd, so loading throws a RangeError | every file `write_gsp` produces loads back, with the sizes read at offset `32 + 27c` wherever that is | not executed | GspRoundTrip.OddCountRejected | GspRoundTrip.RoundTripAligned |
