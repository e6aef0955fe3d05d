# ComfyUI-Tawbaware nodes, modelled in Dafny

This project models the three custom nodes of the ComfyUI-Tawbaware plugin
(`src/comfyui_tawbaware/nodes.py`) and proves properties about them.

- **ReverseLatentBatch** (`reverse.dfy`) takes a LATENT dict and returns a
  shallow copy whose `"samples"` tensor is flipped along its leading axis.
  The model is a `map<string, Entry>` in which only the `"samples"` entry is
  replaced. Its rows are a `seq` reversed by `Reversed`.
- **LatentBlendGradient** (`blend.dfy`) mixes two latent batches. It checks the
  leading lengths first. If the non-leading shapes differ, it resamples the
  second batch with the host's bicubic upscale. It then dispatches on the mode:
  - `"normal"` builds a new tensor `0.5·A + 0.5·B`.
  - `"gradient"` runs a loop with weight `w_i = (i + 0.5)/N`. The loop writes
    each row of the output in place. That output array is samples1's own
    tensor, because the dict copy is shallow. Row `i` is read before it is
    written, so the result is still the intended blend. This holds even when
    both inputs are the same array.
  - Any other mode is an error.

  `BlendRowsInPlace` models this loop on an `array<real>`, and `Blend` models
  the whole node over dicts whose tensors are arrays.
- **WanVideoReCamMasterGenerateOrbitCameraEx** (`orbit.dfy`) turns a latent's
  temporal extent `T` into `num_frames = (T-1)*4+1`. For each frame it ramps
  the horizontal angle, the vertical angle and the zoom linearly, then computes
  these from the ramped values:
  - the position on the orbit, its vertical shift, and the zoom toward the
    fixed centre;
  - the rotation `rot2 · rot1`;
  - the 4×4 pose.

  Finally it keeps every fourth pose. `GenerateOrbit` is the frame loop, which
  appends one pose per iteration. `EveryFourth` is the `[::4]` slice, and
  `Process` is the node.

`common.dfy` holds what the nodes share:
- the errors they raise;
- a `Result` type;
- the LATENT dict;
- `Abs`;
- a few real-arithmetic lemmas.

Each tensor row is modelled as one `real`. All the nodes' tensor arithmetic is
elementwise per row, so one coordinate stands for every coordinate of the row.
Floating-point values are modelled as exact `real`s.

In "gradient" mode the node overwrites the caller's samples1 tensor, although
a node is expected to leave its inputs alone. The model follows the code: `Blend` lists samples1's array in its `modifies` clause and returns the
dict that still holds that array.

## Model

| member | source | states |
|---|---|---|
| `Common.WithSamples` | src/comfyui_tawbaware/nodes.py:25-26 | the copied dict has the same keys, the new `"samples"` entry, and every other key's value unchanged |
| `ReverseLatentBatch.Reversed` | src/comfyui_tawbaware/nodes.py:26 | reversal keeps the length |
| `ReverseLatentBatch.ReversedAt` | src/comfyui_tawbaware/nodes.py:26 | output row k is input row N-1-k |
| `ReverseLatentBatch.ReversedTwice` | src/comfyui_tawbaware/nodes.py:24-27 | reversing twice gives back the original rows, for every N |
| `ReverseLatentBatch.ReverseLatent` | src/comfyui_tawbaware/nodes.py:24-27 | the output is a latent with the same keys and the same non-leading shape; its rows are the input rows in the opposite order; every key other than `"samples"` keeps its value |
| `ReverseLatentBatch.ReverseLatentTwice` | src/comfyui_tawbaware/nodes.py:24-27 | running the node twice gives back the whole input dict |
| `LatentBlendGradient.CheckInputs` | src/comfyui_tawbaware/nodes.py:55-75 | a length mismatch is reported with both lengths whatever the mode (it is checked first); with equal lengths, "normal" and "gradient" are accepted and any other mode is an unsupported-mode error naming the mode |
| `LatentBlendGradient.NormalBlend` | src/comfyui_tawbaware/nodes.py:65-67 | "normal" mode keeps the length, and each row is the average of the two input rows |
| `LatentBlendGradient.NormalBlendSelf` | src/comfyui_tawbaware/nodes.py:65-67 | blending a batch with itself in "normal" mode returns it unchanged |
| `LatentBlendGradient.NormalBlendSymmetric` | src/comfyui_tawbaware/nodes.py:65-67 | "normal" mode does not depend on the order of its inputs |
| `LatentBlendGradient.Weight` | src/comfyui_tawbaware/nodes.py:72 | the gradient weight (i+0.5)/N lies strictly between 0 and 1 |
| `LatentBlendGradient.WeightIncreasing` | src/comfyui_tawbaware/nodes.py:70-72 | the weight strictly increases with i |
| `LatentBlendGradient.WeightMirror` | src/comfyui_tawbaware/nodes.py:72 | w_i + w_{N-1-i} = 1, so w_0 + w_{N-1} = 1 |
| `LatentBlendGradient.WeightBelowHalf` | src/comfyui_tawbaware/nodes.py:36-40 | samples2's weight is below one half exactly when 2i+1 < N, and equals one half exactly when 2i+1 = N |
| `LatentBlendGradient.MixBetween` | src/comfyui_tawbaware/nodes.py:73 | a mix with a weight strictly between 0 and 1 lies between its two inputs, strictly when they differ |
| `LatentBlendGradient.GradientRow` | src/comfyui_tawbaware/nodes.py:72-73 | the blended row i, A·(1-w_i) + B·w_i, lies between A and B, strictly when they differ |
| `LatentBlendGradient.GradientBlend` | src/comfyui_tawbaware/nodes.py:68-73 | "gradient" mode keeps the length, and each output row lies between the two input rows, strictly when they differ |
| `LatentBlendGradient.GradientEnds` | src/comfyui_tawbaware/nodes.py:70-73 | the first row is A·(1-0.5/N) + B·(0.5/N), and the last row is A·(0.5/N) + B·(1-0.5/N) |
| `LatentBlendGradient.GradientCloserTo` | src/comfyui_tawbaware/nodes.py:36-40 | wherever the two input rows differ, an output row in the first half of the batch (2i+1 < N) is strictly closer to samples1, and one in the second half (2i+1 > N) strictly closer to samples2 |
| `LatentBlendGradient.BlendRowsInPlace` | src/comfyui_tawbaware/nodes.py:70-73 | the in-place loop leaves samples1's array equal to the gradient blend of the old contents of both arrays; its invariant says rows before i are blended and rows from i on are untouched in both arrays, including when they are the same array |
| `LatentBlendGradient.SecondOperand` | src/comfyui_tawbaware/nodes.py:58-63 | samples2 is used as is when the two shapes are equal, and the operand keeps samples2's leading length either way |
| `LatentBlendGradient.Blend` | src/comfyui_tawbaware/nodes.py:49-77 | on an error result, samples1's array is unchanged. "normal" returns a fresh tensor holding the average, in a dict copy where only `"samples"` is replaced, and leaves samples1 unchanged. "gradient" overwrites samples1's array with the gradient blend and returns the same dict. The second operand is resampled only when the shapes differ |
| `OrbitCamera.Ramp` | src/comfyui_tawbaware/nodes.py:119-123 | the ramp i·x/(num_frames-1) is 0 at the first frame, x at the last frame, and 0 everywhere when x = 0 |
| `OrbitCamera.RampMonotone` | src/comfyui_tawbaware/nodes.py:119-123 | along the frames the ramp moves monotonically from 0 toward x and never leaves the range between them |
| `OrbitCamera.OrbitPosition` | src/comfyui_tawbaware/nodes.py:131-136 | the position sits SubjDist·abs(cos) short of the centre along x, SubjDist·sin off it along y, and SubjDist·tan above the camera along z; at angle 0 it is the camera itself |
| `OrbitCamera.OrbitOnCircle` | src/comfyui_tawbaware/nodes.py:131-136 | when cos²+sin² = 1, the horizontal position stays on the circle of radius abs(camera.x - centre.x) around the centre |
| `OrbitCamera.ZoomToward` | src/comfyui_tawbaware/nodes.py:138-141 | zoom factor 0 keeps the position, and zoom factor 1 reaches the centre |
| `OrbitCamera.ZoomScalesOffset` | src/comfyui_tawbaware/nodes.py:138-141 | zooming by f multiplies the offset from the centre by 1-f in every coordinate |
| `OrbitCamera.RotH` | src/comfyui_tawbaware/nodes.py:147-151 | rot1 is a 3×3 matrix |
| `OrbitCamera.RotV` | src/comfyui_tawbaware/nodes.py:153-157 | rot2 is a 3×3 matrix |
| `OrbitCamera.Mul3` | src/comfyui_tawbaware/nodes.py:160 | the product of two 3×3 matrices is 3×3 |
| `OrbitCamera.RotationAtZero` | src/comfyui_tawbaware/nodes.py:147-160 | with cos = 1 and sin = 0, rot2·rot1 is the identity |
| `OrbitCamera.RotationEntries` | src/comfyui_tawbaware/nodes.py:147-160 | rot2·rot1 written out entry by entry (the vertical rotation applied after the horizontal one) |
| `OrbitCamera.RotationOrthogonal` | src/comfyui_tawbaware/nodes.py:143-160 | when both cosine/sine pairs lie on the unit circle, rot2·rot1 is orthogonal |
| `OrbitCamera.Translation` | src/comfyui_tawbaware/nodes.py:163-168 | the translation matrix is 4×4 |
| `OrbitCamera.SetBlock` | src/comfyui_tawbaware/nodes.py:169 | the slice assignment replaces exactly the top-left 3×3 block and keeps the translation column and the bottom row |
| `OrbitCamera.PoseLayout` | src/comfyui_tawbaware/nodes.py:134-169 | every pose is a 4×4 homogeneous matrix: the rotation block rot2·rot1, the zoomed position in the last column, and bottom row [0,0,0,1] |
| `OrbitCamera.PoseRigid` | src/comfyui_tawbaware/nodes.py:143-169 | when both cosine/sine pairs of the pose lie on the unit circle, its 3×3 block times its transpose is the identity, so the pose is a rigid transform |
| `OrbitCamera.PoseAt` | src/comfyui_tawbaware/nodes.py:125-169 | the pose for given angles and zoom factor is a 4×4 matrix with bottom row [0,0,0,1]; `PoseLayout`, `PoseAtRest` and `FullZoomAtCenter` state its blocks, its rest value and its full-zoom position |
| `OrbitCamera.FramePose` | src/comfyui_tawbaware/nodes.py:117-169 | frame i's pose is 4×4; frame 0 is the pose for zero angles and zero zoom, and frame num_frames-1 the pose for the full requested angles and zoom |
| `OrbitCamera.PoseAtRest` | src/comfyui_tawbaware/nodes.py:113-169 | with exact trigonometry at angle 0 and no zoom, the pose is the identity rotation at the initial camera [3390,1380,240] |
| `OrbitCamera.FirstFrameIsInitialPose` | src/comfyui_tawbaware/nodes.py:117-171 | frame 0 is the initial pose, whatever the requested angles and zoom |
| `OrbitCamera.NoMotionIsStill` | src/comfyui_tawbaware/nodes.py:117-171 | with zero angles and zero zoom, every frame is the initial pose |
| `OrbitCamera.FullZoomAtCenter` | src/comfyui_tawbaware/nodes.py:139-141 | with zoom factor 1 the camera position is the centre [3685,1380,240], whatever the angles |
| `OrbitCamera.GenerateOrbit` | src/comfyui_tawbaware/nodes.py:108-173 | for num_frames ≥ 2 there is exactly one pose per frame, in frame order, each the pose for that frame's ramped values; a single frame (num_frames = 1) fails with division by zero; no frames gives an empty list |
| `OrbitCamera.EveryFourth` | src/comfyui_tawbaware/nodes.py:182 | the `[::4]` slice has ceil(N/4) elements, and element k is input element 4k |
| `OrbitCamera.SubsampleKeepsLatentCount` | src/comfyui_tawbaware/nodes.py:177-182 | for T ≥ 1, the `[::4]` slice of any list of (T-1)·4+1 frames has exactly T elements, and the last one is the list's last frame |
| `OrbitCamera.NumFrames` | src/comfyui_tawbaware/nodes.py:177 | for T ≥ 1 the (T-1)·4+1 frames span 4(T-1) steps and ceil(frames/4) = T; there are at least two frames exactly when T ≥ 2, and one exactly when T = 1 |
| `OrbitCamera.Process` | src/comfyui_tawbaware/nodes.py:175-185 | T ≥ 2 gives exactly T poses: pose k is frame 4k, and the last is the full-angle, full-zoom pose. T = 1 fails with division by zero. T = 0 fails because there is nothing to stack |

## Left out

- `np.radians`, `np.cos`, `np.sin`, `np.tan` are floating-point numerics. A `Trig` record of opaque `real -> real` functions stands in for them. Each function takes the angle in degrees, with the radians conversion folded in. Lemmas that need exact values at angle 0 say so through `ExactAtZero`, and `RotationOrthogonal` and `OrbitOnCircle` assume cos² + sin² = 1.
- IEEE rounding in general: tensor entries, weights, ramps and positions are exact `real`s.
- `comfy.utils.common_upscale` (bicubic resampling with center crop) is host code. It becomes the `upscale` parameter of `Blend`, and the model assumes only that it keeps the leading length. It receives samples1's non-leading dimensions. Which of them the call passes as width and height is not modelled.
- `Blend`: its mode parameter defaults to "gradient" as in the source. The host calls the node with only the two latents (`INPUT_TYPES`, src/comfyui_tawbaware/nodes.py:43-47), so through the host the node always runs "gradient" mode; "normal" and the unsupported-mode error are reachable only by a direct call, and the model keeps both.
- The two `permute` calls around the upscale: their results are discarded, so they have no effect.
- Tensor shapes beyond the leading axis are only compared, never computed with. Each row is one real. A broadcasting failure when the resampled batch still does not match samples1's shape is not modelled. The same goes for dtypes.
- A LATENT without a `"samples"` tensor (a KeyError in the source) is excluded by `requires IsLatent(...)`, because the host's LATENT type always carries one.
- In `process`: `squeeze(0)`, the unpacking of the 4-D shape, and `np.stack`. `Process` takes the temporal extent `T` directly and returns the poses as a `seq` of 4×4 matrices. Only the error of stacking an empty list is kept.
- Node registration metadata (`INPUT_TYPES`, `RETURN_TYPES`, `NODE_CLASS_MAPPINGS`, `NODE_DISPLAY_NAME_MAPPINGS`) and `__init__.py`: plugin glue with no behaviour. The input ranges declared there (degrees in [-90, 90], zoom in [-10, 0.99]) are not required by the model, which accepts any values.
