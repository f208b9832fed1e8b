# Image helpers of exercise 0, in Dafny

This project models the two computational helpers of `ex0/functions.py`:

- `separate_channels` takes an OpenCV colour image of shape `[H, W, C]` with
  channels in Blue-Green-Red order. It makes three independent copies with
  `np.copy`. In each copy it zeroes two of the three colour planes, so the
  copies keep only Blue, only Green and only Red, in that order. The model
  works on an `array3<int>`. `CopyImage` is `np.copy` (a fresh array filled by
  nested loops). `ZeroChannel` is `image[:, :, c] = 0` (nested loops over rows
  and columns). `SeparateChannels` composes them as the source does.
- `scale_down` computes the target size `(WIDTH, HEIGHT)`, each being
  `int(n * 0.5)` of the original `shape[1]` and `shape[0]`, and calls
  `cv2.resize`. The model covers the size arithmetic only.

An array is related to a value by `Pixels`, which views it as an `Image`: a
sequence of rows of pixels, each pixel the sequence of its channel values.
`KeepOnly(img, k)` is the value-level meaning of "the copy with only channel
`k` active". `SeparateChannels` is proved to produce exactly
`KeepOnly(Pixels(colored), k)` for `k` = Blue, Green, Red. The lemmas then
state what those copies contain, and that the three of them add back up to the
original.

Two places where the code does less than its docstrings say:

- The docstring of `separate_channels` (ex0/functions.py:79-80) promises
  copies with "only the Blue channel active", only Green, and only Red. The
  code (ex0/functions.py:84-92) zeroes only planes 0, 1 and 2, and touches no
  other plane. An image with more than three channels (BGRA, say) therefore
  keeps every plane past Red in all three copies. `MaskedValue` and `KeepOnly`
  model this. The sum lemma is stated for three-channel images.
- The docstring of `scale_down` (ex0/functions.py:55, 61) promises an image
  "half the size of the original". Lines 65-66 truncate, so an odd size rounds
  down. `ScaleDownSize` states the rounding, and `ScaleDownEven` states exact
  halving for even sizes.

## Model

| member | source | states |
|---|---|---|
| Functions.SeparateChannels | ex0/functions.py:72-93 | Returns three fresh, pairwise distinct arrays, ordered (blue, green, red). Each has the input's shape H×W×C. Their values are `KeepOnly` of the input for Blue, Green and Red. The input is unchanged. It requires at least three channels, because indexing plane 2 fails otherwise. |
| Functions.CopyKeeping | ex0/functions.py:83-92 | One copy-then-zero block: a fresh array of the input's shape whose value is `KeepOnly(input, keep)`. The two colour planes other than `keep` are zeroed in the source's order. |
| Functions.CopyImage | ex0/functions.py:83 | `np.copy`: a fresh array with the same three lengths and the same value as the source array. |
| Functions.ZeroChannel | ex0/functions.py:84 | `a[:, :, channel] = 0`: every element of plane `channel` becomes 0. Every other element keeps its old value. |
| Functions.KeepOnly | ex0/functions.py:83-92 | The copy of an image with only channel `keep` active among Blue, Green and Red. It has the original's shape. Its elements, spelled out in `KeepOnlyAt`, zero only the colour planes other than `keep`, so planes past Red keep their values. |
| Functions.KeepOnlyAt | ex0/functions.py:79-92 | The copy keeping channel `k` has the original's shape. At every (y, x), channel `k` holds the original value, and the other colour channels hold 0. Planes past Red keep their values. |
| Functions.ExactlyOneCopyKeeps | ex0/functions.py:83-92 | At every pixel of an image, each colour channel `c` is kept in exactly one copy: `KeepOnly(img, c)` holds the original value of `c`, and the copies keeping the other two colours hold 0 there. |
| Functions.SeparatedChannelsSumToOriginal | ex0/functions.py:83-93 | For an H×W×3 image, the pixel-wise sum of the Blue-only, Green-only and Red-only copies equals the original. |
| Functions.HalfTruncatesToDivision | ex0/functions.py:63-66 | For a non-negative size n, truncating `n * 0.5` (computed exactly) gives `n / 2` in integer division. |
| Functions.Scaled | ex0/functions.py:65-66 | `int(n * scale_factor)` is half of n rounded down: `2m <= n <= 2m + 1`. |
| Functions.ScaleDownSize | ex0/functions.py:63-67 | The target size is ordered (width, height). The width is half of `shape[1]` rounded down, and the height is half of `shape[0]` rounded down. Neither exceeds the original. A dimension is 0 exactly when the original is 0 or 1 pixels, which the source leaves unhandled. |
| Functions.ScaleDownEven | ex0/functions.py:54-67 | For even height and width, the target size is exactly (width / 2, height / 2). |

## Left out

- `show_images` (ex0/functions.py:11-28): opens windows, blocks on a key press and closes the windows. This is display I/O only.
- `save_images` (ex0/functions.py:31-50): writes files under `../data/ex0` with `cv2.imwrite`, catching and printing any exception. This is filesystem I/O only.
- `cv2.resize` (ex0/functions.py:68): pixel interpolation belongs to the library. Only the target size passed to it is modelled, not the resized pixel values.
- The `print` diagnostics (ex0/functions.py:26, 64, 69, 82) are left out.
- Scaled: the product `n * 0.5` is taken in exact real arithmetic, not IEEE doubles. The two agree for every size below 2^53, and image dimensions are far below that.
- SeparateChannels: an input with fewer than three channels makes the source raise `IndexError` on the zeroing of plane 2 (or 1). The model excludes such inputs by its precondition instead of modelling the exception. A two-dimensional `[H, W]` image, which fails the same way, cannot be expressed with `array3`.
- Pixel values are unbounded integers. numpy's `uint8` dtype is not modelled, which is safe because the code only copies values and writes zeros.
