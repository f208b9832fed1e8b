/**
 Helper functions of the first image-processing exercise: halving the size of
 an image and splitting an OpenCV colour image into its three channel planes.

 An image is an OpenCV array of shape [height, width, channels] whose channels
 are in Blue-Green-Red order. In place it is an `array3<int>`; as a value it is
 an `Image`, a sequence of rows of pixels, each pixel the sequence of its
 channel values.
 */
module Functions {

  // ---------------------------------------------------------------------------
  // Images as values
  // ---------------------------------------------------------------------------

  /** Channel indices in OpenCV's BGR order. */
  const Blue: nat := 0
  const Green: nat := 1
  const Red: nat := 2

  type Pixel = seq<int>
  type Image = seq<seq<Pixel>>

  /** `img` is a dense [height, width, channels] array. */
  predicate HasShape(img: Image, height: nat, width: nat, channels: nat) {
    && |img| == height
    && forall y :: 0 <= y < height ==>
         && |img[y]| == width
         && forall x :: 0 <= x < width ==> |img[y][x]| == channels
  }

  /** `a` and `b` have the same number of rows, of pixels per row and of
      channels per pixel. */
  predicate SameShape(a: Image, b: Image) {
    && |a| == |b|
    && forall y :: 0 <= y < |a| ==>
         && |a[y]| == |b[y]|
         && forall x :: 0 <= x < |a[y]| ==> |a[y][x]| == |b[y][x]|
  }

  /** The value of an element of an array3, seen as an image. */
  ghost function Pixels(a: array3<int>): (img: Image)
    reads a
    ensures HasShape(img, a.Length0, a.Length1, a.Length2)
    ensures forall y, x, c ::
      0 <= y < a.Length0 && 0 <= x < a.Length1 && 0 <= c < a.Length2 ==>
        img[y][x][c] == a[y, x, c]
  {
    seq(a.Length0, (y: int) reads a requires 0 <= y < a.Length0 =>
      seq(a.Length1, (x: int) reads a requires 0 <= x < a.Length1 =>
        seq(a.Length2, (c: int) reads a requires 0 <= c < a.Length2 => a[y, x, c])))
  }

  /** Two images of the same shape that agree at every element are equal. */
  lemma ImagesEqual(a: Image, b: Image)
    requires SameShape(a, b)
    requires forall y, x, c :: 0 <= y < |a| && 0 <= x < |a[y]| && 0 <= c < |a[y][x]| ==>
      a[y][x][c] == b[y][x][c]
    ensures a == b
  {
    forall y | 0 <= y < |a| ensures a[y] == b[y] {
      forall x | 0 <= x < |a[y]| ensures a[y][x] == b[y][x] {
        assert |a[y][x]| == |b[y][x]|;
      }
    }
  }

  /** An array3 whose elements agree with an image of its shape has that image
      as its value. */
  lemma PixelsAre(a: array3<int>, img: Image)
    requires HasShape(img, a.Length0, a.Length1, a.Length2)
    requires forall y, x, c ::
      0 <= y < a.Length0 && 0 <= x < a.Length1 && 0 <= c < a.Length2 ==>
        a[y, x, c] == img[y][x][c]
    ensures Pixels(a) == img
  {
    ImagesEqual(Pixels(a), img);
  }

  // ---------------------------------------------------------------------------
  // separate_channels
  // ---------------------------------------------------------------------------

  /** The value channel `c` holds in the copy that keeps channel `keep`: the
      Blue, Green and Red planes other than `keep` are set to zero, every other
      plane is left as it was copied. */
  function MaskedValue(keep: nat, c: nat, v: int): int {
    if c <= Red && c != keep then 0 else v
  }

  /** A pixel of the copy that keeps channel `keep`. */
  function MaskPixel(p: Pixel, keep: nat): Pixel {
    seq(|p|, (c: int) requires 0 <= c < |p| => MaskedValue(keep, c, p[c]))
  }

  /** The copy of `img` in which only channel `keep` of the three colour
      channels is active. */
  function KeepOnly(img: Image, keep: nat): (out: Image)
    ensures SameShape(out, img)
  {
    seq(|img|, (y: int) requires 0 <= y < |img| =>
      seq(|img[y]|, (x: int) requires 0 <= x < |img[y]| => MaskPixel(img[y][x], keep)))
  }

  /** The copy keeping channel `keep` has the shape of the original; in it,
      channel `keep` and any channel past Red hold the original's values, and
      the other colour channels are zero. */
  lemma KeepOnlyAt(img: Image, keep: nat)
    ensures SameShape(KeepOnly(img, keep), img)
    ensures forall y, x, c :: 0 <= y < |img| && 0 <= x < |img[y]| && 0 <= c < |img[y][x]| ==>
      KeepOnly(img, keep)[y][x][c] == (if c <= Red && c != keep then 0 else img[y][x][c])
  {
  }

  /** Each colour channel is active in exactly one copy: at every pixel, the
      copy keeping channel `c` holds the original value of `c`, and the other
      two copies hold zero there. */
  lemma ExactlyOneCopyKeeps(img: Image, y: nat, x: nat, c: nat)
    requires y < |img| && x < |img[y]| && c < |img[y][x]| && c <= Red
    ensures KeepOnly(img, c)[y][x][c] == img[y][x][c]
    ensures forall keep: nat :: keep <= Red && keep != c ==> KeepOnly(img, keep)[y][x][c] == 0
  {
  }

  /** The pixel-wise sum of two images of the same shape. */
  function Add(a: Image, b: Image): (s: Image)
    requires SameShape(a, b)
    ensures SameShape(s, a)
  {
    seq(|a|, (y: int) requires 0 <= y < |a| =>
      seq(|a[y]|, (x: int) requires 0 <= x < |a[y]| =>
        seq(|a[y][x]|, (c: int) requires 0 <= c < |a[y][x]| => a[y][x][c] + b[y][x][c])))
  }

  /** For a three-channel image, adding the Blue-only, Green-only and Red-only
      copies gives back the original: no colour value is lost or duplicated.
      `height` and `width` are the image's dimensions; they are parameters so
      that the precondition says the image is a dense [height, width, 3]
      array. */
  lemma SeparatedChannelsSumToOriginal(img: Image, height: nat, width: nat)
    requires HasShape(img, height, width, 3)
    ensures SameShape(KeepOnly(img, Blue), KeepOnly(img, Green))
    ensures SameShape(Add(KeepOnly(img, Blue), KeepOnly(img, Green)), KeepOnly(img, Red))
    ensures Add(Add(KeepOnly(img, Blue), KeepOnly(img, Green)), KeepOnly(img, Red)) == img
  {
    var b, g, r := KeepOnly(img, Blue), KeepOnly(img, Green), KeepOnly(img, Red);
    KeepOnlyAt(img, Blue);
    KeepOnlyAt(img, Green);
    KeepOnlyAt(img, Red);
    var bg := Add(b, g);
    var sum := Add(bg, r);
    forall y, x, c | 0 <= y < |sum| && 0 <= x < |sum[y]| && 0 <= c < |sum[y][x]|
      ensures sum[y][x][c] == img[y][x][c]
    {
      assert c <= Red;
      ExactlyOneCopyKeeps(img, y, x, c);
    }
    ImagesEqual(sum, img);
  }

  /** `np.copy`: a fresh array with the same shape and contents. */
  method CopyImage(src: array3<int>) returns (dst: array3<int>)
    ensures fresh(dst)
    ensures dst.Length0 == src.Length0 && dst.Length1 == src.Length1 && dst.Length2 == src.Length2
    ensures Pixels(dst) == Pixels(src)
  {
    dst := new int[src.Length0, src.Length1, src.Length2];
    for y := 0 to src.Length0
      invariant forall i, j, k :: 0 <= i < y && 0 <= j < src.Length1 && 0 <= k < src.Length2 ==>
        dst[i, j, k] == src[i, j, k]
    {
      for x := 0 to src.Length1
        invariant forall i, j, k :: 0 <= i < y && 0 <= j < src.Length1 && 0 <= k < src.Length2 ==>
          dst[i, j, k] == src[i, j, k]
        invariant forall j, k :: 0 <= j < x && 0 <= k < src.Length2 ==> dst[y, j, k] == src[y, j, k]
      {
        for c := 0 to src.Length2
          invariant forall i, j, k :: 0 <= i < y && 0 <= j < src.Length1 && 0 <= k < src.Length2 ==>
            dst[i, j, k] == src[i, j, k]
          invariant forall j, k :: 0 <= j < x && 0 <= k < src.Length2 ==> dst[y, j, k] == src[y, j, k]
          invariant forall k :: 0 <= k < c ==> dst[y, x, k] == src[y, x, k]
        {
          dst[y, x, c] := src[y, x, c];
        }
      }
    }
    PixelsAre(dst, Pixels(src));
  }

  /** `image[:, :, channel] = 0`: zero one channel plane, leave the rest. */
  method ZeroChannel(a: array3<int>, channel: nat)
    requires channel < a.Length2
    modifies a
    ensures forall y, x, c :: 0 <= y < a.Length0 && 0 <= x < a.Length1 && 0 <= c < a.Length2 ==>
      a[y, x, c] == if c == channel then 0 else old(a[y, x, c])
  {
    for y := 0 to a.Length0
      invariant forall i, j, c :: 0 <= i < a.Length0 && 0 <= j < a.Length1 && 0 <= c < a.Length2 ==>
        a[i, j, c] == if c == channel && i < y then 0 else old(a[i, j, c])
    {
      for x := 0 to a.Length1
        invariant forall i, j, c :: 0 <= i < a.Length0 && 0 <= j < a.Length1 && 0 <= c < a.Length2 ==>
          a[i, j, c] == if c == channel && (i < y || (i == y && j < x)) then 0 else old(a[i, j, c])
      {
        a[y, x, channel] := 0;
      }
    }
  }

  /** A fresh copy of `img` in which only channel `keep` of the three colour
      channels is active. */
  method CopyKeeping(img: array3<int>, keep: nat) returns (out: array3<int>)
    requires Red < img.Length2 && keep <= Red
    ensures fresh(out)
    ensures out.Length0 == img.Length0 && out.Length1 == img.Length1 && out.Length2 == img.Length2
    ensures Pixels(out) == KeepOnly(Pixels(img), keep)
  {
    out := CopyImage(img);
    var first, second := if keep == Blue then Green else Blue, if keep == Red then Green else Red;
    ZeroChannel(out, first);
    ZeroChannel(out, second);
    KeepOnlyAt(Pixels(img), keep);
    PixelsAre(out, KeepOnly(Pixels(img), keep));
  }

  /** `separate_channels`: three independent copies of a BGR image, the first
      with only Blue active, the second with only Green, the third with only
      Red. The input is not changed. */
  method SeparateChannels(colored: array3<int>) returns (blue: array3<int>, green: array3<int>, red: array3<int>)
    requires Red < colored.Length2
    ensures fresh(blue) && fresh(green) && fresh(red)
    ensures blue != green && green != red && blue != red
    ensures unchanged(colored)
    ensures blue.Length0 == green.Length0 == red.Length0 == colored.Length0
    ensures blue.Length1 == green.Length1 == red.Length1 == colored.Length1
    ensures blue.Length2 == green.Length2 == red.Length2 == colored.Length2
    ensures Pixels(blue) == KeepOnly(Pixels(colored), Blue)
    ensures Pixels(green) == KeepOnly(Pixels(colored), Green)
    ensures Pixels(red) == KeepOnly(Pixels(colored), Red)
  {
    blue := CopyKeeping(colored, Blue);
    green := CopyKeeping(colored, Green);
    red := CopyKeeping(colored, Red);
  }

  // ---------------------------------------------------------------------------
  // scale_down: the target size
  // ---------------------------------------------------------------------------

  const ScaleFactor: real := 0.5

  /** For a non-negative size, truncating `n * 0.5` toward zero is integer
      division by two. */
  lemma HalfTruncatesToDivision(n: nat)
    ensures (n as real * ScaleFactor).Floor == n / 2
  {
  }

  /** `int(n * scale_factor)` on a non-negative size: it is half of `n`,
      rounded down. */
  function Scaled(n: nat): (m: nat)
    ensures 2 * m <= n <= 2 * m + 1
  {
    HalfTruncatesToDivision(n);
    (n as real * ScaleFactor).Floor
  }

  /** The `dsize` argument of the resize call, in OpenCV's (width, height)
      order. */
  datatype Size = Size(width: nat, height: nat)

  /** The target size `scale_down` computes for an image with `height` rows
      (`shape[0]`) and `width` columns (`shape[1]`). */
  function ScaleDownSize(height: nat, width: nat): (dim: Size)
    ensures 2 * dim.width <= width <= 2 * dim.width + 1
    ensures 2 * dim.height <= height <= 2 * dim.height + 1
    ensures dim.width <= width && dim.height <= height
    ensures dim.width == 0 <==> width <= 1
    ensures dim.height == 0 <==> height <= 1
  {
    Size(Scaled(width), Scaled(height))
  }

  /** For even sizes the target size is exactly half the original, width
      first. */
  lemma ScaleDownEven(height: nat, width: nat)
    requires height % 2 == 0 && width % 2 == 0
    ensures ScaleDownSize(height, width) == Size(width / 2, height / 2)
  {
  }
}
