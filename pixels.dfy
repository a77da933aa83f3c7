/**
 * Pixel-level steps of data_generator.py that the repository itself writes out:
 * the optional clip of `SentinelDataGenerator.read_raster` and the affine
 * rescale `v / 127.5 - 1.0` that `RGBDataGenerator.load` applies to every batch.
 */
module Pixels {
  import opened Wrappers

  /** A raster as rasterio reads it: band, row, column of int16 pixel values. */
  type Raster = seq<seq<seq<int>>>

  /** An image as `img_to_array` returns it: row, column, channel. */
  type Image = seq<seq<seq<real>>>

  /** `np.clip(v, 0, hi)`, which numpy computes as `minimum(maximum(v, 0), hi)`. */
  function ClipValue(v: int, hi: int): int
  {
    Min(Max(v, 0), hi)
  }

  /** Python truthiness of the optional clip bound: neither None nor 0. */
  predicate ClipEnabled(clip: Option<int>)
  {
    clip.Some? && clip.value != 0
  }

  /** `np.clip(raster, 0, clip) if clip else raster`. */
  function ClipStep(raster: Raster, clip: Option<int>): (r: Raster)
    ensures |r| == |raster|
    ensures forall b :: 0 <= b < |r| ==>
      |r[b]| == |raster[b]| && (forall y :: 0 <= y < |r[b]| ==> |r[b][y]| == |raster[b][y]|)
  {
    if ClipEnabled(clip) then
      seq(|raster|, b requires 0 <= b < |raster| =>
        seq(|raster[b]|, y requires 0 <= y < |raster[b]| =>
          seq(|raster[b][y]|, x requires 0 <= x < |raster[b][y]| => ClipValue(raster[b][y][x], clip.value))))
    else raster
  }

  /** Two rasters with the same band count, rows per band and columns per row. */
  predicate SameShape(a: Raster, b: Raster)
  {
    |a| == |b| &&
    (forall i :: 0 <= i < |a| ==> |a[i]| == |b[i]|) &&
    (forall i, y :: 0 <= i < |a| && 0 <= y < |a[i]| ==> |a[i][y]| == |b[i][y]|)
  }

  /**
   * `clipped` is `raw` held to [0, c]: every value lies in [0, c], values already
   * there are unchanged, and values outside move to the nearer end.
   */
  predicate ClippedTo(clipped: Raster, raw: Raster, c: int)
    requires SameShape(clipped, raw)
  {
    forall i, y, x :: 0 <= i < |clipped| && 0 <= y < |clipped[i]| && 0 <= x < |clipped[i][y]| ==>
      0 <= clipped[i][y][x] <= c &&
      (0 <= raw[i][y][x] <= c ==> clipped[i][y][x] == raw[i][y][x]) &&
      (raw[i][y][x] < 0 ==> clipped[i][y][x] == 0) &&
      (raw[i][y][x] > c ==> clipped[i][y][x] == c)
  }

  /** Every value of the raster is c. */
  predicate AllValues(r: Raster, c: int)
  {
    forall i, y, x :: 0 <= i < |r| && 0 <= y < |r[i]| && 0 <= x < |r[i][y]| ==> r[i][y][x] == c
  }

  /**
   * With a positive bound c every value of the clip step lies in [0, c], values
   * already there are unchanged, and values outside move to the nearer end.
   */
  lemma ClipBounds(raster: Raster, c: int)
    requires c > 0
    ensures SameShape(ClipStep(raster, Some(c)), raster)
    ensures ClippedTo(ClipStep(raster, Some(c)), raster, c)
  {
  }

  /** A bound of None or 0 is falsy: the raster passes through unchanged. */
  lemma ClipDisabled(raster: Raster, clip: Option<int>)
    requires clip == None || clip == Some(0)
    ensures ClipStep(raster, clip) == raster
  {
  }

  /** A negative bound is truthy and lies below 0: numpy then sets every value to the bound. */
  lemma ClipNegativeBound(raster: Raster, c: int)
    requires c < 0
    ensures SameShape(ClipStep(raster, Some(c)), raster)
    ensures AllValues(ClipStep(raster, Some(c)), c)
  {
  }

  /** Clipping twice with the same bound is clipping once. */
  lemma ClipIdempotent(raster: Raster, clip: Option<int>)
    ensures ClipStep(ClipStep(raster, clip), clip) == ClipStep(raster, clip)
  {
    var once := ClipStep(raster, clip);
    var twice := ClipStep(once, clip);
    if ClipEnabled(clip) {
      assert forall b :: 0 <= b < |twice| ==> twice[b] == once[b] by {
        forall b | 0 <= b < |twice|
          ensures twice[b] == once[b]
        {
          assert forall y :: 0 <= y < |twice[b]| ==> twice[b][y] == once[b][y];
        }
      }
    }
  }

  /** `v / 127.5 - 1.0`. */
  function Rescale(v: real): real
  {
    v / 127.5 - 1.0
  }

  /** The inverse map, from [-1, 1] back to byte values. */
  function Unrescale(w: real): real
  {
    (w + 1.0) * 127.5
  }

  /**
   * The rescale sends 0 to -1 and 255 to 1, is strictly increasing, maps
   * [0, 255] into [-1, 1], and is undone by Unrescale.
   */
  lemma RescaleProperties(u: real, v: real)
    ensures Rescale(0.0) == -1.0 && Rescale(255.0) == 1.0
    ensures u < v ==> Rescale(u) < Rescale(v)
    ensures 0.0 <= v <= 255.0 ==> -1.0 <= Rescale(v) <= 1.0
    ensures Unrescale(Rescale(v)) == v && Rescale(Unrescale(v)) == v
  {
  }

  /** The rescale applied to every pixel of an image. */
  function RescaleImage(img: Image): (r: Image)
    ensures |r| == |img|
    ensures forall y :: 0 <= y < |r| ==> |r[y]| == |img[y]|
    ensures forall y, x :: 0 <= y < |r| && 0 <= x < |r[y]| ==> |r[y][x]| == |img[y][x]|
    ensures forall y, x, c :: 0 <= y < |r| && 0 <= x < |r[y]| && 0 <= c < |r[y][x]| ==>
      r[y][x][c] == Rescale(img[y][x][c])
  {
    seq(|img|, y requires 0 <= y < |img| =>
      seq(|img[y]|, x requires 0 <= x < |img[y]| =>
        seq(|img[y][x]|, c requires 0 <= c < |img[y][x]| => Rescale(img[y][x][c]))))
  }

  /** `np.array(images) / 127.5 - 1.0`: the rescale of the stacked batch, image by image. */
  function RescaleStack(images: seq<Image>): (r: seq<Image>)
    ensures |r| == |images|
    ensures forall i :: 0 <= i < |r| ==> r[i] == RescaleImage(images[i])
    ensures (forall i :: 0 <= i < |images| ==> AllPixelsIn(images[i], 0.0, 255.0)) ==>
      forall i :: 0 <= i < |r| ==> AllPixelsIn(r[i], -1.0, 1.0)
    ensures (forall i :: 0 <= i < |images| ==> AllPixelsIn(images[i], 255.0, 255.0)) ==>
      forall i :: 0 <= i < |r| ==> AllPixelsIn(r[i], 1.0, 1.0)
  {
    seq(|images|, i requires 0 <= i < |images| => RescaleImage(images[i]))
  }

  predicate AllPixelsIn(img: Image, lo: real, hi: real)
  {
    forall y, x, c :: 0 <= y < |img| && 0 <= x < |img[y]| && 0 <= c < |img[y][x]| ==> lo <= img[y][x][c] <= hi
  }

  /** A byte image rescales into [-1, 1]; an all-white image rescales to all ones. */
  lemma RescaleImageBounds(img: Image)
    ensures AllPixelsIn(img, 0.0, 255.0) ==> AllPixelsIn(RescaleImage(img), -1.0, 1.0)
    ensures AllPixelsIn(img, 255.0, 255.0) ==> AllPixelsIn(RescaleImage(img), 1.0, 1.0)
  {
  }

  /** No two images rescale to the same one: the rescaled batch still tells every sample apart. */
  lemma RescaleImageInjective(a: Image, b: Image)
    requires RescaleImage(a) == RescaleImage(b)
    ensures a == b
  {
    var ra, rb := RescaleImage(a), RescaleImage(b);
    assert |a| == |b|;
    forall y | 0 <= y < |a|
      ensures a[y] == b[y]
    {
      assert |a[y]| == |ra[y]| == |rb[y]| == |b[y]|;
      forall x | 0 <= x < |a[y]|
        ensures a[y][x] == b[y][x]
      {
        assert |a[y][x]| == |ra[y][x]| == |rb[y][x]| == |b[y][x]|;
        forall c | 0 <= c < |a[y][x]|
          ensures a[y][x][c] == b[y][x][c]
        {
          assert Unrescale(ra[y][x][c]) == a[y][x][c];
          assert Unrescale(rb[y][x][c]) == b[y][x][c];
        }
      }
    }
  }
}
