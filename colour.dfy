/**
 The encounter-indicator colour tests of the two variants: the macOS one
 (`is_reddish_in_region`, an inclusive range test of every pixel of the captured
 region, done by OpenCV in BGR order) and the Windows one
 (`is_predefined_coord_reddish`, a strict test of the first pixel of a 20x20
 capture). Images are rows of `(c0, c1, c2)` channel triples.
 */
module Colour {
  import opened Wrappers

  type Pixel = (int, int, int)
  type Image = seq<seq<Pixel>>

  /** A pixel of an 8-bit image. */
  predicate ValidPixel(p: Pixel)
  {
    0 <= p.0 <= 255 && 0 <= p.1 <= 255 && 0 <= p.2 <= 255
  }

  /** The default thresholds of `is_reddish_in_region`, in R, G, B order. */
  const DefaultLower: Pixel := (150, 0, 0)
  const DefaultUpper: Pixel := (255, 100, 100)

  /** `lo <= p <= hi` on every channel, bounds included (`cv2.inRange` for one pixel). */
  predicate InRange(p: Pixel, lo: Pixel, hi: Pixel)
  {
    lo.0 <= p.0 <= hi.0 && lo.1 <= p.1 <= hi.1 && lo.2 <= p.2 <= hi.2
  }

  /** Exchanging the first and third channel: RGB to BGR, and back. */
  function Swap(p: Pixel): Pixel
  {
    (p.2, p.1, p.0)
  }

  /**
   An image with at least one pixel. `cv2.cvtColor` asserts that its input is
   not empty and raises otherwise; captures are rectangular, so the first row
   stands for all of them.
   */
  predicate NonEmpty(img: Image)
  {
    |img| > 0 && |img[0]| > 0
  }

  /** `cv2.cvtColor(img, cv2.COLOR_RGB2BGR)`. */
  function ToBgr(img: Image): (r: Image)
    requires NonEmpty(img)
    ensures |r| == |img|
    ensures forall i :: 0 <= i < |img| ==> |r[i]| == |img[i]|
    ensures forall i, j :: 0 <= i < |img| && 0 <= j < |img[i]| ==> r[i][j] == Swap(img[i][j])
  {
    seq(|img|, i requires 0 <= i < |img| => seq(|img[i]|, j requires 0 <= j < |img[i]| => Swap(img[i][j])))
  }

  /** `cv2.inRange(img, lo, hi)`: 255 where the pixel is in range, 0 elsewhere. */
  function InRangeMask(img: Image, lo: Pixel, hi: Pixel): (mask: seq<seq<int>>)
    ensures |mask| == |img|
    ensures forall i :: 0 <= i < |img| ==> |mask[i]| == |img[i]|
    ensures forall i, j :: 0 <= i < |img| && 0 <= j < |img[i]| ==>
              mask[i][j] == if InRange(img[i][j], lo, hi) then 255 else 0
  {
    seq(|img|, i requires 0 <= i < |img| =>
      seq(|img[i]|, j requires 0 <= j < |img[i]| => if InRange(img[i][j], lo, hi) then 255 else 0))
  }

  /** `np.any(row > 0)` for one row of the mask. */
  function RowAnyPositive(row: seq<int>): (r: bool)
    ensures r <==> exists j :: 0 <= j < |row| && row[j] > 0
  {
    if row == [] then false
    else if row[0] > 0 then true
    else
      var rest := RowAnyPositive(row[1..]);
      assert forall j :: 1 <= j < |row| ==> row[j] == row[1..][j - 1];
      rest
  }

  /** `np.any(mask > 0)`. */
  function AnyPositive(mask: seq<seq<int>>): (r: bool)
    ensures r <==> exists i, j :: 0 <= i < |mask| && 0 <= j < |mask[i]| && mask[i][j] > 0
  {
    if mask == [] then false
    else if RowAnyPositive(mask[0]) then true
    else
      var rest := AnyPositive(mask[1..]);
      assert forall i :: 1 <= i < |mask| ==> mask[i] == mask[1..][i - 1];
      rest
  }

  /**
   `is_reddish_in_region` once the capture is done: `None` (a failed capture)
   is never reddish; otherwise the image is converted to BGR, tested against
   the thresholds given in RGB and reordered to BGR, and the answer is whether
   any pixel of the mask is set. A capture without pixels (a region of zero
   width or height) has no answer: the conversion raises.
   */
  predicate IsReddishInRegion(capture: Option<Image>, lower: Pixel, upper: Pixel)
    requires capture.Some? ==> NonEmpty(capture.value)
  {
    match capture
    case None => false
    case Some(img) => AnyPositive(InRangeMask(ToBgr(img), Swap(lower), Swap(upper)))
  }

  /** Some pixel of `img` lies within the thresholds on all three channels, bounds included. */
  predicate SomePixelInRange(img: Image, lower: Pixel, upper: Pixel)
  {
    exists i, j :: 0 <= i < |img| && 0 <= j < |img[i]| && InRange(img[i][j], lower, upper)
  }

  /**
   What `is_reddish_in_region` decides, in RGB terms: a capture is reddish
   exactly when it exists and some pixel is within the thresholds.
   */
  lemma ReddishIffSomePixelInRange(capture: Option<Image>, lower: Pixel, upper: Pixel)
    requires capture.Some? ==> NonEmpty(capture.value)
    ensures IsReddishInRegion(capture, lower, upper) <==> capture.Some? && SomePixelInRange(capture.value, lower, upper)
  {
    if capture.Some? {
      var img := capture.value;
      var mask := InRangeMask(ToBgr(img), Swap(lower), Swap(upper));
      assert forall i, j :: 0 <= i < |img| && 0 <= j < |img[i]| ==>
        (mask[i][j] > 0 <==> InRange(img[i][j], lower, upper));
    }
  }

  /** `is_predefined_coord_reddish` on pixel `(0, 0)` of the capture: every channel tested strictly. */
  predicate StrictlyReddish(p: Pixel)
  {
    p.0 > 150 && p.1 < 100 && p.2 < 100
  }

  /**
   `is_predefined_coord_reddish(hwnd, x, y)` on the 20x20 capture taken at
   `(x, y)`: only its first pixel is looked at.
   */
  predicate IsPredefinedCoordReddish(crop: Image)
    requires |crop| > 0 && |crop[0]| > 0
  {
    StrictlyReddish(crop[0][0])
  }

  /** Every 8-bit capture the Windows test accepts, the macOS test with its default thresholds accepts as well. */
  lemma StrictImpliesInclusive(crop: Image)
    requires |crop| > 0 && |crop[0]| > 0 && ValidPixel(crop[0][0])
    requires IsPredefinedCoordReddish(crop)
    ensures IsReddishInRegion(Some(crop), DefaultLower, DefaultUpper)
  {
    ReddishIffSomePixelInRange(Some(crop), DefaultLower, DefaultUpper);
    assert InRange(crop[0][0], DefaultLower, DefaultUpper);
  }

  /** The Windows test reads pixel `(0, 0)` of the capture and nothing else. */
  lemma OnlyFirstPixelMatters(crop: Image, other: Image)
    requires |crop| > 0 && |crop[0]| > 0 && |other| > 0 && |other[0]| > 0
    requires crop[0][0] == other[0][0]
    ensures IsPredefinedCoordReddish(crop) == IsPredefinedCoordReddish(other)
  {
  }

  /** The lower bound itself is reddish for the macOS test but not for the Windows test. */
  lemma LowerBoundSeparatesVariants(crop: Image)
    requires crop == [[DefaultLower]]
    ensures IsReddishInRegion(Some(crop), DefaultLower, DefaultUpper)
    ensures !IsPredefinedCoordReddish(crop)
  {
    ReddishIffSomePixelInRange(Some(crop), DefaultLower, DefaultUpper);
    assert InRange(crop[0][0], DefaultLower, DefaultUpper);
  }

  /**
   Reordering both the image and the thresholds to BGR, as the source does,
   gives the same answer as testing the RGB image against the RGB thresholds.
   */
  lemma {:induction false} BgrTestEqualsRgbTest(img: Image, lower: Pixel, upper: Pixel)
    requires NonEmpty(img)
    ensures AnyPositive(InRangeMask(ToBgr(img), Swap(lower), Swap(upper)))
         == AnyPositive(InRangeMask(img, lower, upper))
  {
    var bgr := InRangeMask(ToBgr(img), Swap(lower), Swap(upper));
    var rgb := InRangeMask(img, lower, upper);
    assert bgr == rgb by {
      assert |bgr| == |rgb|;
      forall i | 0 <= i < |bgr| ensures bgr[i] == rgb[i] {
        assert |bgr[i]| == |rgb[i]|;
      }
    }
  }
}
