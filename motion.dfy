/** The simple motion score of `detectMotion`: two frames, each decoded to a
    320x240 greyscale raster, are compared pixel by pixel; the mean absolute
    difference scaled to [0, 1] is the score, and motion is reported when it
    exceeds the threshold strictly. Decoding is done by an image library and
    enters here as its result: `None` when decoding failed. */
module Motion {
  import opened Common

  /** `threshold` default of `detectMotion`. */
  const DefaultThreshold: real := 0.1

  /** Raster the frames are resized to before comparison. */
  const CompareWidth: nat := 320
  const CompareHeight: nat := 240
  const PixelCount: nat := 76800

  /** One greyscale level, a byte of the decoded raster. */
  type Pixel = x: int | 0 <= x < 256

  /** A decoded frame: one greyscale level per pixel of the comparison raster. */
  type Greyscale = p: seq<Pixel> | |p| == PixelCount witness seq(76800, i => 0)

  datatype MotionResult = MotionResult(hasMotion: bool, difference: real)

  /** Result reported when decoding either frame throws. */
  const NoMotion: MotionResult := MotionResult(false, 0.0)

  function AbsDiff(x: Pixel, y: Pixel): (d: nat)
    ensures d <= 255
    ensures d == 0 <==> x == y
  {
    if x >= y then x - y else y - x
  }

  /** Sum of the absolute pixel differences, accumulated front to back;
      every pixel contributes at most 255. */
  function SumAbsDiff(a: seq<Pixel>, b: seq<Pixel>): (total: int)
    requires |a| == |b|
    ensures 0 <= total <= 255 * |a|
    decreases |a|
  {
    if |a| == 0 then 0
    else SumAbsDiff(a[..|a| - 1], b[..|b| - 1]) + AbsDiff(a[|a| - 1], b[|b| - 1])
  }

  /** `totalDiff / pixelCount / 255`, where `pixelCount` is the length of
      the comparison raster: a fraction, 0 exactly for identical rasters and
      at most 1. */
  function Difference(a: Greyscale, b: Greyscale): (score: real)
    ensures 0.0 <= score <= 1.0
    ensures score == 0.0 <==> a == b
  {
    SumAbsDiffZero(a, b);
    ScaledFraction(SumAbsDiff(a, b) as real, PixelCount as real);
    SumAbsDiff(a, b) as real / PixelCount as real / 255.0
  }

  /** Whether two decode outcomes report motion at the default threshold. */
  predicate Detected(d1: Option<Greyscale>, d2: Option<Greyscale>) {
    d1.Some? && d2.Some? && Difference(d1.value, d2.value) > DefaultThreshold
  }

  /** The accumulation loop of `detectMotion`, then the threshold test; a
      failed decode takes the catch-all fallback. */
  method DetectMotion(decoded1: Option<Greyscale>, decoded2: Option<Greyscale>, threshold: real)
    returns (r: MotionResult)
    ensures decoded1.None? || decoded2.None? ==> r == NoMotion
    ensures decoded1.Some? && decoded2.Some? ==>
      && r.difference == Difference(decoded1.value, decoded2.value)
      && 0.0 <= r.difference <= 1.0
      && (r.hasMotion <==> r.difference > threshold)
    ensures threshold == DefaultThreshold ==> (r.hasMotion <==> Detected(decoded1, decoded2))
  {
    if decoded1.None? || decoded2.None? {
      return NoMotion;
    }
    var pixels1 := decoded1.value;
    var pixels2 := decoded2.value;
    var totalDiff := 0;
    var pixelCount := |pixels1|;
    for i := 0 to pixelCount
      invariant totalDiff == SumAbsDiff(pixels1[..i], pixels2[..i])
    {
      assert pixels1[..i + 1][..i] == pixels1[..i];
      assert pixels2[..i + 1][..i] == pixels2[..i];
      var diff := AbsDiff(pixels1[i], pixels2[i]);
      totalDiff := totalDiff + diff;
    }
    assert pixels1[..pixelCount] == pixels1;
    assert pixels2[..pixelCount] == pixels2;
    var averageDiff := totalDiff as real / pixelCount as real / 255.0;
    assert averageDiff == Difference(pixels1, pixels2);
    r := MotionResult(averageDiff > threshold, averageDiff);
  }

  /** The sum vanishes exactly when the rasters are equal. */
  lemma {:induction false} SumAbsDiffZero(a: seq<Pixel>, b: seq<Pixel>)
    requires |a| == |b|
    ensures SumAbsDiff(a, b) == 0 <==> a == b
    decreases |a|
  {
    if |a| > 0 {
      var n := |a| - 1;
      SumAbsDiffZero(a[..n], b[..n]);
      assert a == a[..n] + [a[n]];
      assert b == b[..n] + [b[n]];
    }
  }

  lemma {:induction false} SumAbsDiffSymmetric(a: seq<Pixel>, b: seq<Pixel>)
    requires |a| == |b|
    ensures SumAbsDiff(a, b) == SumAbsDiff(b, a)
    decreases |a|
  {
    if |a| > 0 {
      SumAbsDiffSymmetric(a[..|a| - 1], b[..|b| - 1]);
    }
  }

  lemma ScaledFraction(s: real, n: real)
    requires n > 0.0 && 0.0 <= s <= 255.0 * n
    ensures 0.0 <= s / n / 255.0 <= 1.0
    ensures s / n / 255.0 == 0.0 <==> s == 0.0
  {
    var q := s / n;
    assert q * n == s;
  }

  /** The score does not depend on the order of the two frames. */
  lemma DifferenceSymmetric(a: Greyscale, b: Greyscale)
    ensures Difference(a, b) == Difference(b, a)
  {
    SumAbsDiffSymmetric(a, b);
  }

  /** The threshold test stated on the integer sum: on the comparison
      raster, motion is reported exactly when the summed difference exceeds
      `threshold * 255 * pixelCount`. */
  lemma ThresholdOnSum(a: Greyscale, b: Greyscale, threshold: real)
    ensures Difference(a, b) > threshold <==> SumAbsDiff(a, b) as real > threshold * (255 * PixelCount) as real
  {
    var s := SumAbsDiff(a, b) as real;
    var q := Difference(a, b);
    assert q == s / 76800.0 / 255.0;
    assert q * 19584000.0 == s;
  }

  /** Identical frames never report motion at a non-negative threshold. */
  lemma NoMotionForIdenticalFrames(d: Greyscale, threshold: real)
    requires threshold >= 0.0
    ensures !(Difference(d, d) > threshold)
  {
    assert Difference(d, d) == 0.0;
  }
}
