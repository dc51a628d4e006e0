/** The size computation of `compressImage`: an image whose sides fit within
    `maxDimension` keeps its size, a larger one is scaled by one common ratio
    so that its longer side becomes `maxDimension`, each side rounded with
    `Math.round`. Decoding, drawing and re-encoding are not modelled. */
module ImageUtils {
  import opened Common

  /** Default bound on either side, in pixels. */
  const DefaultMaxDimension: nat := 768
  /** Default JPEG quality of the re-encoding (not used by the size computation). */
  const DefaultQuality: real := 0.7

  function Max(a: nat, b: nat): nat { if a >= b then a else b }

  /** True when the image needs no scaling. */
  predicate FitsWithin(width: nat, height: nat, maxDimension: nat) {
    width <= maxDimension && height <= maxDimension
  }

  /** `Math.min(maxDimension / width, maxDimension / height)`. A side of 0
      divides to +Infinity, which never wins the minimum, so it is skipped.
      The ratio is the bound over the longer side. */
  function ScaleRatio(width: nat, height: nat, maxDimension: nat): (ratio: real)
    requires width > 0 || height > 0
    ensures ratio == maxDimension as real / Max(width, height) as real
  {
    var m := maxDimension as real;
    if width == 0 then m / height as real
    else if height == 0 then m / width as real
    else
      var rw, rh := m / width as real, m / height as real;
      if width >= height then
        assert rw <= rh by { DivideByLarger(m, height as real, width as real); }
        rw
      else
        assert rh <= rw by { DivideByLarger(m, width as real, height as real); }
        rh
  }

  /** Dividing by a larger positive number gives a smaller quotient. */
  lemma DivideByLarger(m: real, small: real, large: real)
    requires m >= 0.0 && 0.0 < small <= large
    ensures m / large <= m / small
  {
    var q := m / large;
    assert q * large == m;
    assert q >= 0.0;
    assert q * small <= q * large;
    assert q * small <= m;
    assert m / small * small == m;
  }

  /** A side scaled by the common ratio, rounded with `Math.round`. */
  function ScaleSide(side: nat, ratio: real): (r: nat)
    requires ratio >= 0.0
    ensures r as real - 0.5 <= side as real * ratio < r as real + 0.5
  {
    Round(side as real * ratio)
  }

  /** The target (width, height) of `compressImage`, exactly as the code
      computes it (rounded sides may be 0: see `ThinImageCollapses`). */
  function TargetDimensions(width: nat, height: nat, maxDimension: nat): (r: (nat, nat))
    ensures FitsWithin(width, height, maxDimension) ==> r == (width, height)
    ensures !FitsWithin(width, height, maxDimension) ==>
              var ratio := maxDimension as real / Max(width, height) as real;
              && r.0 as real - 0.5 <= width as real * ratio < r.0 as real + 0.5
              && r.1 as real - 0.5 <= height as real * ratio < r.1 as real + 0.5
  {
    if !FitsWithin(width, height, maxDimension) then
      var ratio := ScaleRatio(width, height, maxDimension);
      (ScaleSide(width, ratio), ScaleSide(height, ratio))
    else (width, height)
  }

  /** `compressImage` with its default bound. */
  function DefaultTargetDimensions(width: nat, height: nat): (r: (nat, nat))
    ensures FitsWithin(width, height, 768) ==> r == (width, height)
  {
    TargetDimensions(width, height, DefaultMaxDimension)
  }

  /** One side scaled by (bound / longer side) and rounded: it does not
      exceed the bound, does not grow, and is the bound itself when it was
      the longer side. */
  lemma ScaledSideBound(side: nat, longer: nat, m: nat, r: int)
    requires side <= longer && m < longer
    requires r as real - 0.5 <= side as real * (m as real / longer as real) < r as real + 0.5
    ensures r <= m && r <= side
    ensures side == longer ==> r == m
  {
    var s, l := side as real, longer as real;
    var q := m as real / l;
    QuotientAtMostOne(m as real, l);
    assert l * q == m as real;
    NonNegativeProduct(l - s, q);
    assert s * q <= m as real by {
      assert l * q == s * q + (l - s) * q;
    }
    NonNegativeProduct(s, 1.0 - q);
    assert s * q <= s by {
      assert s - s * q == s * (1.0 - q);
    }
  }

  lemma NonNegativeProduct(a: real, b: real)
    requires a >= 0.0 && b >= 0.0
    ensures a * b >= 0.0
  {
  }

  /** A non-negative number over a larger positive one is a ratio in [0, 1]. */
  lemma QuotientAtMostOne(a: real, b: real)
    requires 0.0 <= a <= b && b > 0.0
    ensures 0.0 <= a / b <= 1.0
  {
    var q := a / b;
    assert q * b == a;
    assert (1.0 - q) * b == b - a;
  }

  /** Scaling an image that does not fit: the longer side becomes exactly
      `maxDimension`, neither side exceeds it, and no side grows. */
  lemma DownscaleBounds(width: nat, height: nat, maxDimension: nat)
    requires !FitsWithin(width, height, maxDimension)
    ensures var r := TargetDimensions(width, height, maxDimension);
            && r.0 <= maxDimension && r.1 <= maxDimension
            && (width >= height ==> r.0 == maxDimension)
            && (height >= width ==> r.1 == maxDimension)
            && r.0 <= width && r.1 <= height
  {
    var r := TargetDimensions(width, height, maxDimension);
    var longer := Max(width, height);
    ScaledSideBound(width, longer, maxDimension, r.0);
    ScaledSideBound(height, longer, maxDimension, r.1);
  }

  // ---------------------------------------------------------------------------
  // Finding: a very thin image rounds its short side down to zero pixels.
  // ---------------------------------------------------------------------------

  /** A 10000x1 image at the default bound becomes 768x0: the canvas has no
      pixels at all. */
  lemma ThinImageCollapses()
    ensures TargetDimensions(10000, 1, DefaultMaxDimension) == (768, 0)
  {
    var ratio := ScaleRatio(10000, 1, 768);
    assert ratio == 768.0 / 10000.0;
    assert ScaleSide(1, ratio) == 0;
    assert ScaleSide(10000, ratio) == 768;
  }

  /** The evidently intended computation: as `TargetDimensions`, but a side
      that was at least one pixel never rounds below one pixel. */
  function ClampedTargetDimensions(width: nat, height: nat, maxDimension: nat): (r: (nat, nat))
    requires maxDimension > 0
    ensures width > 0 ==> 1 <= r.0
    ensures height > 0 ==> 1 <= r.1
    ensures r.0 <= maxDimension || r.0 == width
    ensures r.1 <= maxDimension || r.1 == height
    ensures r.0 <= width && r.1 <= height
  {
    var t := TargetDimensions(width, height, maxDimension);
    if FitsWithin(width, height, maxDimension) then t
    else
      DownscaleBounds(width, height, maxDimension);
      (if width > 0 && t.0 == 0 then 1 else t.0, if height > 0 && t.1 == 0 then 1 else t.1)
  }
}
