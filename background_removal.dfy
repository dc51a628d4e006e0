/** The chroma-key pass `removeBackground` of the local try-on pipeline:
    sample the four corner pixels of a product image, take their rounded
    mean as the background colour, and lower each pixel's alpha by its
    colour distance to it. Loading and drawing the image are not modelled;
    the canvas's RGBA bytes are the input buffer. */
module BackgroundRemoval {
  import opened Common

  // ---------------------------------------------------------------------------
  // Background removal (`removeBackground`)
  // ---------------------------------------------------------------------------

  /** One byte of an RGBA pixel buffer (a `Uint8ClampedArray` element). */
  type Byte = b: int | 0 <= b < 256

  datatype Rgb = Rgb(r: int, g: int, b: int)

  /** Colour distance threshold: closer pixels become fully transparent. */
  const Threshold: nat := 60
  /** Width of the feathered band above the threshold. */
  const EdgeFade: nat := 30

  /** Byte offsets of the top-left, top-right, bottom-left and bottom-right
      pixels of a w x h image. */
  function SamplePositions(w: nat, h: nat): (ps: seq<int>)
    ensures |ps| == 4
  {
    [0, (w - 1) * 4, (h - 1) * w * 4, ((h - 1) * w + (w - 1)) * 4]
  }

  /** Running sums of the sampled corner channels and how many were in bounds. */
  datatype CornerSample = CornerSample(sumR: int, sumG: int, sumB: int, count: nat)

  /** The guard of the corner loop: the three colour bytes at `idx` lie
      inside the buffer. */
  predicate InBounds(s: seq<Byte>, idx: int) {
    idx >= 0 && idx + 2 < |s|
  }

  /** The corner accumulation over `positions`, skipping an offset whose
      three colour bytes are not all inside the buffer. No sample is counted
      exactly when every offset is out of bounds, and every one is counted
      exactly when all are in bounds. */
  function CornerSums(s: seq<Byte>, positions: seq<int>): (acc: CornerSample)
    ensures acc.count <= |positions|
    ensures acc.count == 0 <==> forall i | 0 <= i < |positions| :: !InBounds(s, positions[i])
    ensures acc.count == |positions| <==> forall i | 0 <= i < |positions| :: InBounds(s, positions[i])
  {
    if positions == [] then CornerSample(0, 0, 0, 0)
    else
      var acc := CornerSums(s, positions[..|positions| - 1]);
      var idx := positions[|positions| - 1];
      assert forall i | 0 <= i < |positions| - 1 :: positions[..|positions| - 1][i] == positions[i];
      if idx >= 0 && idx + 2 < |s| then
        CornerSample(acc.sumR + s[idx], acc.sumG + s[idx + 1], acc.sumB + s[idx + 2], acc.count + 1)
      else acc
  }

  /** The corner-sampling loop of `removeBackground`; reads the buffer only. */
  method SampleCorners(data: array<Byte>, w: nat, h: nat) returns (acc: CornerSample)
    ensures acc == CornerSums(data[..], SamplePositions(w, h))
  {
    var positions := SamplePositions(w, h);
    var bgR: int, bgG: int, bgB: int, count: nat := 0, 0, 0, 0;
    for j := 0 to |positions|
      invariant CornerSample(bgR, bgG, bgB, count) == CornerSums(data[..], positions[..j])
    {
      var idx := positions[j];
      assert positions[..j + 1][..j] == positions[..j];
      if idx >= 0 && idx + 2 < data.Length {
        bgR := bgR + data[idx];
        bgG := bgG + data[idx + 1];
        bgB := bgB + data[idx + 2];
        count := count + 1;
      }
    }
    assert positions[..|positions|] == positions;
    acc := CornerSample(bgR, bgG, bgB, count);
  }

  /** `Math.round(sum / count)` per channel, or no colour when no corner
      was counted. For a w x h buffer that case arises only when a side is 0,
      and `StripBackground` fails before it gets there. */
  function BackgroundColour(acc: CornerSample): (bg: Option<Rgb>)
    ensures bg.None? <==> acc.count == 0
    ensures bg.Some? ==>
              var n := acc.count as real;
              && bg.value.r as real - 0.5 <= acc.sumR as real / n < bg.value.r as real + 0.5
              && bg.value.g as real - 0.5 <= acc.sumG as real / n < bg.value.g as real + 0.5
              && bg.value.b as real - 0.5 <= acc.sumB as real / n < bg.value.b as real + 0.5
  {
    if acc.count == 0 then None
    else Some(Rgb(RoundedMean(acc.sumR, acc.count), RoundedMean(acc.sumG, acc.count),
                  RoundedMean(acc.sumB, acc.count)))
  }

  /** `Math.round(sum / count)`. */
  function RoundedMean(sum: int, count: nat): (m: int)
    requires count > 0
    ensures m as real - 0.5 <= sum as real / count as real < m as real + 0.5
  {
    Round(sum as real / count as real)
  }

  /** Over four samples, the rounded mean is the integer formula (sum + 2) div 4. */
  lemma RoundedMeanOfFour(sum: int)
    ensures RoundedMean(sum, 4) == (sum + 2) / 4
  {
    var q := (sum + 2) / 4;
    assert 4 * q <= sum + 2 < 4 * q + 4;
    assert q as real - 0.5 <= sum as real / 4.0 < q as real + 0.5;
  }

  /** Four in-bounds offsets contribute all their colour bytes. */
  lemma CornerSumsOfFour(s: seq<Byte>, ps: seq<int>)
    requires |ps| == 4 && forall i | 0 <= i < 4 :: 0 <= ps[i] && ps[i] + 2 < |s|
    ensures CornerSums(s, ps) == CornerSample(
              s[ps[0]] as int + s[ps[1]] + s[ps[2]] + s[ps[3]],
              s[ps[0] + 1] as int + s[ps[1] + 1] + s[ps[2] + 1] + s[ps[3] + 1],
              s[ps[0] + 2] as int + s[ps[1] + 2] + s[ps[2] + 2] + s[ps[3] + 2],
              4)
  {
    assert [ps[0]][..0] == [];
    assert 0 <= ps[0] && ps[0] + 2 < |s|;
    assert 0 <= ps[1] && ps[1] + 2 < |s|;
    assert 0 <= ps[2] && ps[2] + 2 < |s|;
    assert CornerSums(s, []) == CornerSample(0, 0, 0, 0);
    var a1 := CornerSums(s, [ps[0]]);
    assert a1 == CornerSample(s[ps[0]], s[ps[0] + 1], s[ps[0] + 2], 1);
    assert [ps[0], ps[1]][..1] == [ps[0]];
    var a2 := CornerSums(s, [ps[0], ps[1]]);
    assert a2 == CornerSample(a1.sumR + s[ps[1]], a1.sumG + s[ps[1] + 1], a1.sumB + s[ps[1] + 2], 2);
    assert [ps[0], ps[1], ps[2]][..2] == [ps[0], ps[1]];
    var a3 := CornerSums(s, [ps[0], ps[1], ps[2]]);
    assert a3 == CornerSample(a2.sumR + s[ps[2]], a2.sumG + s[ps[2] + 1], a2.sumB + s[ps[2] + 2], 3);
    assert ps[..3] == [ps[0], ps[1], ps[2]];
  }

  /** Pixel p of a buffer with more than p pixels starts a whole pixel in it. */
  lemma WholePixel(p: int, len: int)
    requires 0 <= p && 4 * p + 4 <= len
    ensures 0 <= 4 * p && (4 * p) % 4 == 0 && 4 * p + 4 <= len
  {
  }

  /** The colour of the pixel whose red byte is at offset p. */
  function PixelColour(s: seq<Byte>, p: int): Rgb
    requires 0 <= p && p + 2 < |s|
  {
    Rgb(s[p], s[p + 1], s[p + 2])
  }

  /** Channel-wise rounded mean of four colours. */
  function MeanOfFour(a: Rgb, b: Rgb, c: Rgb, d: Rgb): Rgb {
    Rgb((a.r + b.r + c.r + d.r + 2) / 4, (a.g + b.g + c.g + d.g + 2) / 4, (a.b + b.b + c.b + d.b + 2) / 4)
  }

  /** For a w x h buffer with w, h >= 1 all four corners are whole pixels
      inside the buffer, so the background colour is the rounded mean of the
      four corner colours. */
  lemma BackgroundIsCornerMean(s: seq<Byte>, w: nat, h: nat)
    requires w >= 1 && h >= 1 && |s| == 4 * (w * h)
    ensures var ps := SamplePositions(w, h);
            && (forall i | 0 <= i < 4 :: 0 <= ps[i] && ps[i] % 4 == 0 && ps[i] + 4 <= |s|)
            && BackgroundColour(CornerSums(s, ps)) == Some(MeanOfFour(
                 PixelColour(s, ps[0]), PixelColour(s, ps[1]), PixelColour(s, ps[2]), PixelColour(s, ps[3])))
  {
    CornersAreWholePixels(w, h, |s|);
    MeanOfCorners(s, SamplePositions(w, h));
  }

  /** The four sample offsets of a w x h image with w, h >= 1 start whole
      pixels inside its buffer. */
  lemma CornersAreWholePixels(w: nat, h: nat, len: int)
    requires w >= 1 && h >= 1 && len == 4 * (w * h)
    ensures var ps := SamplePositions(w, h);
            forall i | 0 <= i < 4 :: 0 <= ps[i] && ps[i] % 4 == 0 && ps[i] + 4 <= len
  {
    var ps := SamplePositions(w, h);
    var n := w * h;
    assert (h - 1) * w == n - w;
    assert n >= w by {
      assert n == w * (h - 1) + w;
    }
    assert ps == [4 * 0, 4 * (w - 1), 4 * (n - w), 4 * (n - 1)];
    WholePixel(0, len);
    WholePixel(w - 1, len);
    WholePixel(n - w, len);
    WholePixel(n - 1, len);
  }

  /** Four whole in-bounds pixels give the rounded mean of their colours. */
  lemma MeanOfCorners(s: seq<Byte>, ps: seq<int>)
    requires |ps| == 4 && forall i | 0 <= i < 4 :: 0 <= ps[i] && ps[i] + 4 <= |s|
    ensures BackgroundColour(CornerSums(s, ps)) == Some(MeanOfFour(
              PixelColour(s, ps[0]), PixelColour(s, ps[1]), PixelColour(s, ps[2]), PixelColour(s, ps[3])))
  {
    CornerSumsOfFour(s, ps);
    var acc := CornerSums(s, ps);
    RoundedMeanOfFour(acc.sumR);
    RoundedMeanOfFour(acc.sumG);
    RoundedMeanOfFour(acc.sumB);
  }

  /** x * x, defined by recursion so that the feather arithmetic below stays
      linear for the solver; `SquareIsProduct` ties it to multiplication. */
  function Square(x: int): nat
    decreases if x < 0 then 1 - x else x
  {
    if x < 0 then Square(-x)
    else if x == 0 then 0
    else Square(x - 1) + 2 * x - 1
  }

  lemma SquareIsProduct(x: int)
    ensures Square(x) == x * x
  {
    if x < 0 {
      NaturalSquareIsProduct(-x);
      assert (-x) * (-x) == x * x;
    } else {
      NaturalSquareIsProduct(x);
    }
  }

  lemma {:induction false} NaturalSquareIsProduct(n: nat)
    ensures Square(n) == n * n
  {
    if n > 0 {
      NaturalSquareIsProduct(n - 1);
      assert (n - 1) * (n - 1) == n * n - 2 * n + 1;
    }
  }

  /** On non-negative integers, squaring is strictly increasing. */
  lemma {:induction false} SquareIncreasing(x: int, y: int)
    requires 0 <= x < y
    ensures Square(x) < Square(y)
    decreases y
  {
    if x < y - 1 {
      SquareIncreasing(x, y - 1);
    }
  }

  lemma SquareNonDecreasing(x: int, y: int)
    requires 0 <= x <= y
    ensures Square(x) <= Square(y)
  {
    if x < y {
      SquareIncreasing(x, y);
    }
  }

  /** Squared RGB distance of a pixel to the background colour. */
  function Distance2(r: int, g: int, b: int, bg: Rgb): (d2: nat)
    ensures d2 == 0 <==> r == bg.r && g == bg.g && b == bg.b
  {
    SquareZero(r - bg.r);
    SquareZero(g - bg.g);
    SquareZero(b - bg.b);
    Square(r - bg.r) + Square(g - bg.g) + Square(b - bg.b)
  }

  /** Only zero squares to zero. */
  lemma SquareZero(x: int)
    ensures Square(x) == 0 <==> x == 0
  {
    if x != 0 {
      SquareIncreasing(0, if x < 0 then -x else x);
    }
  }

  /** The feathered alpha `Math.round(255 * (d - 60) / 30)` for a distance d
      in [60, 90) given by its square d2, computed exactly on integers:
      with a = the result, 2a + 1019 <= 17 d < 2a + 1021. */
  function FeatherAlpha(d2: int): (a: Byte)
    requires 3600 <= d2 < 8100
    ensures Square(2 * a + 1019) <= 289 * d2 < Square(2 * a + 1021)
  {
    SquareIsProduct(1019);
    FeatherFrom(d2, 0)
  }

  /** The search behind `FeatherAlpha`, upwards from a candidate known not to
      be too large. */
  function FeatherFrom(d2: int, a: Byte): (r: Byte)
    requires 3600 <= d2 < 8100
    requires Square(2 * a + 1019) <= 289 * d2
    ensures Square(2 * r + 1019) <= 289 * d2 < Square(2 * r + 1021)
    decreases 255 - a
  {
    if 289 * d2 < Square(2 * a + 1021) then a
    else
      assert a < 255 by {
        SquareIsProduct(2 * a + 1021);
        assert a == 255 ==> Square(2 * a + 1021) == 2343961;
      }
      FeatherFrom(d2, a + 1)
  }

  /** For non-negative reals, comparing squares compares the values. */
  lemma SquareMonotone(x: real, y: real)
    requires x >= 0.0 && y >= 0.0
    ensures x < y <==> x * x < y * y
  {
    assert y * y - x * x == (y - x) * (y + x);
    if x < y {
      PositiveProduct(y - x, y + x);
    } else {
      assert (x - y) * (y + x) >= 0.0;
    }
  }

  lemma PositiveProduct(a: real, b: real)
    requires a > 0.0 && b > 0.0
    ensures a * b > 0.0
  {
  }

  /** Squaring commutes with the embedding of integers into reals. */
  lemma SquareAsReal(x: int)
    ensures (x as real) * (x as real) == Square(x) as real
  {
    SquareIsProduct(x);
  }

  /** Comparing a natural number n with 17 d, where d is the non-negative
      root of d2, by their squares. */
  lemma RootBracket(n: nat, d: real, d2: int)
    requires d >= 0.0 && d * d == d2 as real
    ensures Square(n) <= 289 * d2 ==> n as real <= 17.0 * d
    ensures 289 * d2 < Square(n) ==> 17.0 * d < n as real
  {
    var e := 17.0 * d;
    assert e * e == (289 * d2) as real;
    SquareAsReal(n);
    SquareMonotone(e, n as real);
  }

  /** A ramp value bracketed as 2a + 1019 <= 17 d < 2a + 1021 rounds to a. */
  lemma RoundedRampFromBracket(a: int, d: real)
    requires (2 * a + 1019) as real <= 17.0 * d < (2 * a + 1021) as real
    ensures Round(255.0 * (d - 60.0) / 30.0) == a
  {
    assert 255.0 * (d - 60.0) / 30.0 == (17.0 * d - 1020.0) / 2.0;
  }

  /** The integer feather equals the source's real formula: for the true
      distance d (d >= 0, d * d == d2), it is Math.round(255 * (d - 60) / 30). */
  lemma FeatherAlphaIsRoundedRamp(d2: int, d: real)
    requires 3600 <= d2 < 8100
    requires d >= 0.0 && d * d == d2 as real
    ensures FeatherAlpha(d2) == Round(255.0 * (d - 60.0) / 30.0)
  {
    var a: int := FeatherAlpha(d2);
    RootBracket(2 * a + 1019, d, d2);
    RootBracket(2 * a + 1021, d, d2);
    RoundedRampFromBracket(a, d);
  }

  /** Larger distances never feather to a smaller alpha. */
  lemma FeatherAlphaMonotone(d2: int, e2: int)
    requires 3600 <= d2 <= e2 < 8100
    ensures FeatherAlpha(d2) <= FeatherAlpha(e2)
  {
    var a: int, b: int := FeatherAlpha(d2), FeatherAlpha(e2);
    if b < a {
      SquareNonDecreasing(2 * b + 1021, 2 * a + 1019);
    }
  }

  function MinByte(a: Byte, b: Byte): Byte { if a <= b then a else b }

  /** The new alpha of one pixel: 0 within the threshold, the feather (if
      lower) in the band, unchanged beyond it or without a background. It
      never exceeds the old alpha. */
  function KeyedAlpha(r: Byte, g: Byte, b: Byte, alpha: Byte, bg: Option<Rgb>): (a: Byte)
    ensures a <= alpha
  {
    if bg.None? then alpha else AlphaForDistance2(Distance2(r, g, b, bg.value), alpha)
  }

  /** The alpha rule on the squared distance d2 to the background colour. */
  function AlphaForDistance2(d2: nat, alpha: Byte): (a: Byte)
    ensures a <= alpha
  {
    if d2 < Threshold * Threshold then 0
    else if d2 < (Threshold + EdgeFade) * (Threshold + EdgeFade) then MinByte(alpha, FeatherAlpha(d2))
    else alpha
  }

  /** The alpha rule in the source's own terms, for the true distance d to
      the background colour: below 60 transparent, in [60, 90) the rounded
      ramp capped by the old alpha, from 90 on unchanged. */
  lemma KeyedAlphaByDistance(r: Byte, g: Byte, b: Byte, alpha: Byte, bg: Rgb, d: real)
    requires d >= 0.0 && d * d == Distance2(r, g, b, bg) as real
    ensures d < 60.0 ==> KeyedAlpha(r, g, b, alpha, Some(bg)) == 0
    ensures 60.0 <= d < 90.0 ==>
              var ramp := Round(255.0 * (d - 60.0) / 30.0);
              KeyedAlpha(r, g, b, alpha, Some(bg)) == if alpha <= ramp then alpha else ramp
    ensures d >= 90.0 ==> KeyedAlpha(r, g, b, alpha, Some(bg)) == alpha
  {
    AlphaByDistance(Distance2(r, g, b, bg), alpha, d);
  }

  /** The same rule for any squared distance d2 and its root d. */
  lemma AlphaByDistance(d2: nat, alpha: Byte, d: real)
    requires d >= 0.0 && d * d == d2 as real
    ensures d < 60.0 ==> AlphaForDistance2(d2, alpha) == 0
    ensures 60.0 <= d < 90.0 ==>
              var ramp := Round(255.0 * (d - 60.0) / 30.0);
              AlphaForDistance2(d2, alpha) == if alpha <= ramp then alpha else ramp
    ensures d >= 90.0 ==> AlphaForDistance2(d2, alpha) == alpha
  {
    if d < 60.0 {
      SquareMonotone(d, 60.0);
      assert d2 < Threshold * Threshold;
    } else if d < 90.0 {
      SquareMonotone(d, 60.0);
      SquareMonotone(d, 90.0);
      assert Threshold * Threshold <= d2 < (Threshold + EdgeFade) * (Threshold + EdgeFade);
      FeatherAlphaIsRoundedRamp(d2, d);
    } else {
      SquareMonotone(d, 90.0);
      assert d2 >= (Threshold + EdgeFade) * (Threshold + EdgeFade);
    }
  }

  /** The byte at offset k after keying: alpha bytes (offset 3 of a pixel)
      get `KeyedAlpha`, colour bytes stay. */
  function KeyedByte(s: seq<Byte>, bg: Option<Rgb>, k: int): (b: Byte)
    requires |s| % 4 == 0 && 0 <= k < |s|
    ensures k % 4 != 3 ==> b == s[k]
    ensures b <= s[k]
  {
    if k % 4 == 3 then KeyedAlpha(s[k - 3], s[k - 2], s[k - 1], s[k], bg) else s[k]
  }

  /** The whole buffer after keying against `bg`: same length, colour bytes
      untouched, no alpha raised. */
  function KeyAll(s: seq<Byte>, bg: Option<Rgb>): (t: seq<Byte>)
    requires |s| % 4 == 0
    ensures |t| == |s|
    ensures forall k | 0 <= k < |s| && k % 4 != 3 :: t[k] == s[k]
    ensures forall k | 0 <= k < |s| :: t[k] <= s[k]
  {
    seq(|s|, k requires 0 <= k < |s| => KeyedByte(s, bg, k))
  }

  /** The name of the error `getImageData` raises for a side of 0. */
  const IndexSizeError: string := "IndexSizeError"

  /** What `removeBackground` makes of a w x h RGBA buffer: reading the
      pixels of a canvas with a side of 0 throws; otherwise the keyed
      buffer, as long as the input. */
  function StripBackground(s: seq<Byte>, w: nat, h: nat): (r: Result<seq<Byte>>)
    requires |s| == 4 * (w * h)
    ensures r.Failure? <==> w == 0 || h == 0
    ensures r.Failure? ==> r.error == IndexSizeError
    ensures r.Success? ==> |r.value| == |s|
  {
    if w == 0 || h == 0 then Failure(IndexSizeError)
    else
      assert |s| % 4 == 0 by { assert |s| == 4 * (w * h); }
      Success(KeyAll(s, BackgroundColour(CornerSums(s, SamplePositions(w, h)))))
  }

  /** The four byte offsets of the pixel starting at i. */
  lemma PixelOffsets(i: int)
    requires i % 4 == 0
    ensures (i + 1) % 4 == 1 && (i + 2) % 4 == 2 && (i + 3) % 4 == 3 && (i + 4) % 4 == 0
  {
  }

  /** `removeBackground` on the image data of a w x h canvas: throw (`ok`
      false) when a side is 0; otherwise sample the corners, then walk the
      pixels and lower alpha bytes in place. */
  method RemoveBackground(data: array<Byte>, w: nat, h: nat) returns (ok: bool)
    requires data.Length == 4 * (w * h)
    modifies data
    ensures ok <==> StripBackground(old(data[..]), w, h).Success?
    ensures ok ==> data[..] == StripBackground(old(data[..]), w, h).value
    ensures !ok ==> data[..] == old(data[..])
  {
    if w == 0 || h == 0 {
      return false;
    }
    ok := true;
    FourfoldLength(data.Length, w * h);
    ghost var s := data[..];
    var acc := SampleCorners(data, w, h);
    var bg := BackgroundColour(acc);
    KeyPixels(data, bg);
    assert StripBackground(s, w, h) == Success(KeyAll(s, bg));
  }

  /** The pixel loop of `removeBackground`: walk the buffer a pixel at a
      time and re-key each alpha byte against `bg`, in place. */
  method KeyPixels(data: array<Byte>, bg: Option<Rgb>)
    requires data.Length % 4 == 0
    modifies data
    ensures data[..] == KeyAll(old(data[..]), bg)
  {
    ghost var s := data[..];
    var i := 0;
    while i < data.Length
      invariant 0 <= i <= data.Length && i % 4 == 0
      invariant forall k | 0 <= k < i :: data[k] == KeyedByte(s, bg, k)
      invariant forall k | i <= k < data.Length :: data[k] == s[k]
      decreases data.Length - i
    {
      NextPixelFits(i, data.Length);
      ghost var before := data[..];
      KeyPixel(data, i, bg);
      KeyStep(s, bg, i, before, data[..]);
      i := i + 4;
    }
    assert data[..] == KeyAll(s, bg);
  }

  /** One round of the pixel loop keeps its invariant: the keyed prefix
      grows by the pixel at i, and the rest is still the input. */
  lemma KeyStep(s: seq<Byte>, bg: Option<Rgb>, i: int, before: seq<Byte>, after: seq<Byte>)
    requires |s| % 4 == 0 && |before| == |s| && |after| == |s|
    requires 0 <= i && i + 4 <= |s| && i % 4 == 0
    requires forall k | 0 <= k < i :: before[k] == KeyedByte(s, bg, k)
    requires forall k | i <= k < |s| :: before[k] == s[k]
    requires after[i + 3] == KeyedAlpha(before[i], before[i + 1], before[i + 2], before[i + 3], bg)
    requires forall k | 0 <= k < |s| && k != i + 3 :: after[k] == before[k]
    ensures forall k | 0 <= k < i + 4 :: after[k] == KeyedByte(s, bg, k)
    ensures forall k | i + 4 <= k < |s| :: after[k] == s[k]
  {
    KeyedPixel(s, bg, i);
    assert after[i] == KeyedByte(s, bg, i) && after[i + 1] == KeyedByte(s, bg, i + 1);
    assert after[i + 2] == KeyedByte(s, bg, i + 2) && after[i + 3] == KeyedByte(s, bg, i + 3);
  }

  /** One pass of the pixel loop: re-key the alpha byte of the pixel at
      offset i against `bg`, leaving every other byte as it was. */
  method KeyPixel(data: array<Byte>, i: int, bg: Option<Rgb>)
    requires 0 <= i && i + 4 <= data.Length
    modifies data
    ensures data[i + 3] == KeyedAlpha(old(data[i]), old(data[i + 1]), old(data[i + 2]), old(data[i + 3]), bg)
    ensures forall k | 0 <= k < data.Length && k != i + 3 :: data[k] == old(data[k])
  {
    if bg.Some? {
      var d2 := Distance2(data[i], data[i + 1], data[i + 2], bg.value);
      if d2 < Threshold * Threshold {
        data[i + 3] := 0;
      } else if d2 < (Threshold + EdgeFade) * (Threshold + EdgeFade) {
        data[i + 3] := MinByte(data[i + 3], FeatherAlpha(d2));
      }
    }
  }

  /** Keying the pixel at offset i keeps its colour bytes and re-keys its alpha byte. */
  lemma KeyedPixel(s: seq<Byte>, bg: Option<Rgb>, i: int)
    requires |s| % 4 == 0 && 0 <= i && i + 4 <= |s| && i % 4 == 0
    ensures KeyedByte(s, bg, i) == s[i]
    ensures KeyedByte(s, bg, i + 1) == s[i + 1]
    ensures KeyedByte(s, bg, i + 2) == s[i + 2]
    ensures KeyedByte(s, bg, i + 3) == KeyedAlpha(s[i], s[i + 1], s[i + 2], s[i + 3], bg)
  {
    PixelOffsets(i);
  }

  /** A pixel offset below a whole number of pixels leaves room for the pixel. */
  lemma NextPixelFits(i: int, len: int)
    requires 0 <= i < len && i % 4 == 0 && len % 4 == 0
    ensures i + 4 <= len && (i + 4) % 4 == 0
  {
  }

  /** Every colour byte of a solid-colour buffer equals the colour. */
  predicate SolidColour(s: seq<Byte>, c: Rgb) {
    forall k | 0 <= k < |s| ::
      && (k % 4 == 0 ==> s[k] == c.r)
      && (k % 4 == 1 ==> s[k] == c.g)
      && (k % 4 == 2 ==> s[k] == c.b)
  }

  /** An image of one solid colour, identical to its own corner samples,
      becomes fully transparent. */
  lemma SolidColourBecomesTransparent(s: seq<Byte>, w: nat, h: nat, c: Rgb)
    requires w >= 1 && h >= 1 && |s| == 4 * (w * h)
    requires SolidColour(s, c)
    ensures var r := StripBackground(s, w, h);
            r.Success? && forall k | 0 <= k < |r.value| && k % 4 == 3 :: r.value[k] == 0
  {
    SolidBackground(s, w, h, c);
    FourfoldLength(|s|, w * h);
    assert StripBackground(s, w, h) == Success(KeyAll(s, Some(c)));
    SolidKeysTransparent(s, c);
  }

  /** A length of four times a count is a whole number of pixels. */
  lemma FourfoldLength(len: int, n: int)
    requires len == 4 * n
    ensures len % 4 == 0
  {
  }

  /** Keying a solid image against its own colour clears every alpha byte. */
  lemma SolidKeysTransparent(s: seq<Byte>, c: Rgb)
    requires |s| % 4 == 0 && SolidColour(s, c)
    ensures var t := KeyAll(s, Some(c));
            forall k | 0 <= k < |t| && k % 4 == 3 :: t[k] == 0
  {
    var t := KeyAll(s, Some(c));
    forall k | 0 <= k < |t| && k % 4 == 3
      ensures t[k] == 0
    {
      SolidPixelTransparent(s, c, k);
    }
  }

  /** The corners of a solid image all have its colour, and so does their mean. */
  lemma SolidBackground(s: seq<Byte>, w: nat, h: nat, c: Rgb)
    requires w >= 1 && h >= 1 && |s| == 4 * (w * h)
    requires SolidColour(s, c)
    ensures BackgroundColour(CornerSums(s, SamplePositions(w, h))) == Some(c)
  {
    var ps := SamplePositions(w, h);
    BackgroundIsCornerMean(s, w, h);
    SolidPixel(s, c, ps[0]);
    SolidPixel(s, c, ps[1]);
    SolidPixel(s, c, ps[2]);
    SolidPixel(s, c, ps[3]);
    MeanOfSame(c);
  }

  /** Every whole pixel of a solid image has its colour. */
  lemma SolidPixel(s: seq<Byte>, c: Rgb, p: int)
    requires 0 <= p && p % 4 == 0 && p + 4 <= |s|
    requires SolidColour(s, c)
    ensures PixelColour(s, p) == c
  {
    PixelOffsets(p);
  }

  /** The rounded mean of four equal colours is that colour. */
  lemma MeanOfSame(c: Rgb)
    ensures MeanOfFour(c, c, c, c) == c
  {
    assert (c.r + c.r + c.r + c.r + 2) / 4 == c.r;
    assert (c.g + c.g + c.g + c.g + 2) / 4 == c.g;
    assert (c.b + c.b + c.b + c.b + 2) / 4 == c.b;
  }

  /** Against its own colour, each pixel of a solid image keys to alpha 0. */
  lemma SolidPixelTransparent(s: seq<Byte>, c: Rgb, k: int)
    requires |s| % 4 == 0 && 0 <= k < |s| && k % 4 == 3
    requires SolidColour(s, c)
    ensures KeyedByte(s, Some(c), k) == 0
  {
    AlphaOffsets(k);
    assert Distance2(s[k - 3], s[k - 2], s[k - 1], c) == 0;
  }

  /** The colour bytes of the pixel whose alpha byte is at k. */
  lemma AlphaOffsets(k: int)
    requires k % 4 == 3
    ensures (k - 3) % 4 == 0 && (k - 2) % 4 == 1 && (k - 1) % 4 == 2
  {
  }

  /** With a background colour, a pixel whose squared distance is at least
      90 * 90 keeps its alpha: a subject clearly unlike the background stays
      opaque. */
  lemma ForegroundKeepsAlpha(s: seq<Byte>, w: nat, h: nat, k: nat)
    requires |s| == 4 * (w * h) && k < |s| && k % 4 == 3
    requires var bg := BackgroundColour(CornerSums(s, SamplePositions(w, h)));
             bg.Some? && Distance2(s[k - 3], s[k - 2], s[k - 1], bg.value) >= 8100
    ensures var r := StripBackground(s, w, h);
            r.Success? && r.value[k] == s[k]
  {
    PositiveArea(w, h);
    FourfoldLength(|s|, w * h);
    var bg := BackgroundColour(CornerSums(s, SamplePositions(w, h)));
    assert StripBackground(s, w, h) == Success(KeyAll(s, bg));
  }

  /** A buffer of 4 * (w * h) bytes that is not empty has two positive sides. */
  lemma PositiveArea(w: nat, h: nat)
    requires w * h > 0
    ensures w >= 1 && h >= 1
  {
  }
}
