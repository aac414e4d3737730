/** The point filters of the cartoon pipeline, which rewrite the caller's buffer in
    place one pixel at a time: fastColorQuantization (snap each colour byte to one
    of `levels` evenly spaced values) and fastSaturationBoost (push each colour
    byte away from the pixel's luma by a factor). */
module PointFilters {
  import opened Bytes
  import opened Raster
  import Scan

  // ---- fastColorQuantization ----

  /** step = 255 / (levels - 1), the distance between two output levels. */
  function Step(levels: int): real
    requires levels >= 2
  {
    255.0 / (levels - 1) as real
  }

  /** invStep = 1 / step. */
  function InvStep(levels: int): real
    requires levels >= 2
  {
    1.0 / Step(levels)
  }

  /** The index of the level that byte v snaps to: Math.round(v * invStep). */
  function QuantLevel(v: Byte, levels: int): int
    requires levels >= 2
  {
    MathRound(v as real * InvStep(levels))
  }

  /** The byte stored for level index k: k * step, through the clamped store. */
  function LevelValue(k: int, levels: int): Byte
    requires levels >= 2
  {
    ToUint8Clamp(k as real * Step(levels))
  }

  /** One quantized byte: Math.round(v * invStep) * step, through the clamped store.
      Black and white are the ends of the ladder and are kept at every level count. */
  function Quantize(v: Byte, levels: int): (q: Byte)
    requires levels >= 2
    ensures v == 0 ==> q == 0
    ensures v == 255 ==> q == 255
  {
    assert v == 255 ==> QuantLevel(v, levels) == levels - 1 by {
      if v == 255 {
        StepInverse(levels);
        assert 255.0 * InvStep(levels) == (levels - 1) as real;
        RoundNear(255.0 * InvStep(levels), levels - 1);
      }
    }
    assert (levels - 1) as real * Step(levels) == 255.0;
    ToUint8ClampOfByte(0);
    ToUint8ClampOfByte(255);
    LevelValue(QuantLevel(v, levels), levels)
  }

  function QuantizeColor(col: Color, levels: int): Color
    requires levels >= 2
  {
    Color(Quantize(col.r, levels), Quantize(col.g, levels), Quantize(col.b, levels))
  }

  /** The colour map of fastColorQuantization. */
  function Quantizer(levels: int): Color -> Color
    requires levels >= 2
  {
    c => QuantizeColor(c, levels)
  }

  /** The buffer fastColorQuantization leaves behind. */
  function Quantized(s: seq<Byte>, levels: int): (r: seq<Byte>)
    requires |s| % 4 == 0 && levels >= 2
    ensures |r| == |s|
  {
    MapColors(s, Quantizer(levels))
  }

  /** fastColorQuantization: for i = 0, 4, 8, ... snap bytes i, i+1, i+2 in place. */
  method FastColorQuantization(data: array<Byte>, levels: int)
    requires data.Length % 4 == 0 && levels >= 2
    modifies data
    ensures data[..] == Quantized(old(data[..]), levels)
  {
    Scan.MapColorsInPlace(data, Quantizer(levels));
  }

  lemma StepInverse(levels: int)
    requires levels >= 2
    ensures Step(levels) > 0.0 && InvStep(levels) == (levels - 1) as real / 255.0
    ensures Step(levels) * InvStep(levels) == 1.0
  {
    var m := (levels - 1) as real;
    assert Step(levels) * (m / 255.0) == 1.0;
  }

  /** Every byte snaps to a level index k in [0, levels), so the output is one of
      the `levels` values LevelValue(k). */
  lemma QuantizeLevels(v: Byte, levels: int)
    requires levels >= 2
    ensures 0 <= QuantLevel(v, levels) < levels
  {
    StepInverse(levels);
    var m := (levels - 1) as real;
    var x := v as real * InvStep(levels);
    assert x == v as real * m / 255.0;
    assert (255.0 - v as real) * m >= 0.0;
    assert 0.0 <= x <= m;
  }

  /** Level k of the ladder lies inside [0, 255]: k * step <= (levels - 1) * step = 255. */
  lemma LevelInRange(k: int, levels: int)
    requires levels >= 2 && 0 <= k < levels
    ensures 0.0 <= k as real * Step(levels) <= 255.0
  {
    var m := (levels - 1) as real;
    assert m * Step(levels) == 255.0;
    assert (m - k as real) * Step(levels) >= 0.0;
  }

  /** A byte within 0.5 of level k * step maps back to level k, as long as
      levels <= 255 (so that 0.5 * invStep < 0.5). */
  lemma LevelRoundTrip(q: Byte, k: int, levels: int)
    requires 2 <= levels <= 255 && 0 <= k < levels
    requires -0.5 <= q as real - k as real * Step(levels) <= 0.5
    ensures QuantLevel(q, levels) == k
  {
    StepInverse(levels);
    var step, inv := Step(levels), InvStep(levels);
    var d := q as real - k as real * step;
    assert q as real * inv == k as real + d * inv by {
      assert q as real * inv == (k as real * step + d) * inv;
      assert k as real * step * inv == k as real * (step * inv);
    }
    assert 0.0 < inv < 1.0;
    if d >= 0.0 {
      assert d * inv <= d * 1.0;
      assert d * inv < 0.5 || d < 0.5;
    } else {
      assert d * inv >= d * 1.0;
    }
    assert -0.5 < d * inv < 0.5;
    RoundNear(q as real * inv, k);
  }

  /** Quantizing twice with the same levels (2 to 255) is the same as quantizing once:
      a stored level is within 0.5 of k * step, which maps back to within
      0.5 * (levels-1)/255 < 0.5 of k, so it rounds to the same level. */
  lemma QuantizeIdempotent(v: Byte, levels: int)
    requires 2 <= levels <= 255
    ensures Quantize(Quantize(v, levels), levels) == Quantize(v, levels)
  {
    var k := QuantLevel(v, levels);
    var q := Quantize(v, levels);
    QuantizeLevels(v, levels);
    StoredLevelNear(k, levels);
    LevelRoundTrip(q, k, levels);
  }

  /** The stored byte of level k is within 0.5 of k * step. */
  lemma StoredLevelNear(k: int, levels: int)
    requires levels >= 2 && 0 <= k < levels
    ensures -0.5 <= LevelValue(k, levels) as real - k as real * Step(levels) <= 0.5
  {
    LevelInRange(k, levels);
  }

  /** A real strictly within 0.5 of the whole number k rounds to k. */
  lemma RoundNear(x: real, k: int)
    requires k as real - 0.5 < x < k as real + 0.5
    ensures MathRound(x) == k
  {}

  /** A quantized colour is its own quantization. */
  lemma QuantizeColorIdempotent(col: Color, levels: int)
    requires 2 <= levels <= 255
    ensures QuantizeColor(QuantizeColor(col, levels), levels) == QuantizeColor(col, levels)
  {
    QuantizeIdempotent(col.r, levels);
    QuantizeIdempotent(col.g, levels);
    QuantizeIdempotent(col.b, levels);
  }

  /** Quantizing keeps every alpha byte, and quantizing a quantized buffer again
      changes nothing. */
  lemma QuantizedIdempotent(s: seq<Byte>, levels: int)
    requires |s| % 4 == 0 && 2 <= levels <= 255
    ensures Quantized(Quantized(s, levels), levels) == Quantized(s, levels)
  {
    var t := Quantized(s, levels);
    var f := Quantizer(levels);
    forall i | 0 <= i < |t| ensures MapColors(t, f)[i] == t[i] {
      if Chan(i) < 3 {
        var p := i / 4;
        MapColorsPixel(s, f, 4 * p);
        assert PixelAt(t, p) == f(PixelAt(s, p));
        QuantizeColorIdempotent(PixelAt(s, p), levels);
      }
      MapColorsFixes(t, f, i);
    }
  }

  // ---- fastSaturationBoost ----

  /** The luma 0.299 r + 0.587 g + 0.114 b. */
  function Gray(col: Color): real
  {
    0.299 * col.r as real + 0.587 * col.g as real + 0.114 * col.b as real
  }

  /** gray + factor * (c - gray), clamped, through the clamped store. */
  function SatChannel(gray: real, c: Byte, factor: real): Byte
  {
    ToUint8Clamp(Clamp255(gray + factor * (c as real - gray)))
  }

  /** The boosted colour: each channel pushed away from the luma by factor. A grey
      pixel (r = g = b) and the factor 1 leave the colour as it was. */
  function SaturateColor(col: Color, factor: real): (c: Color)
    ensures col.r == col.g == col.b ==> c == col
    ensures factor == 1.0 ==> c == col
  {
    GreyLuma(col);
    SatChannelKept(Gray(col), col.r, factor);
    SatChannelKept(Gray(col), col.g, factor);
    SatChannelKept(Gray(col), col.b, factor);
    var gray := Gray(col);
    Color(SatChannel(gray, col.r, factor), SatChannel(gray, col.g, factor), SatChannel(gray, col.b, factor))
  }

  /** The luma of a grey pixel is its level: the weights sum to 1. */
  lemma GreyLuma(col: Color)
    ensures col.r == col.g == col.b ==> Gray(col) == col.r as real
  {}

  /** A channel already at the luma, or a factor of 1, is stored unchanged. */
  lemma SatChannelKept(gray: real, c: Byte, factor: real)
    ensures gray == c as real || factor == 1.0 ==> SatChannel(gray, c, factor) == c
  {
    ToUint8ClampOfByte(c);
  }

  /** The colour map of fastSaturationBoost. */
  function Saturator(factor: real): Color -> Color
  {
    c => SaturateColor(c, factor)
  }

  /** The buffer fastSaturationBoost leaves behind. */
  function Saturated(s: seq<Byte>, factor: real): (r: seq<Byte>)
    requires |s| % 4 == 0
    ensures |r| == |s|
  {
    MapColors(s, Saturator(factor))
  }

  /** fastSaturationBoost: for i = 0, 4, 8, ... read r, g, b, compute the luma and
      write the three boosted channels back in place. */
  method FastSaturationBoost(data: array<Byte>, factor: real)
    requires data.Length % 4 == 0
    modifies data
    ensures data[..] == Saturated(old(data[..]), factor)
  {
    Scan.MapColorsInPlace(data, Saturator(factor));
  }

  /** A grey pixel (r = g = b) has luma equal to its level and is left as it is,
      whatever the factor. */
  lemma SaturateGrey(v: Byte, factor: real)
    ensures SaturateColor(Color(v, v, v), factor) == Color(v, v, v)
  {
    assert Gray(Color(v, v, v)) == v as real;
    ToUint8ClampOfByte(v);
  }

  /** Factor 1 is the identity on every colour. */
  lemma SaturateOne(col: Color)
    ensures SaturateColor(col, 1.0) == col
  {
    ToUint8ClampOfByte(col.r);
    ToUint8ClampOfByte(col.g);
    ToUint8ClampOfByte(col.b);
  }

  /** With a non-negative factor the boost keeps the order of two channels. */
  lemma SatChannelMonotone(gray: real, c: Byte, d: Byte, factor: real)
    requires factor >= 0.0 && c <= d
    ensures SatChannel(gray, c, factor) <= SatChannel(gray, d, factor)
  {
    assert factor * (c as real - gray) <= factor * (d as real - gray) by {
      assert factor * (d as real - gray) - factor * (c as real - gray) == factor * (d - c) as real;
    }
    Clamp255Monotone(gray + factor * (c as real - gray), gray + factor * (d as real - gray));
    ToUint8ClampMonotone(Clamp255(gray + factor * (c as real - gray)), Clamp255(gray + factor * (d as real - gray)));
  }

  /** Saturating with factor 1 leaves the whole buffer unchanged. */
  lemma SaturatedOne(s: seq<Byte>)
    requires |s| % 4 == 0
    ensures Saturated(s, 1.0) == s
  {
    var f := Saturator(1.0);
    forall i | 0 <= i < |s| ensures MapColors(s, f)[i] == s[i] {
      if Chan(i) < 3 { SaturateOne(PixelAt(s, i / 4)); }
      MapColorsFixes(s, f, i);
    }
  }

  /** A buffer whose every pixel is grey (r = g = b) is left unchanged by the boost,
      whatever the factor. */
  lemma SaturatedGrey(s: seq<Byte>, factor: real)
    requires |s| % 4 == 0
    requires forall p :: 0 <= p < |s| / 4 ==> s[4 * p] == s[4 * p + 1] == s[4 * p + 2]
    ensures Saturated(s, factor) == s
  {
    var f := Saturator(factor);
    forall i | 0 <= i < |s| ensures MapColors(s, f)[i] == s[i] {
      if Chan(i) < 3 {
        var p := i / 4;
        assert PixelAt(s, p) == Color(s[4 * p], s[4 * p + 1], s[4 * p + 2]);
        SaturateGrey(s[4 * p], factor);
      }
      MapColorsFixes(s, f, i);
    }
  }
}
