/** enhance: brightness, contrast and saturation applied to every pixel of a copy
    of the image, each colour clamped to [0, 255]; then, when sharpness > 0, the
    result goes through fastSharpen. */
module Enhance {
  import opened Bytes
  import opened Raster
  import Scan
  import opened Sharpen

  /** Three channel values before they are clamped and stored. */
  datatype Rgb = Rgb(r: real, g: real, b: real)

  /** 259 (contrast + 255) / (255 (259 - contrast)), the usual contrast curve: 1 at
      contrast 0, and positive exactly for contrast in (-255, 259). */
  function ContrastFactor(contrast: int): (cf: real)
    requires contrast != 259
    ensures contrast == 0 ==> cf == 1.0
    ensures cf > 0.0 <==> -255 < contrast < 259
  {
    var num, den := (259 * (contrast + 255)) as real, (255 * (259 - contrast)) as real;
    assert num / den > 0.0 <==> -255 < contrast < 259 by {
      if den > 0.0 {
        QuotientSign(num, den);
      } else {
        assert num / den == (-num) / (-den);
        QuotientSign(-num, -den);
      }
    }
    num / den
  }

  /** A quotient by a positive real has the sign of its numerator. */
  lemma QuotientSign(num: real, den: real)
    requires den > 0.0
    ensures num / den > 0.0 <==> num > 0.0
  {
    if num / den > 0.0 {
      assert num == (num / den) * den;
    }
  }

  /** One channel after brightness, then contrast around 128. */
  function Contrasted(v: Byte, brightness: int, cf: real): real
  {
    cf * ((v + brightness) as real - 128.0) + 128.0
  }

  /** Push a channel away from the luma gray by satFactor. */
  function Saturate(gray: real, c: real, satFactor: real): real
  {
    gray + satFactor * (c - gray)
  }

  /** The three channels after brightness, contrast and (when saturation is not 0)
      saturation, before clamping. */
  function Adjusted(col: Color, brightness: int, contrast: int, saturation: int): Rgb
    requires contrast != 259
  {
    var cf := ContrastFactor(contrast);
    var r, g, b := Contrasted(col.r, brightness, cf), Contrasted(col.g, brightness, cf), Contrasted(col.b, brightness, cf);
    if saturation != 0 then
      var satFactor := 1.0 + saturation as real / 100.0;
      var gray := 0.299 * r + 0.587 * g + 0.114 * b;
      Rgb(Saturate(gray, r, satFactor), Saturate(gray, g, satFactor), Saturate(gray, b, satFactor))
    else Rgb(r, g, b)
  }

  /** The stored colour: each channel clamped by Math.max/Math.min, then stored.
      All three settings at 0 keep the colour. */
  function EnhanceColor(col: Color, brightness: int, contrast: int, saturation: int): (c: Color)
    requires contrast != 259
    ensures brightness == 0 && contrast == 0 && saturation == 0 ==> c == col
  {
    ToUint8ClampOfByte(col.r);
    ToUint8ClampOfByte(col.g);
    ToUint8ClampOfByte(col.b);
    var a := Adjusted(col, brightness, contrast, saturation);
    Color(ToUint8Clamp(Clamp255(a.r)), ToUint8Clamp(Clamp255(a.g)), ToUint8Clamp(Clamp255(a.b)))
  }

  /** The colour map of the per-pixel loop of enhance. */
  function Enhancer(brightness: int, contrast: int, saturation: int): Color -> Color
    requires contrast != 259
  {
    c => EnhanceColor(c, brightness, contrast, saturation)
  }

  /** The buffer after the per-pixel loop of enhance. */
  function EnhancedPixels(s: seq<Byte>, brightness: int, contrast: int, saturation: int): (r: seq<Byte>)
    requires |s| % 4 == 0 && contrast != 259
    ensures |r| == |s|
  {
    MapColors(s, Enhancer(brightness, contrast, saturation))
  }

  /** The image enhance returns. */
  function Enhanced(img: Image, brightness: int, contrast: int, saturation: int, sharpness: int): (r: Image)
    requires img.Valid() && contrast != 259
    ensures r.Valid() && r.width == img.width && r.height == img.height
  {
    ValidWholePixels(img);
    var adjusted := Image(img.width, img.height, EnhancedPixels(img.data, brightness, contrast, saturation));
    if sharpness > 0 then Sharpened(adjusted, sharpness) else adjusted
  }

  /** enhance: copy the buffer; for i = 0, 4, 8, ... read r, g, b, apply
      brightness, contrast and saturation, store the clamped channels; then sharpen
      when sharpness > 0. */
  method EnhanceImage(img: Image, brightness: int, contrast: int, saturation: int, sharpness: int)
    returns (out: Image)
    requires img.Valid() && contrast != 259
    ensures out.Valid()
    ensures out == Enhanced(img, brightness, contrast, saturation, sharpness)
  {
    ValidWholePixels(img);
    var s := img.data;
    var data := new Byte[|s|](i requires 0 <= i < |s| => s[i]);
    assert data[..] == s;
    Scan.MapColorsInPlace(data, Enhancer(brightness, contrast, saturation));
    out := Image(img.width, img.height, data[..]);
    if sharpness > 0 {
      out := FastSharpen(out, sharpness);
    }
  }

  /** With brightness, contrast and saturation 0 the contrast factor is exactly 1
      and the saturation branch is skipped: every colour is kept. */
  lemma EnhanceColorNeutral(col: Color)
    ensures EnhanceColor(col, 0, 0, 0) == col
  {
    assert ContrastFactor(0) == 1.0;
    ToUint8ClampOfByte(col.r);
    ToUint8ClampOfByte(col.g);
    ToUint8ClampOfByte(col.b);
  }

  /** All four settings at 0 give back the input image. */
  lemma EnhanceNeutral(img: Image)
    requires img.Valid()
    ensures Enhanced(img, 0, 0, 0, 0) == img
  {
    ValidWholePixels(img);
    var s := img.data;
    var f := Enhancer(0, 0, 0);
    forall i | 0 <= i < |s| ensures MapColors(s, f)[i] == s[i] {
      if Chan(i) < 3 { EnhanceColorNeutral(PixelAt(s, i / 4)); }
      MapColorsFixes(s, f, i);
    }
    assert EnhancedPixels(s, 0, 0, 0) == s;
  }

  /** v clamped to [0, 255]. */
  function ClampByte(v: int): Byte
  {
    if v < 0 then 0 else if v > 255 then 255 else v
  }

  /** Storing a whole number through Math.max/Math.min and the clamped store
      clamps it to [0, 255]. */
  lemma StoreInt(v: int)
    ensures ToUint8Clamp(Clamp255(v as real)) == ClampByte(v)
  {
    if 0 <= v <= 255 {
      ToUint8ClampOfByte(v);
    }
  }

  /** Contrast 0 has factor exactly 1, and saturation 0 skips the luma step: only
      the brightness offset remains. */
  lemma AdjustedBrightnessOnly(col: Color, brightness: int)
    ensures Adjusted(col, brightness, 0, 0) ==
            Rgb((col.r + brightness) as real, (col.g + brightness) as real, (col.b + brightness) as real)
  {
    assert ContrastFactor(0) == 1.0;
  }

  /** With only brightness set, each colour channel becomes v + brightness clamped
      to [0, 255]. */
  lemma EnhanceColorBrightness(col: Color, brightness: int)
    ensures EnhanceColor(col, brightness, 0, 0) ==
            Color(ClampByte(col.r + brightness), ClampByte(col.g + brightness), ClampByte(col.b + brightness))
  {
    AdjustedBrightnessOnly(col, brightness);
    StoreInt(col.r + brightness);
    StoreInt(col.g + brightness);
    StoreInt(col.b + brightness);
  }

  /** Every alpha byte of the input survives enhance, with or without sharpening. */
  lemma EnhanceKeepsAlpha(img: Image, brightness: int, contrast: int, saturation: int, sharpness: int, i: int)
    requires img.Valid() && contrast != 259 && 0 <= i < |img.data| && Chan(i) == 3
    ensures |Enhanced(img, brightness, contrast, saturation, sharpness).data| == |img.data|
    ensures Enhanced(img, brightness, contrast, saturation, sharpness).data[i] == img.data[i]
  {
    ValidWholePixels(img);
    var adjusted := Image(img.width, img.height, EnhancedPixels(img.data, brightness, contrast, saturation));
    if sharpness > 0 {
      SharpenKeepsBorder(adjusted, sharpness);
    }
  }

  /** For contrast in (-255, 259) the contrast factor is positive. */
  lemma ContrastFactorPositive(contrast: int)
    requires -255 < contrast < 259
    ensures ContrastFactor(contrast) > 0.0
  {
    var num, den := (259 * (contrast + 255)) as real, (255 * (259 - contrast)) as real;
    assert num > 0.0 && den > 0.0;
  }

  lemma ScaleMonotone(cf: real, x: real, y: real)
    requires cf > 0.0 && x <= y
    ensures cf * x <= cf * y
  {
    assert cf * y - cf * x == cf * (y - x);
  }

  /** Without saturation, and with contrast in (-255, 259), enhance preserves the
      order of byte values within a channel: a brighter input is never stored darker. */
  lemma EnhanceChannelMonotone(col: Color, col': Color, brightness: int, contrast: int)
    requires -255 < contrast < 259 && col.r <= col'.r
    ensures EnhanceColor(col, brightness, contrast, 0).r <= EnhanceColor(col', brightness, contrast, 0).r
  {
    var cf := ContrastFactor(contrast);
    ContrastFactorPositive(contrast);
    var x, y := Contrasted(col.r, brightness, cf), Contrasted(col'.r, brightness, cf);
    assert x <= y by {
      ScaleMonotone(cf, (col.r + brightness) as real - 128.0, (col'.r + brightness) as real - 128.0);
    }
    Clamp255Monotone(x, y);
    ToUint8ClampMonotone(Clamp255(x), Clamp255(y));
    assert Adjusted(col, brightness, contrast, 0).r == x;
    assert Adjusted(col', brightness, contrast, 0).r == y;
  }
}
