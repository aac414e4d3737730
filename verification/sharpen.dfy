/** fastSharpen (a simple unsharp mask) and restore (denoise, then sharpen at
    strength 25). Like the blur, the sharpen reads only an untouched copy of its
    input and rewrites the colour bytes of interior pixels. */
module Sharpen {
  import opened Bytes
  import opened Raster
  import Scan
  import opened Denoise

  /** centre + strength/100 * (centre - mean of the 4 cross neighbours), clamped. */
  function SharpenValue(s: seq<Byte>, w: nat, h: nat, strength: int, x: int, y: int, c: int): Byte
    requires |s| == w * h * 4 && Interior(w, h, x, y) && 0 <= c < 3
  {
    Mask(Px(s, w, h, x, y, c), Px(s, w, h, x, y - 1, c), Px(s, w, h, x, y + 1, c),
         Px(s, w, h, x - 1, y, c), Px(s, w, h, x + 1, y, c), strength)
  }

  /** The unsharp mask of one byte given its four cross neighbours. Strength 0,
      or a centre equal to all four neighbours, keeps the centre. */
  function Mask(center: Byte, up: Byte, down: Byte, left: Byte, right: Byte, strength: int): (b: Byte)
    ensures strength == 0 ==> b == center
    ensures up == center && down == center && left == center && right == center ==> b == center
  {
    ToUint8ClampOfByte(center);
    var blur := (up + down + left + right) as real / 4.0;
    var factor := strength as real / 100.0;
    ToUint8Clamp(Clamp255(center as real + factor * (center as real - blur)))
  }

  /** The byte that the filter leaves at offset i: border pixels and alpha bytes
      keep the input byte. */
  function SharpenAt(s: seq<Byte>, w: nat, h: nat, strength: int, i: int): (b: Byte)
    requires |s| == w * h * 4 && 0 <= i < |s|
    ensures !Interior(w, h, Col(w, i), Row(w, i)) || Chan(i) == 3 ==> b == s[i]
  {
    var x, y, c := Col(w, i), Row(w, i), Chan(i);
    if Interior(w, h, x, y) && c < 3 then SharpenValue(s, w, h, strength, x, y, c) else s[i]
  }

  /** The image fastSharpen returns. */
  function Sharpened(img: Image, strength: int): (r: Image)
    requires img.Valid()
    ensures r.Valid() && r.width == img.width && r.height == img.height
  {
    Image(img.width, img.height,
          seq(|img.data|, i requires 0 <= i < |img.data| => SharpenAt(img.data, img.width, img.height, strength, i)))
  }

  /** The byte at channel c of an interior pixel is the unsharp mask of the input's
      centre byte and its four cross neighbours, with factor strength / 100. */
  lemma SharpenAtInterior(s: seq<Byte>, w: nat, h: nat, strength: int, x: int, y: int, c: int)
    requires |s| == w * h * 4 && Interior(w, h, x, y) && 0 <= c < 3
    ensures Idx(w, x, y, c) < |s|
    ensures SharpenAt(s, w, h, strength, Idx(w, x, y, c)) ==
            Mask(Px(s, w, h, x, y, c), Px(s, w, h, x, y - 1, c), Px(s, w, h, x, y + 1, c),
                 Px(s, w, h, x - 1, y, c), Px(s, w, h, x + 1, y, c), strength)
  {
    IdxInRange(w, h, x, y, c);
    IdxCoords(w, x, y, c);
  }

  /** Border pixels and every alpha byte come out unchanged. */
  lemma SharpenKeepsBorder(img: Image, strength: int)
    requires img.Valid()
    ensures Scan.BorderKept(img.data, Sharpened(img, strength).data, img.width, img.height, 1)
  {}

  /** fastSharpen: copy the buffer, then for y in [1, h-1), x in [1, w-1) and each
      colour channel store the sharpened value into the copy, reading only the
      untouched input. */
  method FastSharpen(img: Image, strength: int) returns (out: Image)
    requires img.Valid()
    ensures out.Valid()
    ensures out == Sharpened(img, strength)
  {
    var w, h, s := img.width, img.height, img.data;
    ghost var t := Sharpened(img, strength).data;
    SharpenKeepsBorder(img, strength);
    var data := new Byte[|s|](i requires 0 <= i < |s| => s[i]);
    assert data[..] == s;
    Scan.ScanStart(s, t, w, h, 1);
    var y := 1;
    while y + 1 < h
      invariant 1 <= y && (h >= 2 ==> y <= h - 1)
      invariant Scan.ScannedTo(data[..], s, t, w, y, 0, 0)
    {
      Scan.ScanRowStart(data[..], s, t, w, h, 1, y);
      var x := 1;
      while x + 1 < w
        invariant 1 <= x && (w >= 2 ==> x <= w - 1)
        invariant Scan.ScannedTo(data[..], s, t, w, y, x, 0)
      {
        var c := 0;
        while c < 3
          invariant 0 <= c <= 3
          invariant Scan.ScannedTo(data[..], s, t, w, y, x, c)
        {
          Scan.ScanWrite(data[..], s, t, w, h, y, x, c);
          IdxCoords(w, x, y, c);
          assert t[Idx(w, x, y, c)] == SharpenValue(s, w, h, strength, x, y, c);
          data[Idx(w, x, y, c)] := SharpenValue(s, w, h, strength, x, y, c);
          c := c + 1;
        }
        Scan.ScanPixelDone(data[..], s, t, w, h, 1, y, x);
        x := x + 1;
      }
      Scan.ScanRowDone(data[..], s, t, w, h, 1, y, x);
      y := y + 1;
    }
    Scan.ScanFinish(data[..], s, t, w, h, 1, y);
    out := Image(w, h, data[..]);
  }

  /** Strength 0 leaves every byte as it was. */
  lemma SharpenZero(img: Image)
    requires img.Valid()
    ensures Sharpened(img, 0) == img
  {
    var s, w, h := img.data, img.width, img.height;
    forall i | 0 <= i < |s| ensures SharpenAt(s, w, h, 0, i) == s[i] {
      var x, y, c := Col(w, i), Row(w, i), Chan(i);
      if Interior(w, h, x, y) && c < 3 {
        var v := Px(s, w, h, x, y, c);
        Decompose(w, h, i);
        ToUint8ClampOfByte(v);
      }
    }
    assert Sharpened(img, 0).data == s;
  }

  /** A centre byte equal to its four cross neighbours is kept. */
  lemma MaskFlat(v: Byte, strength: int)
    ensures Mask(v, v, v, v, v, strength) == v
  {
    NothingToSharpen(v as real, (v + v + v + v) as real / 4.0, strength as real / 100.0);
    ToUint8ClampOfByte(v);
  }

  /** A centre equal to its neighbours' mean is left as it is. */
  lemma NothingToSharpen(center: real, blur: real, factor: real)
    requires center == blur
    ensures center + factor * (center - blur) == center
  {}

  lemma SharpenAtUniform(s: seq<Byte>, w: nat, h: nat, strength: int, col: Color, i: int)
    requires |s| == w * h * 4 && Uniform(s, col) && 0 <= i < |s|
    ensures SharpenAt(s, w, h, strength, i) == s[i]
  {
    var x, y, c := Col(w, i), Row(w, i), Chan(i);
    if Interior(w, h, x, y) && c < 3 {
      UniformPx(s, w, h, col, x, y, c);
      UniformPx(s, w, h, col, x, y - 1, c); UniformPx(s, w, h, col, x, y + 1, c);
      UniformPx(s, w, h, col, x - 1, y, c); UniformPx(s, w, h, col, x + 1, y, c);
      MaskFlat(col.Channel(c), strength);
    }
  }

  /** On a uniform image the centre equals the neighbours' mean: nothing changes. */
  lemma SharpenUniform(img: Image, strength: int, col: Color)
    requires img.Valid() && Uniform(img.data, col)
    ensures Sharpened(img, strength) == img
  {
    forall i | 0 <= i < |img.data| ensures SharpenAt(img.data, img.width, img.height, strength, i) == img.data[i] {
      SharpenAtUniform(img.data, img.width, img.height, strength, col, i);
    }
    assert Sharpened(img, strength).data == img.data;
  }

  /** The image restore returns. */
  function Restored(img: Image): (r: Image)
    requires img.Valid()
    ensures r.Valid() && r.width == img.width && r.height == img.height
  {
    Sharpened(Denoised(img), 25)
  }

  /** restore: noise reduction, then sharpening at strength 25. */
  method Restore(img: Image) returns (out: Image)
    requires img.Valid()
    ensures out.Valid()
    ensures out == Sharpened(Denoised(img), 25)
  {
    var denoised := FastDenoise(img);
    out := FastSharpen(denoised, 25);
  }

  /** Restoring a uniform image gives back the same image. */
  lemma RestoreUniform(img: Image, col: Color)
    requires img.Valid() && Uniform(img.data, col)
    ensures Restored(img) == img
  {
    DenoiseUniform(img, col);
    SharpenUniform(img, 25, col);
  }

  /** Restore keeps the border pixels and every alpha byte. */
  lemma RestoreKeepsBorder(img: Image)
    requires img.Valid()
    ensures Scan.BorderKept(img.data, Restored(img).data, img.width, img.height, 1)
  {
    DenoiseKeepsBorder(img);
    SharpenKeepsBorder(Denoised(img), 25);
  }
}
