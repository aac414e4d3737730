/** fastDenoise: a 3x3 Gaussian blur, kernel [1 2 1; 2 4 2; 1 2 1] / 16, applied
    to the red, green and blue bytes of interior pixels only and always read from
    an untouched copy of the input. */
module Denoise {
  import opened Bytes
  import opened Raster
  import Scan

  /** The weighted 3x3 sum of channel c around (x, y). */
  function DenoiseSum(s: seq<Byte>, w: nat, h: nat, x: int, y: int, c: int): int
    requires |s| == w * h * 4 && Interior(w, h, x, y) && 0 <= c < 3
  {
    Px(s, w, h, x - 1, y - 1, c) * 1 + Px(s, w, h, x, y - 1, c) * 2 + Px(s, w, h, x + 1, y - 1, c) * 1 +
    Px(s, w, h, x - 1, y, c) * 2     + Px(s, w, h, x, y, c) * 4     + Px(s, w, h, x + 1, y, c) * 2 +
    Px(s, w, h, x - 1, y + 1, c) * 1 + Px(s, w, h, x, y + 1, c) * 2 + Px(s, w, h, x + 1, y + 1, c) * 1
  }

  /** The byte that the filter leaves at offset i: border pixels and alpha bytes
      keep the input byte. */
  function DenoiseAt(s: seq<Byte>, w: nat, h: nat, i: int): (b: Byte)
    requires |s| == w * h * 4 && 0 <= i < |s|
    ensures !Interior(w, h, Col(w, i), Row(w, i)) || Chan(i) == 3 ==> b == s[i]
  {
    var x, y, c := Col(w, i), Row(w, i), Chan(i);
    if Interior(w, h, x, y) && c < 3 then ToUint8Clamp(DenoiseSum(s, w, h, x, y, c) as real / 16.0)
    else s[i]
  }

  /** The image fastDenoise returns. */
  function Denoised(img: Image): (r: Image)
    requires img.Valid()
    ensures r.Valid() && r.width == img.width && r.height == img.height
  {
    Image(img.width, img.height,
          seq(|img.data|, i requires 0 <= i < |img.data| => DenoiseAt(img.data, img.width, img.height, i)))
  }

  /** The byte at channel c of an interior pixel is the blurred value. */
  lemma DenoiseAtInterior(s: seq<Byte>, w: nat, h: nat, x: int, y: int, c: int)
    requires |s| == w * h * 4 && Interior(w, h, x, y) && 0 <= c < 3
    ensures Idx(w, x, y, c) < |s|
    ensures DenoiseAt(s, w, h, Idx(w, x, y, c)) == ToUint8Clamp(DenoiseSum(s, w, h, x, y, c) as real / 16.0)
  {
    IdxInRange(w, h, x, y, c);
    IdxCoords(w, x, y, c);
  }

  /** Border pixels and every alpha byte come out unchanged. */
  lemma DenoiseKeepsBorder(img: Image)
    requires img.Valid()
    ensures Scan.BorderKept(img.data, Denoised(img).data, img.width, img.height, 1)
  {}

  /** fastDenoise: copy the buffer, then for y in [1, h-1), x in [1, w-1) and each
      colour channel store sum/16 (through the clamped byte store) into the copy,
      reading only the untouched input. */
  method FastDenoise(img: Image) returns (out: Image)
    requires img.Valid()
    ensures out.Valid()
    ensures out == Denoised(img)
  {
    var w, h, s := img.width, img.height, img.data;
    ghost var t := Denoised(img).data;
    DenoiseKeepsBorder(img);
    var data := new Byte[|s|](i requires 0 <= i < |s| => s[i]);
    assert data[..] == s;
    Scan.ScanStart(s, t, w, h, 1);
    var y := 1;
    while y + 1 < h
      invariant 1 <= y && (h >= 2 ==> y <= h - 1)
      invariant Scan.ScannedTo(data[..], s, t, w, y, 0, 0)
    {
      Scan.ScanRowStart(data[..], s, t, w, h, 1, y);
      var x := 1;
      while x + 1 < w
        invariant 1 <= x && (w >= 2 ==> x <= w - 1)
        invariant Scan.ScannedTo(data[..], s, t, w, y, x, 0)
      {
        var c := 0;
        while c < 3
          invariant 0 <= c <= 3
          invariant Scan.ScannedTo(data[..], s, t, w, y, x, c)
        {
          Scan.ScanWrite(data[..], s, t, w, h, y, x, c);
          DenoiseAtInterior(s, w, h, x, y, c);
          data[Idx(w, x, y, c)] := ToUint8Clamp(DenoiseSum(s, w, h, x, y, c) as real / 16.0);
          c := c + 1;
        }
        Scan.ScanPixelDone(data[..], s, t, w, h, 1, y, x);
        x := x + 1;
      }
      Scan.ScanRowDone(data[..], s, t, w, h, 1, y, x);
      y := y + 1;
    }
    Scan.ScanFinish(data[..], s, t, w, h, 1, y);
    out := Image(w, h, data[..]);
  }

  lemma DenoiseSumUniform(s: seq<Byte>, w: nat, h: nat, col: Color, x: int, y: int, c: int)
    requires |s| == w * h * 4 && Uniform(s, col) && Interior(w, h, x, y) && 0 <= c < 3
    ensures DenoiseSum(s, w, h, x, y, c) == 16 * col.Channel(c)
  {
    UniformPx(s, w, h, col, x - 1, y - 1, c); UniformPx(s, w, h, col, x, y - 1, c); UniformPx(s, w, h, col, x + 1, y - 1, c);
    UniformPx(s, w, h, col, x - 1, y, c);     UniformPx(s, w, h, col, x, y, c);     UniformPx(s, w, h, col, x + 1, y, c);
    UniformPx(s, w, h, col, x - 1, y + 1, c); UniformPx(s, w, h, col, x, y + 1, c); UniformPx(s, w, h, col, x + 1, y + 1, c);
  }

  lemma DenoiseAtUniform(s: seq<Byte>, w: nat, h: nat, col: Color, i: int)
    requires |s| == w * h * 4 && Uniform(s, col) && 0 <= i < |s|
    ensures DenoiseAt(s, w, h, i) == s[i]
  {
    var x, y, c := Col(w, i), Row(w, i), Chan(i);
    if Interior(w, h, x, y) && c < 3 {
      var v := col.Channel(c);
      DenoiseSumUniform(s, w, h, col, x, y, c);
      var sum := DenoiseSum(s, w, h, x, y, c);
      assert sum as real / 16.0 == v as real;
      ToUint8ClampOfByte(v);
    }
  }

  /** A uniform image is a fixed point of the blur: the kernel weights sum to 16. */
  lemma DenoiseUniform(img: Image, col: Color)
    requires img.Valid() && Uniform(img.data, col)
    ensures Denoised(img) == img
  {
    var s, w, h := img.data, img.width, img.height;
    forall i | 0 <= i < |s| ensures DenoiseAt(s, w, h, i) == s[i] {
      DenoiseAtUniform(s, w, h, col, i);
    }
    assert Denoised(img).data == s;
  }

  /** An image less than 3 pixels wide or high has no interior and comes back unchanged. */
  lemma DenoiseSmall(img: Image)
    requires img.Valid() && (img.width < 3 || img.height < 3)
    ensures Denoised(img) == img
  {
    assert Denoised(img).data == img.data;
  }
}
