/** removeBackground: a chroma key. Every pixel whose squared RGB distance to the
    key colour is at most tolerance^2 * 195075 (= tolerance^2 * 3 * 255^2) is
    replaced by the replacement colour, and made fully transparent when that
    colour is pure white, fully opaque otherwise. The input is copied first. */
module Background {
  import opened Bytes
  import opened Raster
  import Scan

  /** dr^2 + dg^2 + db^2, a whole number since every channel is a byte. */
  function Distance2(col: Color, key: Color): int
  {
    (col.r - key.r) * (col.r - key.r) + (col.g - key.g) * (col.g - key.g) + (col.b - key.b) * (col.b - key.b)
  }

  /** The chroma-key test: distance <= tolerance * tolerance * 195075. The key
      colour itself matches at every tolerance. */
  predicate Matches(col: Color, key: Color, tolerance: real)
    ensures col == key ==> Matches(col, key, tolerance)
  {
    Distance2(col, key) as real <= tolerance * tolerance * 195075.0
  }

  /** The alpha written into a matching pixel: 0 (transparent) exactly for a white
      replacement, 255 (opaque) for every other. */
  function KeyedAlpha(replacement: Color): (alpha: Byte)
    ensures alpha == 0 <==> replacement == White
    ensures alpha == 0 || alpha == 255
  {
    if replacement.r == 255 && replacement.g == 255 && replacement.b == 255 then 0 else 255
  }

  /** The byte that removeBackground leaves at offset i. */
  function RemovedByte(s: seq<Byte>, key: Color, tolerance: real, replacement: Color, i: int): Byte
    requires |s| % 4 == 0 && 0 <= i < |s|
  {
    if Matches(PixelAt(s, i / 4), key, tolerance) then
      if Chan(i) < 3 then replacement.Channel(Chan(i)) else KeyedAlpha(replacement)
    else s[i]
  }

  /** The image removeBackground returns. */
  function BackgroundRemoved(img: Image, key: Color, tolerance: real, replacement: Color): (r: Image)
    requires img.Valid()
    ensures r.Valid() && r.width == img.width && r.height == img.height
  {
    ValidWholePixels(img);
    Image(img.width, img.height,
          seq(|img.data|, i requires 0 <= i < |img.data| => RemovedByte(img.data, key, tolerance, replacement, i)))
  }

  /** The four bytes of the pixel at a multiple-of-4 offset i after the key. */
  lemma RemovedPixel(s: seq<Byte>, key: Color, tolerance: real, replacement: Color, i: int)
    requires |s| % 4 == 0 && 0 <= i < |s| && i % 4 == 0
    ensures i + 4 <= |s| && i / 4 * 4 == i
    ensures PixelAt(s, i / 4) == Color(s[i], s[i + 1], s[i + 2])
    ensures var m := Matches(PixelAt(s, i / 4), key, tolerance);
            RemovedByte(s, key, tolerance, replacement, i) == (if m then replacement.r else s[i]) &&
            RemovedByte(s, key, tolerance, replacement, i + 1) == (if m then replacement.g else s[i + 1]) &&
            RemovedByte(s, key, tolerance, replacement, i + 2) == (if m then replacement.b else s[i + 2]) &&
            RemovedByte(s, key, tolerance, replacement, i + 3) == (if m then KeyedAlpha(replacement) else s[i + 3])
  {
    assert Chan(i) == 0 && Chan(i + 1) == 1 && Chan(i + 2) == 2 && Chan(i + 3) == 3;
    assert (i + 1) / 4 == i / 4 && (i + 2) / 4 == i / 4 && (i + 3) / 4 == i / 4;
  }

  /** The four target bytes at a multiple-of-4 offset i, in terms of the pixel's
      own bytes. */
  lemma RemovedTarget(img: Image, key: Color, tolerance: real, replacement: Color, i: int)
    requires img.Valid() && 0 <= i < |img.data| && i % 4 == 0
    ensures i + 4 <= |img.data|
    ensures var s, t := img.data, BackgroundRemoved(img, key, tolerance, replacement).data;
            var m := Matches(Color(s[i], s[i + 1], s[i + 2]), key, tolerance);
            t[i] == (if m then replacement.r else s[i]) &&
            t[i + 1] == (if m then replacement.g else s[i + 1]) &&
            t[i + 2] == (if m then replacement.b else s[i + 2]) &&
            t[i + 3] == (if m then KeyedAlpha(replacement) else s[i + 3])
  {
    ValidWholePixels(img);
    RemovedPixel(img.data, key, tolerance, replacement, i);
  }

  /** removeBackground: copy the buffer; for i = 0, 4, 8, ... compare the pixel with
      the key and, on a match, write the replacement colour and the alpha. */
  method RemoveBackground(img: Image, key: Color, tolerance: real, replacement: Color) returns (out: Image)
    requires img.Valid()
    ensures out.Valid()
    ensures out == BackgroundRemoved(img, key, tolerance, replacement)
  {
    ValidWholePixels(img);
    var s := img.data;
    ghost var t := BackgroundRemoved(img, key, tolerance, replacement).data;
    var data := new Byte[|s|](i requires 0 <= i < |s| => s[i]);
    assert data[..] == s;
    var toleranceSquared := tolerance * tolerance * 195075.0;
    var i := 0;
    while i < data.Length
      invariant 0 <= i <= data.Length && i % 4 == 0
      invariant Scan.DoneUpTo(data[..], t, s, i)
    {
      assert (i + 4) % 4 == 0;
      RemovedTarget(img, key, tolerance, replacement, i);
      ghost var before := data[..];
      var r, g, b := data[i], data[i + 1], data[i + 2];
      var distance := Distance2(Color(r, g, b), key);
      ghost var m := Matches(Color(r, g, b), key, tolerance);
      assert m <==> distance as real <= toleranceSquared;
      if distance as real <= toleranceSquared {
        data[i] := replacement.r;
        data[i + 1] := replacement.g;
        data[i + 2] := replacement.b;
        data[i + 3] := if replacement.r == 255 && replacement.g == 255 && replacement.b == 255 then 0 else 255;
      }
      Scan.DoneStep(before, data[..], t, s, i);
      i := i + 4;
    }
    assert data[..] == t;
    out := Image(img.width, img.height, data[..]);
  }

  /** The pixel at pixel offset p after the key: a matching pixel takes the
      replacement colour and the keyed alpha, any other keeps all four bytes. */
  lemma RemovedAt(img: Image, key: Color, tolerance: real, replacement: Color, p: nat)
    requires img.Valid() && 4 * p + 4 <= |img.data|
    ensures var out := BackgroundRemoved(img, key, tolerance, replacement).data;
            var s := img.data;
            if Matches(PixelAt(s, p), key, tolerance) then
              PixelAt(out, p) == replacement && out[4 * p + 3] == KeyedAlpha(replacement)
            else
              PixelAt(out, p) == PixelAt(s, p) && out[4 * p + 3] == s[4 * p + 3]
  {
    ValidWholePixels(img);
    var s := img.data;
    var i := 4 * p;
    assert i % 4 == 0 && i / 4 == p;
    RemovedPixel(s, key, tolerance, replacement, i);
  }

  /** Pixel by pixel: a pixel matches the key exactly when its distance is within
      the tolerance; a matching pixel takes the replacement colour and the alpha 0
      for a white replacement, 255 otherwise; any other pixel keeps all four bytes. */
  lemma RemoveBackgroundPixel(img: Image, key: Color, tolerance: real, replacement: Color, x: int, y: int)
    requires img.Valid() && 0 <= x < img.width && 0 <= y < img.height
    ensures var out := BackgroundRemoved(img, key, tolerance, replacement);
            var w, h := img.width, img.height;
            if Matches(ColorAtPoint(img, x, y), key, tolerance) then
              ColorAtPoint(out, x, y) == replacement &&
              Px(out.data, w, h, x, y, 3) == (if replacement == White then 0 else 255)
            else
              ColorAtPoint(out, x, y) == ColorAtPoint(img, x, y) &&
              Px(out.data, w, h, x, y, 3) == Px(img.data, w, h, x, y, 3)
  {
    var w, h := img.width, img.height;
    var p := PixelIdx(w, x, y);
    IdxInRange(w, h, x, y, 3);
    assert Idx(w, x, y, 3) == 4 * p + 3;
    RemovedAt(img, key, tolerance, replacement, p);
    assert ColorAtPoint(img, x, y) == PixelAt(img.data, p);
    assert ColorAtPoint(BackgroundRemoved(img, key, tolerance, replacement), x, y) ==
           PixelAt(BackgroundRemoved(img, key, tolerance, replacement).data, p);
  }

  /** With tolerance 0 a pixel matches exactly when it is the key colour. */
  lemma MatchesZeroTolerance(col: Color, key: Color)
    ensures Matches(col, key, 0.0) <==> col == key
  {
    var dr, dg, db := col.r - key.r, col.g - key.g, col.b - key.b;
    assert dr * dr >= 0 && dg * dg >= 0 && db * db >= 0;
    if Distance2(col, key) == 0 {
      assert dr * dr == 0 && dg * dg == 0 && db * db == 0;
    }
  }

  /** Raising the tolerance (in absolute value) never un-matches a pixel. */
  lemma MatchesMonotone(col: Color, key: Color, t: real, t': real)
    requires 0.0 <= t <= t' && Matches(col, key, t)
    ensures Matches(col, key, t')
  {
    assert t * t <= t * t' <= t' * t';
  }

  /** One byte of a twice-keyed buffer equals the once-keyed byte. */
  lemma RemovedTwiceAt(s: seq<Byte>, t: seq<Byte>, key: Color, tolerance: real, replacement: Color, i: int)
    requires |s| % 4 == 0 && |t| == |s| && 0 <= i < |t|
    requires forall j :: 0 <= j < |s| ==> t[j] == RemovedByte(s, key, tolerance, replacement, j)
    ensures RemovedByte(t, key, tolerance, replacement, i) == t[i]
  {
    var p := i / 4;
    var base := 4 * p;
    assert i == base + Chan(i);
    RemovedPixel(s, key, tolerance, replacement, base);
    assert t[base] == RemovedByte(s, key, tolerance, replacement, base);
    assert t[base + 1] == RemovedByte(s, key, tolerance, replacement, base + 1);
    assert t[base + 2] == RemovedByte(s, key, tolerance, replacement, base + 2);
    assert t[base + 3] == RemovedByte(s, key, tolerance, replacement, base + 3);
    if Matches(PixelAt(s, p), key, tolerance) {
      // The pixel is the replacement now; keying it again writes the same bytes.
      assert PixelAt(t, p) == replacement;
    } else {
      // The pixel is unchanged, so it still does not match.
      assert PixelAt(t, p) == PixelAt(s, p);
    }
  }

  /** Keying twice with the same settings is keying once: a replaced pixel either
      matches again and is rewritten with the same bytes, or is left alone, and an
      unmatched pixel is still unmatched. */
  lemma RemoveBackgroundIdempotent(img: Image, key: Color, tolerance: real, replacement: Color)
    requires img.Valid()
    ensures var once := BackgroundRemoved(img, key, tolerance, replacement);
            once.Valid() && BackgroundRemoved(once, key, tolerance, replacement) == once
  {
    ValidWholePixels(img);
    var once := BackgroundRemoved(img, key, tolerance, replacement);
    var t := once.data;
    forall i | 0 <= i < |t| ensures RemovedByte(t, key, tolerance, replacement, i) == t[i] {
      RemovedTwiceAt(img.data, t, key, tolerance, replacement, i);
    }
    assert BackgroundRemoved(once, key, tolerance, replacement).data == t;
  }
}
