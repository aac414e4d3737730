/** The row-major scan shared by the windowed filters that rewrite the colour
    bytes of the pixels at least r pixels from the border, reading from an
    untouched copy (fastDenoise and fastSharpen with r = 1, fastBilateralFilter
    with r = floor(d/2)): for y in [r, h-r), x in [r, w-r), c in [0, 3). These
    lemmas carry the loop invariant "bytes before the scan position hold the
    target, the rest still hold the input" across each write and each step of the
    loops. The second part serves the point filters, which visit every pixel. */
module Scan {
  import opened Bytes
  import opened Raster

  /** Bytes before (y, x, c) equal the target t; the others equal the input s. */
  ghost predicate ScannedTo(a: seq<Byte>, s: seq<Byte>, t: seq<Byte>, w: nat, y: int, x: int, c: int)
  {
    |a| == |s| == |t| &&
    forall i :: 0 <= i < |s| ==> a[i] == if Before(w, i, y, x, c) then t[i] else s[i]
  }

  /** The target differs from the input only in colour bytes of pixels at least r
      pixels from the border. */
  ghost predicate BorderKept(s: seq<Byte>, t: seq<Byte>, w: nat, h: nat, r: nat)
  {
    |s| == |t| == w * h * 4 &&
    forall i :: 0 <= i < |s| && !(Inset(w, h, r, Col(w, i), Row(w, i)) && Chan(i) < 3) ==> t[i] == s[i]
  }

  lemma ScanStart(s: seq<Byte>, t: seq<Byte>, w: nat, h: nat, r: nat)
    requires BorderKept(s, t, w, h, r)
    ensures ScannedTo(s, s, t, w, r, 0, 0)
  {}

  lemma ScanRowStart(a: seq<Byte>, s: seq<Byte>, t: seq<Byte>, w: nat, h: nat, r: nat, y: int)
    requires BorderKept(s, t, w, h, r) && ScannedTo(a, s, t, w, y, 0, 0)
    ensures ScannedTo(a, s, t, w, y, r, 0)
  {}

  lemma ScanPixelDone(a: seq<Byte>, s: seq<Byte>, t: seq<Byte>, w: nat, h: nat, r: nat, y: int, x: int)
    requires BorderKept(s, t, w, h, r) && ScannedTo(a, s, t, w, y, x, 3)
    ensures ScannedTo(a, s, t, w, y, x + 1, 0)
  {}

  lemma ScanRowDone(a: seq<Byte>, s: seq<Byte>, t: seq<Byte>, w: nat, h: nat, r: nat, y: int, x: int)
    requires BorderKept(s, t, w, h, r) && ScannedTo(a, s, t, w, y, x, 0)
    requires r <= x && w <= x + r
    ensures ScannedTo(a, s, t, w, y + 1, 0, 0)
  {}

  lemma ScanFinish(a: seq<Byte>, s: seq<Byte>, t: seq<Byte>, w: nat, h: nat, r: nat, y: int)
    requires BorderKept(s, t, w, h, r) && ScannedTo(a, s, t, w, y, 0, 0)
    requires r <= y && h <= y + r
    ensures a == t
  {
    forall i | 0 <= i < |s| ensures a[i] == t[i] {
      Decompose(w, h, i);
    }
  }

  /** Writing the target byte at the scan position advances the scan by one byte. */
  lemma ScanWrite(a: seq<Byte>, s: seq<Byte>, t: seq<Byte>, w: nat, h: nat, y: int, x: int, c: int)
    requires |s| == w * h * 4 && ScannedTo(a, s, t, w, y, x, c)
    requires 0 <= x < w && 0 <= y < h && 0 <= c < 4
    ensures Idx(w, x, y, c) < |a|
    ensures ScannedTo(a[Idx(w, x, y, c) := t[Idx(w, x, y, c)]], s, t, w, y, x, c + 1)
  {
    var k := Idx(w, x, y, c);
    IdxInRange(w, h, x, y, c);
    IdxCoords(w, x, y, c);
    forall i | 0 <= i < |s| && i != k ensures Before(w, i, y, x, c + 1) == Before(w, i, y, x, c) {
      Decompose(w, h, i);
    }
  }

  /** Leaving a byte whose target is its input value also advances the scan. */
  lemma ScanKeep(a: seq<Byte>, s: seq<Byte>, t: seq<Byte>, w: nat, h: nat, y: int, x: int, c: int)
    requires |s| == w * h * 4 && ScannedTo(a, s, t, w, y, x, c)
    requires 0 <= x < w && 0 <= y < h && 0 <= c < 4
    requires Idx(w, x, y, c) < |s| && t[Idx(w, x, y, c)] == s[Idx(w, x, y, c)]
    ensures ScannedTo(a, s, t, w, y, x, c + 1)
  {
    var k := Idx(w, x, y, c);
    ScanWrite(a, s, t, w, h, y, x, c);
    IdxCoords(w, x, y, c);
    assert a[k := t[k]] == a;
  }

  // The pixel-by-pixel pass of the point filters (i from 0 in steps of 4).

  /** Bytes before offset i hold their final value t[j], the rest still hold s[j]. */
  ghost predicate DoneUpTo(a: seq<Byte>, t: seq<Byte>, s: seq<Byte>, i: int)
  {
    |a| == |t| == |s| && forall j :: 0 <= j < |a| ==> a[j] == if j < i then t[j] else s[j]
  }

  /** Finishing the four bytes of the pixel at offset i extends the done prefix. */
  lemma DoneStep(a: seq<Byte>, b: seq<Byte>, t: seq<Byte>, s: seq<Byte>, i: int)
    requires DoneUpTo(a, t, s, i) && |b| == |a| && 0 <= i && i + 4 <= |a|
    requires forall j :: 0 <= j < |a| && (j < i || i + 4 <= j) ==> b[j] == a[j]
    requires b[i] == t[i] && b[i + 1] == t[i + 1] && b[i + 2] == t[i + 2] && b[i + 3] == t[i + 3]
    ensures DoneUpTo(b, t, s, i + 4)
  {}

  /** The target t holds, at the pixel at pixel offset p, the colour of that pixel
      of s mapped by f, and the alpha byte of s. */
  ghost predicate PixelMapped(t: seq<Byte>, s: seq<Byte>, f: Color -> Color, p: int)
    requires |t| == |s| && 0 <= p && 4 * p + 3 < |s|
  {
    var col := f(PixelAt(s, p));
    t[4 * p] == col.r && t[4 * p + 1] == col.g && t[4 * p + 2] == col.b && t[4 * p + 3] == s[4 * p + 3]
  }

  /** MapColors maps every pixel. */
  lemma MapColorsMapsPixels(s: seq<Byte>, f: Color -> Color)
    requires |s| % 4 == 0
    ensures forall p :: 0 <= p && 4 * p + 3 < |s| ==> PixelMapped(MapColors(s, f), s, f, p)
  {
    forall p | 0 <= p && 4 * p + 3 < |s| ensures PixelMapped(MapColors(s, f), s, f, p) {
      MapColorsPixel(s, f, 4 * p);
      assert 4 * p / 4 == p;
    }
  }

  /** Writing the target's colour bytes into the pixel at pixel offset p, whose
      alpha the target keeps, extends the done prefix by one pixel. */
  lemma DonePixel(a: seq<Byte>, t: seq<Byte>, s: seq<Byte>, p: int, col: Color)
    requires DoneUpTo(a, t, s, 4 * p) && 0 <= p && 4 * p + 4 <= |a|
    requires t[4 * p] == col.r && t[4 * p + 1] == col.g && t[4 * p + 2] == col.b
    requires t[4 * p + 3] == s[4 * p + 3]
    ensures DoneUpTo(a[4 * p := col.r][4 * p + 1 := col.g][4 * p + 2 := col.b], t, s, 4 * p + 4)
  {}

  /** A pixel the target keeps as it was needs no write. */
  lemma DoneKept(a: seq<Byte>, t: seq<Byte>, s: seq<Byte>, p: int)
    requires DoneUpTo(a, t, s, 4 * p) && 0 <= p && 4 * p + 4 <= |a|
    requires t[4 * p] == s[4 * p] && t[4 * p + 1] == s[4 * p + 1]
    requires t[4 * p + 2] == s[4 * p + 2] && t[4 * p + 3] == s[4 * p + 3]
    ensures DoneUpTo(a, t, s, 4 * p + 4)
  {}

  /** The loop of the point filters (fastColorQuantization, fastSaturationBoost and
      the first pass of enhance): for i = 0, 4, 8, ... read bytes i, i+1, i+2 as a
      colour, map it by f and write the three results back in place, leaving every
      alpha byte alone. */
  method MapColorsInPlace(data: array<Byte>, f: Color -> Color)
    requires data.Length % 4 == 0
    modifies data
    ensures data[..] == MapColors(old(data[..]), f)
  {
    MapColorsMapsPixels(data[..], f);
    MapPixelsInPlace(data, f, MapColors(data[..], f));
  }

  /** The loop itself, against a target that maps every pixel. */
  method MapPixelsInPlace(data: array<Byte>, f: Color -> Color, ghost t: seq<Byte>)
    requires data.Length % 4 == 0 && |t| == data.Length
    requires forall p :: 0 <= p && 4 * p + 3 < data.Length ==> PixelMapped(t, data[..], f, p)
    modifies data
    ensures data[..] == t
  {
    ghost var original := data[..];
    var i := 0;
    ghost var p := 0;
    while i < data.Length
      invariant 0 <= i <= data.Length && i == 4 * p
      invariant DoneUpTo(data[..], t, original, i)
    {
      ghost var before := data[..];
      assert PixelMapped(t, original, f, p);
      assert Color(data[i], data[i + 1], data[i + 2]) == PixelAt(original, p);
      var mapped := f(Color(data[i], data[i + 1], data[i + 2]));
      data[i] := mapped.r;
      data[i + 1] := mapped.g;
      data[i + 2] := mapped.b;
      ghost var after: seq<Byte> := before[i := mapped.r][i + 1 := mapped.g][i + 2 := mapped.b];
      assert data[..] == after;
      DonePixel(before, t, original, p, mapped);
      i := i + 4;
      p := p + 1;
    }
    assert data[..] == t;
  }
}
