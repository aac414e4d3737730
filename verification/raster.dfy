/** The pixel buffer model: an ImageData value (width, height and a row-major RGBA
    byte sequence of length width*height*4), colours, and the index arithmetic that
    every filter uses to move between flat byte offsets and (x, y, channel). */
module Raster {
  import opened Bytes

  /** A value that may be absent (a failed regex match, a null ImageData). */
  datatype Option<T> = None | Some(value: T)

  datatype Color = Color(r: Byte, g: Byte, b: Byte)
  {
    /** Channel 0, 1 or 2 (red, green, blue). */
    function Channel(c: int): Byte
      requires 0 <= c < 3
    {
      if c == 0 then r else if c == 1 then g else b
    }
  }

  const White := Color(255, 255, 255)
  const Black := Color(0, 0, 0)

  /** The browser's ImageData: width, height and the RGBA bytes. */
  datatype Image = Image(width: nat, height: nat, data: seq<Byte>)
  {
    predicate Valid() { |data| == width * height * 4 }
  }

  /** The buffer of a valid image holds whole pixels. */
  lemma ValidWholePixels(img: Image)
    requires img.Valid()
    ensures |img.data| % 4 == 0
  {
    var n := img.width * img.height;
    assert |img.data| == n * 4;
  }

  /** Offset of pixel (x, y) in a row of width w. */
  function PixelIdx(w: nat, x: nat, y: nat): nat { y * w + x }

  /** Offset of channel c of pixel (x, y): (y * width + x) * 4 + c. */
  function Idx(w: nat, x: nat, y: nat, c: nat): nat { PixelIdx(w, x, y) * 4 + c }

  /** Column and row of the pixel at pixel offset p. */
  function PCol(w: nat, p: nat): nat { if w == 0 then 0 else p % w }
  function PRow(w: nat, p: nat): nat { if w == 0 then 0 else p / w }

  /** Channel, column and row of the byte at flat offset i. */
  function Chan(i: nat): nat { i % 4 }
  function Col(w: nat, i: nat): nat { PCol(w, i / 4) }
  function Row(w: nat, i: nat): nat { PRow(w, i / 4) }

  lemma DivModUnique(p: int, w: int, q: int, r: int)
    requires w > 0 && 0 <= r < w && p == q * w + r
    ensures p / w == q && p % w == r
  {
    var q', r' := p / w, p % w;
    assert p == q' * w + r';
    assert (q - q') * w == q * w - q' * w;
    assert (q - q') * w == r' - r;
    if q > q' {
      MulMonotone(1, q - q', w);
    } else if q < q' {
      MulMonotone(1, q' - q, w);
    }
  }

  lemma MulMonotone(a: nat, b: nat, w: nat)
    requires a <= b
    ensures a * w <= b * w
  {}

  /** A pixel inside the image has an offset below width*height. */
  lemma PixelInRange(w: nat, h: nat, x: nat, y: nat)
    requires x < w && y < h
    ensures PixelIdx(w, x, y) < w * h
  {
    MulMonotone(y + 1, h, w);
  }

  /** A channel of a pixel inside the image has an offset inside the buffer. */
  lemma IdxInRange(w: nat, h: nat, x: nat, y: nat, c: nat)
    requires x < w && y < h && c < 4
    ensures Idx(w, x, y, c) < w * h * 4
  {
    PixelInRange(w, h, x, y);
  }

  /** (x, y) is recovered from the pixel offset of (x, y). */
  lemma PixelCoords(w: nat, x: nat, y: nat)
    requires x < w
    ensures PCol(w, PixelIdx(w, x, y)) == x && PRow(w, PixelIdx(w, x, y)) == y
  {
    DivModUnique(PixelIdx(w, x, y), w, y, x);
  }

  /** (x, y, c) is recovered from the byte offset of channel c of (x, y). */
  lemma IdxCoords(w: nat, x: nat, y: nat, c: nat)
    requires x < w && c < 4
    ensures Chan(Idx(w, x, y, c)) == c
    ensures Col(w, Idx(w, x, y, c)) == x && Row(w, Idx(w, x, y, c)) == y
  {
    DivModUnique(Idx(w, x, y, c), 4, PixelIdx(w, x, y), c);
    PixelCoords(w, x, y);
  }

  /** Every pixel offset inside the image decomposes into a column and a row. */
  lemma PixelDecompose(w: nat, h: nat, p: nat)
    requires p < w * h
    ensures w > 0 && PCol(w, p) < w && PRow(w, p) < h
    ensures p == PixelIdx(w, PCol(w, p), PRow(w, p))
  {
    if PRow(w, p) >= h {
      MulMonotone(h, PRow(w, p), w);
    }
  }

  /** Every byte offset inside the buffer decomposes into column, row and channel. */
  lemma Decompose(w: nat, h: nat, i: nat)
    requires i < w * h * 4
    ensures w > 0 && Col(w, i) < w && Row(w, i) < h && Chan(i) < 4
    ensures i == Idx(w, Col(w, i), Row(w, i), Chan(i))
  {
    PixelDecompose(w, h, i / 4);
  }

  /** The byte for channel c of pixel (x, y). */
  function Px(s: seq<Byte>, w: nat, h: nat, x: int, y: int, c: int): Byte
    requires |s| == w * h * 4
    requires 0 <= x < w && 0 <= y < h && 0 <= c < 4
  {
    IdxInRange(w, h, x, y, c);
    s[Idx(w, x, y, c)]
  }

  /** Every pixel of s has the red, green and blue of col (alpha is free). */
  ghost predicate Uniform(s: seq<Byte>, col: Color)
  {
    forall i :: 0 <= i < |s| && Chan(i) < 3 ==> s[i] == col.Channel(Chan(i))
  }

  /** Pixels with a full 3x3 neighbourhood: not on the 1-pixel border. */
  predicate Interior(w: nat, h: nat, x: int, y: int)
  {
    1 <= x < w - 1 && 1 <= y < h - 1
  }

  /** Pixels at least r pixels away from every edge: the centres a window of
      radius r fits around. Interior is the case r = 1. */
  predicate Inset(w: nat, h: nat, r: nat, x: int, y: int)
  {
    r <= x < w - r && r <= y < h - r
  }

  /** Every colour byte of a uniform image is the image's colour. */
  lemma UniformPx(s: seq<Byte>, w: nat, h: nat, col: Color, x: int, y: int, c: int)
    requires |s| == w * h * 4 && Uniform(s, col)
    requires 0 <= x < w && 0 <= y < h && 0 <= c < 3
    ensures Px(s, w, h, x, y, c) == col.Channel(c)
  {
    IdxInRange(w, h, x, y, c);
    IdxCoords(w, x, y, c);
  }

  /** Lexicographic order on (row, column, channel): the byte at offset i comes
      before position (y, x, c) of a row-major scan. */
  predicate Before(w: nat, i: nat, y: int, x: int, c: int)
  {
    Row(w, i) < y || (Row(w, i) == y && (Col(w, i) < x || (Col(w, i) == x && Chan(i) < c)))
  }

  /** The pixel at offset p comes before pixel (x, y) of a row-major scan. */
  predicate PixelBefore(w: nat, p: nat, y: int, x: int)
  {
    PRow(w, p) < y || (PRow(w, p) == y && PCol(w, p) < x)
  }

  /** getColorAtPoint: the red, green and blue bytes at (x, y). The source reads
      the buffer without a bounds check; an (x, y) outside the image is the
      caller's error, so it is excluded here. */
  function ColorAtPoint(img: Image, x: int, y: int): (col: Color)
    requires img.Valid()
    requires 0 <= x < img.width && 0 <= y < img.height
    ensures forall c :: 0 <= c < 3 ==> col.Channel(c) == Px(img.data, img.width, img.height, x, y, c)
  {
    var s, w, h := img.data, img.width, img.height;
    Color(Px(s, w, h, x, y, 0), Px(s, w, h, x, y, 1), Px(s, w, h, x, y, 2))
  }

  /** On a uniform image every point has the image's colour. */
  lemma ColorAtPointUniform(img: Image, col: Color, x: int, y: int)
    requires img.Valid() && Uniform(img.data, col)
    requires 0 <= x < img.width && 0 <= y < img.height
    ensures ColorAtPoint(img, x, y) == col
  {
    var w, h := img.width, img.height;
    forall c | 0 <= c < 3 ensures Px(img.data, w, h, x, y, c) == col.Channel(c) {
      IdxCoords(w, x, y, c);
      IdxInRange(w, h, x, y, c);
    }
  }

  /** The colour of the pixel at pixel offset p (bytes 4p, 4p+1, 4p+2). */
  function PixelAt(s: seq<Byte>, p: int): Color
    requires 0 <= p && 4 * p + 3 < |s|
  {
    Color(s[4 * p], s[4 * p + 1], s[4 * p + 2])
  }

  /** The byte at offset i after replacing the colour of its pixel by f of it. */
  function MappedByte(s: seq<Byte>, f: Color -> Color, i: int): Byte
    requires |s| % 4 == 0 && 0 <= i < |s|
  {
    if Chan(i) < 3 then f(PixelAt(s, i / 4)).Channel(Chan(i)) else s[i]
  }

  /** The buffer after replacing the colour of every pixel by f of that colour,
      keeping every alpha byte: the shape of the point filters, which visit
      i = 0, 4, 8, ... and rewrite bytes i, i+1, i+2. */
  function MapColors(s: seq<Byte>, f: Color -> Color): (r: seq<Byte>)
    requires |s| % 4 == 0
    ensures |r| == |s|
  {
    seq(|s|, i requires 0 <= i < |s| => MappedByte(s, f, i))
  }

  /** The four bytes of the pixel at a multiple-of-4 offset i after MapColors. */
  lemma MapColorsPixel(s: seq<Byte>, f: Color -> Color, i: int)
    requires |s| % 4 == 0 && 0 <= i && i % 4 == 0 && i < |s|
    ensures i + 4 <= |s| && i / 4 * 4 == i
    ensures PixelAt(s, i / 4) == Color(s[i], s[i + 1], s[i + 2])
    ensures MapColors(s, f)[i] == f(PixelAt(s, i / 4)).r
    ensures MapColors(s, f)[i + 1] == f(PixelAt(s, i / 4)).g
    ensures MapColors(s, f)[i + 2] == f(PixelAt(s, i / 4)).b
    ensures MapColors(s, f)[i + 3] == s[i + 3]
  {
    assert Chan(i) == 0 && Chan(i + 1) == 1 && Chan(i + 2) == 2 && Chan(i + 3) == 3;
    assert (i + 1) / 4 == i / 4 && (i + 2) / 4 == i / 4 && (i + 3) / 4 == i / 4;
  }

  /** MapColors keeps every alpha byte, and a colour that f fixes stays put. */
  lemma MapColorsFixes(s: seq<Byte>, f: Color -> Color, i: int)
    requires |s| % 4 == 0 && 0 <= i < |s|
    requires Chan(i) < 3 ==> f(PixelAt(s, i / 4)) == PixelAt(s, i / 4)
    ensures MapColors(s, f)[i] == s[i]
  {
    var p := i / 4;
    assert i == 4 * p + Chan(i);
  }

  /** Mapping the colours of a uniform buffer gives a uniform buffer of the mapped colour. */
  lemma MapColorsUniform(s: seq<Byte>, f: Color -> Color, col: Color)
    requires |s| % 4 == 0 && Uniform(s, col)
    ensures Uniform(MapColors(s, f), f(col))
  {
    forall i | 0 <= i < |s| && Chan(i) < 3 ensures MapColors(s, f)[i] == f(col).Channel(Chan(i)) {
      var p := i / 4;
      assert i == 4 * p + Chan(i);
      assert Chan(4 * p) == 0 && Chan(4 * p + 1) == 1 && Chan(4 * p + 2) == 2;
      assert PixelAt(s, p) == col;
    }
  }
}
