/** fastEdgeDetection (a 3x3 Sobel operator over the grey level (r+g+b)/3,
    producing one byte per pixel with a 1-pixel zero border) and addCleanEdges
    (darken the colour bytes of pixels whose edge value exceeds 30, in place).

    The source accumulates gx and gy over grey = (r+g+b)/3. The model accumulates
    in thirds, over r+g+b, so that Sx = 3*gx and Sy = 3*gy are whole numbers; the
    stored edge byte ToUint8(min(255, sqrt(gx^2+gy^2))) is then
    min(255, ISqrt((Sx^2+Sy^2) div 9)) (lemma EdgeValueIsStoredMagnitude). */
module Edges {
  import opened Bytes
  import opened Raster
  import Scan

  /** Integer square root: the largest r with r*r <= n. */
  function ISqrt(n: nat): (r: nat)
    ensures r * r <= n < (r + 1) * (r + 1)
  {
    if n == 0 then 0
    else
      var q := ISqrt(n / 4);
      ISqrtStep(n, q);
      if (2 * q + 1) * (2 * q + 1) <= n then 2 * q + 1 else 2 * q
  }

  /** The root of n / 4, doubled, brackets the root of n. */
  lemma ISqrtStep(n: nat, q: nat)
    requires q * q <= n / 4 < (q + 1) * (q + 1)
    ensures (2 * q) * (2 * q) <= n < (2 * q + 2) * (2 * q + 2)
  {
    var a, b := q * q, (q + 1) * (q + 1);
    assert (2 * q) * (2 * q) == 4 * a;
    assert (2 * q + 2) * (2 * q + 2) == 4 * b;
    assert n / 4 + 1 <= b;
  }

  const SobelX: seq<int> := [-1, 0, 1, -2, 0, 2, -1, 0, 1]
  const SobelY: seq<int> := [-1, -2, -1, 0, 0, 0, 1, 2, 1]

  /** Three times the grey level of pixel (x, y): r + g + b. */
  function Gray3(s: seq<Byte>, w: nat, h: nat, x: int, y: int): int
    requires |s| == w * h * 4 && 0 <= x < w && 0 <= y < h
  {
    Px(s, w, h, x, y, 0) + Px(s, w, h, x, y, 1) + Px(s, w, h, x, y, 2)
  }

  /** The kernel-weighted sum of Gray3 over the first n cells of the 3x3 window
      around (x, y), cells taken row by row as kernelIdx = (ky+1)*3 + (kx+1). Since
      Gray3 lies in [0, 765] and no Sobel weight exceeds 2 in magnitude, each tap
      adds at most 1530 either way. */
  function Gradient(s: seq<Byte>, w: nat, h: nat, x: int, y: int, kernel: seq<int>, n: nat): (g: int)
    requires |s| == w * h * 4 && Interior(w, h, x, y) && SmallKernel(kernel) && n <= 9
    ensures -1530 * n <= g <= 1530 * n
  {
    if n == 0 then 0
    else
      var gray3 := Gray3(s, w, h, x + (n - 1) % 3 - 1, y + (n - 1) / 3 - 1);
      TapBounded(gray3, kernel[n - 1]);
      Gradient(s, w, h, x, y, kernel, n - 1) + gray3 * kernel[n - 1]
  }

  /** A 3x3 kernel whose weights lie in [-2, 2], as both Sobel kernels do. */
  predicate SmallKernel(kernel: seq<int>)
  {
    |kernel| == 9 && forall k :: 0 <= k < 9 ==> -2 <= kernel[k] <= 2
  }

  /** One tap: a grey level in [0, 765] times a weight in [-2, 2] lies in [-1530, 1530]. */
  lemma TapBounded(gray3: int, k: int)
    requires 0 <= gray3 <= 765 && -2 <= k <= 2
    ensures -1530 <= gray3 * k <= 1530
  {}

  /** The stored edge byte for gradients Sx = 3*gx and Sy = 3*gy: the integer
      square root of (Sx^2 + Sy^2) / 9, capped at 255. */
  function EdgeValue(sx: int, sy: int): (e: Byte)
    ensures e * e <= (sx * sx + sy * sy) / 9
    ensures e < 255 ==> (sx * sx + sy * sy) / 9 < (e + 1) * (e + 1)
  {
    var m := ISqrt((sx * sx + sy * sy) / 9);
    if m < 255 then m else SquareMonotone'(255, m); 255
  }

  /** The edge byte of the pixel at offset p: zero on the border. */
  function EdgeAt(s: seq<Byte>, w: nat, h: nat, p: int): Byte
    requires |s| == w * h * 4 && 0 <= p
  {
    var x, y := PCol(w, p), PRow(w, p);
    if Interior(w, h, x, y) then
      EdgeValue(Gradient(s, w, h, x, y, SobelX, 9), Gradient(s, w, h, x, y, SobelY, 9))
    else 0
  }

  /** The edge map fastEdgeDetection returns: one byte per pixel. */
  function EdgeMap(s: seq<Byte>, w: nat, h: nat): (e: seq<Byte>)
    requires |s| == w * h * 4
    ensures |e| == w * h
  {
    seq(w * h, p requires 0 <= p < w * h => EdgeAt(s, w, h, p))
  }

  lemma SquareMonotone(a: real, b: real)
    requires 0.0 <= a < b
    ensures a * a < b * b
  {
    assert b * b - a * a == (b - a) * (b + a);
    PositiveProduct(b - a, b + a);
  }

  lemma PositiveProduct(a: real, b: real)
    requires a > 0.0 && b > 0.0
    ensures a * b > 0.0
  {}

  lemma CastSquare(r: int)
    ensures (r * r) as real == (r as real) * (r as real)
  {}

  /** ISqrt(n) reaches k exactly when n reaches k*k. */
  lemma ISqrtAtLeast(n: nat, k: nat)
    ensures ISqrt(n) >= k <==> n >= k * k
  {
    RootAtLeast(n, k, ISqrt(n));
  }

  /** A root r of n (r*r <= n < (r+1)*(r+1)) reaches k exactly when n reaches k*k. */
  lemma RootAtLeast(n: nat, k: nat, r: nat)
    requires r * r <= n < (r + 1) * (r + 1)
    ensures r >= k <==> n >= k * k
  {
    if r >= k {
      SquareMonotone'(k, r);
    } else {
      SquareMonotone'(r + 1, k);
    }
  }

  lemma SquareMonotone'(a: nat, b: nat)
    requires a <= b
    ensures a * a <= b * b
  {
    MulMonotone(a, b, a);
    MulMonotone(a, b, b);
  }

  /** A non-negative real whose square lies in [r^2, (r+1)^2) has floor r. */
  lemma FloorOfRoot(m: real, r: nat)
    requires m >= 0.0
    requires (r as real) * (r as real) <= m * m < ((r + 1) as real) * ((r + 1) as real)
    ensures m.Floor == r
  {
    if m < r as real {
      SquareMonotone(m, r as real);
    }
    if m > (r + 1) as real {
      SquareMonotone((r + 1) as real, m);
    }
    assert r as real <= m < (r + 1) as real;
  }

  /** The source's stored value ToUint8(min(255, m)), with m the exact square root
      of gx^2 + gy^2 = (Sx^2 + Sy^2)/9, is the model's EdgeValue(Sx, Sy). */
  lemma EdgeValueIsStoredMagnitude(sx: int, sy: int, m: real)
    requires m >= 0.0 && m * m == (sx * sx + sy * sy) as real / 9.0
    ensures ToUint8(MinReal(255.0, m)) == EdgeValue(sx, sy)
  {
    var q := SumOfSquares(sx, sy);
    var r := ISqrt(q / 9);
    RootBracket(q, r);
    FloorOfRoot(m, r);
    if r >= 255 {
      assert MinReal(255.0, m) == 255.0;
    } else {
      assert MinReal(255.0, m) == m;
    }
  }

  /** sx^2 + sy^2, which is never negative. */
  function SumOfSquares(sx: int, sy: int): (q: nat)
    ensures q == sx * sx + sy * sy
  {
    assert sx * sx >= 0 && sy * sy >= 0;
    sx * sx + sy * sy
  }

  /** The integer root of q div 9 brackets the exact root of q / 9. */
  lemma RootBracket(q: nat, r: nat)
    requires r * r <= q / 9 < (r + 1) * (r + 1)
    ensures (r as real) * (r as real) <= q as real / 9.0 < ((r + 1) as real) * ((r + 1) as real)
  {
    CastSquare(r);
    CastSquare(r + 1);
    var n := q / 9;
    assert (n as real) <= q as real / 9.0 < (n + 1) as real;
  }

  /** The darkening threshold needs no square root: edge > 30 exactly when
      Sx^2 + Sy^2 >= 9 * 31^2. */
  lemma EdgeThreshold(sx: int, sy: int)
    ensures EdgeValue(sx, sy) > 30 <==> sx * sx + sy * sy >= 8649
  {
    var q := SumOfSquares(sx, sy);
    ISqrtAtLeast(q / 9, 31);
    assert q / 9 >= 961 <==> q >= 8649;
  }

  /** Pixels before (y, x) hold their edge byte, the rest still hold 0. */
  ghost predicate EdgesScannedTo(e: seq<Byte>, s: seq<Byte>, w: nat, h: nat, y: int, x: int)
    requires |s| == w * h * 4
  {
    |e| == w * h &&
    forall p :: 0 <= p < w * h ==> e[p] == if PixelBefore(w, p, y, x) then EdgeAt(s, w, h, p) else 0
  }

  lemma EdgesRowDone(e: seq<Byte>, s: seq<Byte>, w: nat, h: nat, y: int, x: int)
    requires |s| == w * h * 4 && EdgesScannedTo(e, s, w, h, y, x) && 1 <= x && w <= x + 1
    ensures EdgesScannedTo(e, s, w, h, y + 1, 1)
  {}

  lemma EdgesFinish(e: seq<Byte>, s: seq<Byte>, w: nat, h: nat, y: int)
    requires |s| == w * h * 4 && EdgesScannedTo(e, s, w, h, y, 1) && 1 <= y && h <= y + 1
    ensures e == EdgeMap(s, w, h)
  {
    forall p | 0 <= p < w * h ensures e[p] == EdgeAt(s, w, h, p) {
      PixelDecompose(w, h, p);
    }
  }

  lemma EdgesWrite(e: seq<Byte>, s: seq<Byte>, w: nat, h: nat, y: int, x: int)
    requires |s| == w * h * 4 && EdgesScannedTo(e, s, w, h, y, x) && Interior(w, h, x, y)
    ensures PixelIdx(w, x, y) < w * h
    ensures EdgesScannedTo(e[PixelIdx(w, x, y) := EdgeAt(s, w, h, PixelIdx(w, x, y))], s, w, h, y, x + 1)
  {
    var k := PixelIdx(w, x, y);
    PixelInRange(w, h, x, y);
    PixelCoords(w, x, y);
    forall p | 0 <= p < w * h && p != k ensures PixelBefore(w, p, y, x + 1) == PixelBefore(w, p, y, x) {
      PixelDecompose(w, h, p);
    }
  }

  /** One more cell of the window: cell (ky+1)*3 + (kx+1) is pixel (x+kx, y+ky). */
  lemma GradientStep(s: seq<Byte>, w: nat, h: nat, x: int, y: int, kernel: seq<int>, ky: int, kx: int, k: nat)
    requires |s| == w * h * 4 && Interior(w, h, x, y) && SmallKernel(kernel)
    requires -1 <= ky <= 1 && -1 <= kx <= 1 && k == (ky + 1) * 3 + (kx + 1)
    ensures k < 9
    ensures Gradient(s, w, h, x, y, kernel, k + 1) ==
            Gradient(s, w, h, x, y, kernel, k) + Gray3(s, w, h, x + kx, y + ky) * kernel[k]
  {
    DivModUnique(k, 3, ky + 1, kx + 1);
  }

  /** The 3x3 loops of fastEdgeDetection for one interior pixel: gx and gy
      (here in thirds) accumulated over ky, kx in [-1, 1]. */
  method SobelSums(data: seq<Byte>, w: nat, h: nat, x: int, y: int) returns (gx: int, gy: int)
    requires |data| == w * h * 4 && Interior(w, h, x, y)
    ensures gx == Gradient(data, w, h, x, y, SobelX, 9)
    ensures gy == Gradient(data, w, h, x, y, SobelY, 9)
  {
    gx, gy := 0, 0;
    var ky := -1;
    while ky <= 1
      invariant -1 <= ky <= 2
      invariant gx == Gradient(data, w, h, x, y, SobelX, (ky + 1) * 3)
      invariant gy == Gradient(data, w, h, x, y, SobelY, (ky + 1) * 3)
    {
      var kx := -1;
      while kx <= 1
        invariant -1 <= kx <= 2
        invariant gx == Gradient(data, w, h, x, y, SobelX, (ky + 1) * 3 + (kx + 1))
        invariant gy == Gradient(data, w, h, x, y, SobelY, (ky + 1) * 3 + (kx + 1))
      {
        gx, gy := SobelTap(data, w, h, x, y, ky, kx, gx, gy);
        kx := kx + 1;
      }
      ky := ky + 1;
    }
  }

  /** One pass of the inner kernel loop: the tap at (kx, ky) is added to both sums. */
  method SobelTap(data: seq<Byte>, w: nat, h: nat, x: int, y: int, ky: int, kx: int, gx: int, gy: int)
    returns (gx': int, gy': int)
    requires |data| == w * h * 4 && Interior(w, h, x, y) && -1 <= ky <= 1 && -1 <= kx <= 1
    requires gx == Gradient(data, w, h, x, y, SobelX, (ky + 1) * 3 + (kx + 1))
    requires gy == Gradient(data, w, h, x, y, SobelY, (ky + 1) * 3 + (kx + 1))
    ensures gx' == Gradient(data, w, h, x, y, SobelX, (ky + 1) * 3 + (kx + 1) + 1)
    ensures gy' == Gradient(data, w, h, x, y, SobelY, (ky + 1) * 3 + (kx + 1) + 1)
  {
    var gray3 := Gray3(data, w, h, x + kx, y + ky);
    var kernelIdx := (ky + 1) * 3 + (kx + 1);
    GradientStep(data, w, h, x, y, SobelX, ky, kx, kernelIdx);
    GradientStep(data, w, h, x, y, SobelY, ky, kx, kernelIdx);
    gx' := gx + gray3 * SobelX[kernelIdx];
    gy' := gy + gray3 * SobelY[kernelIdx];
  }

  /** fastEdgeDetection: a zero-filled byte per pixel; for each interior pixel the
      3x3 loops accumulate gx and gy (in thirds), and the edge byte is stored. */
  method FastEdgeDetection(data: seq<Byte>, w: nat, h: nat) returns (edges: seq<Byte>)
    requires |data| == w * h * 4
    ensures edges == EdgeMap(data, w, h)
  {
    var e := new Byte[w * h](_ => 0);
    var y := 1;
    while y + 1 < h
      invariant 1 <= y && (h >= 2 ==> y <= h - 1)
      invariant EdgesScannedTo(e[..], data, w, h, y, 1)
    {
      var x := 1;
      while x + 1 < w
        invariant 1 <= x && (w >= 2 ==> x <= w - 1)
        invariant EdgesScannedTo(e[..], data, w, h, y, x)
      {
        var gx, gy := SobelSums(data, w, h, x, y);
        EdgesWrite(e[..], data, w, h, y, x);
        PixelCoords(w, x, y);
        e[PixelIdx(w, x, y)] := EdgeValue(gx, gy);
        x := x + 1;
      }
      EdgesRowDone(e[..], data, w, h, y, x);
      y := y + 1;
    }
    EdgesFinish(e[..], data, w, h, y);
    edges := e[..];
  }

  /** Border pixels of the edge map are 0. */
  lemma EdgeMapBorder(s: seq<Byte>, w: nat, h: nat, x: nat, y: nat)
    requires |s| == w * h * 4 && x < w && y < h && !Interior(w, h, x, y)
    ensures PixelIdx(w, x, y) < w * h && EdgeMap(s, w, h)[PixelIdx(w, x, y)] == 0
  {
    PixelInRange(w, h, x, y);
    PixelCoords(w, x, y);
  }

  /** The sum of the first n kernel weights. */
  function KernelSum(kernel: seq<int>, n: nat): int
    requires n <= |kernel|
  {
    if n == 0 then 0 else KernelSum(kernel, n - 1) + kernel[n - 1]
  }

  lemma Gray3Uniform(s: seq<Byte>, w: nat, h: nat, col: Color, x: int, y: int)
    requires |s| == w * h * 4 && Uniform(s, col) && 0 <= x < w && 0 <= y < h
    ensures Gray3(s, w, h, x, y) == col.r + col.g + col.b
  {
    UniformPx(s, w, h, col, x, y, 0);
    UniformPx(s, w, h, col, x, y, 1);
    UniformPx(s, w, h, col, x, y, 2);
  }

  /** On a uniform image every window cell has the same grey, so the gradient is
      that grey times the kernel's weight sum. */
  lemma {:induction false} GradientUniform(s: seq<Byte>, w: nat, h: nat, col: Color, x: int, y: int, kernel: seq<int>, n: nat)
    requires |s| == w * h * 4 && Uniform(s, col) && Interior(w, h, x, y) && SmallKernel(kernel) && n <= 9
    ensures Gradient(s, w, h, x, y, kernel, n) == (col.r + col.g + col.b) * KernelSum(kernel, n)
  {
    if n > 0 {
      var g := col.r + col.g + col.b;
      var cx, cy := x + (n - 1) % 3 - 1, y + (n - 1) / 3 - 1;
      GradientUniform(s, w, h, col, x, y, kernel, n - 1);
      Gray3Uniform(s, w, h, col, cx, cy);
      var k, prev := kernel[n - 1], KernelSum(kernel, n - 1);
      assert Gradient(s, w, h, x, y, kernel, n) == g * prev + g * k;
      Distribute(g, prev, k);
    }
  }

  lemma Distribute(g: int, a: int, b: int)
    ensures g * (a + b) == g * a + g * b
  {}

  /** Both Sobel kernels sum to zero, so a uniform image has no edges at all. */
  lemma EdgeMapUniform(s: seq<Byte>, w: nat, h: nat, col: Color)
    requires |s| == w * h * 4 && Uniform(s, col)
    ensures forall p :: 0 <= p < w * h ==> EdgeMap(s, w, h)[p] == 0
  {
    assert KernelSum(SobelX, 9) == 0 && KernelSum(SobelY, 9) == 0;
    forall p | 0 <= p < w * h ensures EdgeAt(s, w, h, p) == 0 {
      var x, y := PCol(w, p), PRow(w, p);
      if Interior(w, h, x, y) {
        GradientUniform(s, w, h, col, x, y, SobelX, 9);
        GradientUniform(s, w, h, col, x, y, SobelY, 9);
      }
    }
  }

  /** A colour byte v of a pixel with edge value ev, darkened by ev * strength * 0.5
      and floored at 0 by Math.max, as stored into the clamped buffer. A zero edge
      value or a zero strength leaves the byte as it was. */
  function Darken(v: Byte, ev: Byte, strength: real): (d: Byte)
    ensures ev == 0 || strength == 0.0 ==> d == v
  {
    ToUint8ClampOfByte(v);
    ToUint8Clamp(MaxReal(0.0, v as real - Shade(ev, strength)))
  }

  /** The amount subtracted from each colour byte of an edge pixel:
      edgeValue * strength * 0.5, never negative for a non-negative strength. */
  function Shade(ev: Byte, strength: real): (d: real)
    ensures strength >= 0.0 ==> d >= 0.0
  {
    ev as real * strength * 0.5
  }

  /** The byte addCleanEdges leaves at offset i, given the edge map e of the buffer
      as it was on entry: only colour bytes of pixels whose edge value exceeds 30
      are darkened. */
  function CleanEdgesAt(s: seq<Byte>, e: seq<Byte>, strength: real, i: int): Byte
    requires 0 <= i < |s| && |e| * 4 == |s|
  {
    var ev := e[i / 4];
    if ev > 30 && Chan(i) < 3 then Darken(s[i], ev, strength) else s[i]
  }

  /** The buffer addCleanEdges leaves behind. */
  function CleanEdges(s: seq<Byte>, w: nat, h: nat, strength: real): (r: seq<Byte>)
    requires |s| == w * h * 4
    ensures |r| == |s|
  {
    var e := EdgeMap(s, w, h);
    seq(|s|, i requires 0 <= i < |s| => CleanEdgesAt(s, e, strength, i))
  }

  /** The four bytes of the pixel at a multiple-of-4 offset i: alpha is kept, and
      the colour bytes are darkened exactly when the pixel's edge value exceeds 30. */
  lemma CleanPixel(s: seq<Byte>, e: seq<Byte>, strength: real, i: nat)
    requires i % 4 == 0 && i + 4 <= |s| && |e| * 4 == |s|
    ensures i / 4 < |e| && (i + 1) / 4 == i / 4 && (i + 2) / 4 == i / 4
    ensures CleanEdgesAt(s, e, strength, i) == if e[i / 4] > 30 then Darken(s[i], e[i / 4], strength) else s[i]
    ensures CleanEdgesAt(s, e, strength, i + 1) == if e[i / 4] > 30 then Darken(s[i + 1], e[i / 4], strength) else s[i + 1]
    ensures CleanEdgesAt(s, e, strength, i + 2) == if e[i / 4] > 30 then Darken(s[i + 2], e[i / 4], strength) else s[i + 2]
    ensures CleanEdgesAt(s, e, strength, i + 3) == s[i + 3]
  {
    assert Chan(i) == 0 && Chan(i + 1) == 1 && Chan(i + 2) == 2 && Chan(i + 3) == 3;
    assert (i + 3) / 4 == i / 4;
  }

  /** The darkening of one colour byte by an edge value, as a function value: the
      loop of addCleanEdges is proved for any such function. */
  function Darkener(strength: real): (Byte, Byte) -> Byte
  {
    (v: Byte, ev: Byte) => Darken(v, ev, strength)
  }

  /** The pixel at pixel offset p of t is that of s with its colour bytes darkened
      when its edge value e[p] exceeds 30, and its alpha kept. */
  ghost predicate PixelCleaned(t: seq<Byte>, s: seq<Byte>, e: seq<Byte>, darken: (Byte, Byte) -> Byte, p: int)
    requires |t| == |s| == |e| * 4 && 0 <= p < |e|
  {
    var ev := e[p];
    t[4 * p + 3] == s[4 * p + 3] &&
    if ev > 30 then
      t[4 * p] == darken(s[4 * p], ev) && t[4 * p + 1] == darken(s[4 * p + 1], ev) &&
      t[4 * p + 2] == darken(s[4 * p + 2], ev)
    else
      t[4 * p] == s[4 * p] && t[4 * p + 1] == s[4 * p + 1] && t[4 * p + 2] == s[4 * p + 2]
  }

  /** CleanEdges treats the pixel at pixel offset p by its own edge value. */
  lemma CleanEdgesPixel(s: seq<Byte>, w: nat, h: nat, strength: real, p: int)
    requires |s| == w * h * 4 && 0 <= p < w * h
    ensures PixelCleaned(CleanEdges(s, w, h, strength), s, EdgeMap(s, w, h), Darkener(strength), p)
  {
    var t, e := CleanEdges(s, w, h, strength), EdgeMap(s, w, h);
    var i := 4 * p;
    CleanPixel(s, e, strength, i);
    assert i / 4 == p;
    assert t[i] == CleanEdgesAt(s, e, strength, i) && t[i + 1] == CleanEdgesAt(s, e, strength, i + 1);
    assert t[i + 2] == CleanEdgesAt(s, e, strength, i + 2) && t[i + 3] == CleanEdgesAt(s, e, strength, i + 3);
  }

  /** CleanEdges treats every pixel by its own edge value. */
  lemma CleanEdgesPixels(s: seq<Byte>, w: nat, h: nat, strength: real)
    requires |s| == w * h * 4
    ensures forall p :: 0 <= p < w * h ==>
              PixelCleaned(CleanEdges(s, w, h, strength), s, EdgeMap(s, w, h), Darkener(strength), p)
  {
    forall p | 0 <= p < w * h
      ensures PixelCleaned(CleanEdges(s, w, h, strength), s, EdgeMap(s, w, h), Darkener(strength), p)
    {
      CleanEdgesPixel(s, w, h, strength, p);
    }
  }

  /** addCleanEdges: compute the edge map of a copy of the buffer, then for every
      pixel whose edge value exceeds 30 darken its red, green and blue in place. */
  method AddCleanEdges(data: array<Byte>, w: nat, h: nat, strength: real)
    requires data.Length == w * h * 4
    modifies data
    ensures data[..] == CleanEdges(old(data[..]), w, h, strength)
  {
    var original := data[..];
    var edges := FastEdgeDetection(original, w, h);
    CleanEdgesPixels(original, w, h, strength);
    DarkenEdges(data, edges, Darkener(strength), CleanEdges(original, w, h, strength));
  }

  /** The darkening loop of addCleanEdges, against a target that treats every pixel
      by its edge value. */
  method DarkenEdges(data: array<Byte>, edges: seq<Byte>, darken: (Byte, Byte) -> Byte, ghost t: seq<Byte>)
    requires data.Length == |edges| * 4 && |t| == data.Length
    requires forall p :: 0 <= p < |edges| ==> PixelCleaned(t, data[..], edges, darken, p)
    modifies data
    ensures data[..] == t
  {
    ghost var original := data[..];
    var i := 0;
    ghost var p := 0;
    while i < data.Length
      invariant 0 <= i <= data.Length && i == 4 * p
      invariant Scan.DoneUpTo(data[..], t, original, i)
    {
      assert i / 4 == p;
      assert PixelCleaned(t, original, edges, darken, p);
      ghost var before := data[..];
      var edgeValue := edges[i / 4];
      if edgeValue > 30 {
        data[i] := darken(data[i], edgeValue);
        data[i + 1] := darken(data[i + 1], edgeValue);
        data[i + 2] := darken(data[i + 2], edgeValue);
        ghost var col := Color(data[i], data[i + 1], data[i + 2]);
        ghost var after: seq<Byte> := before[i := col.r][i + 1 := col.g][i + 2 := col.b];
        assert data[..] == after;
        Scan.DonePixel(before, t, original, p, col);
      } else {
        Scan.DoneKept(before, t, original, p);
      }
      i := i + 4;
      p := p + 1;
    }
    assert data[..] == t;
  }

  /** Only colour bytes of interior pixels with Sx^2 + Sy^2 >= 9 * 31^2 (an edge
      value above 30) can change. */
  lemma CleanEdgesChangesOnlyEdges(s: seq<Byte>, w: nat, h: nat, strength: real, i: nat)
    requires |s| == w * h * 4 && i < |s|
    requires CleanEdges(s, w, h, strength)[i] != s[i]
    ensures Chan(i) < 3
    ensures Interior(w, h, Col(w, i), Row(w, i))
    ensures var x, y := Col(w, i), Row(w, i);
            var sx, sy := Gradient(s, w, h, x, y, SobelX, 9), Gradient(s, w, h, x, y, SobelY, 9);
            sx * sx + sy * sy >= 8649
  {
    var x, y := Col(w, i), Row(w, i);
    EdgeThreshold(Gradient(s, w, h, x, y, SobelX, 9), Gradient(s, w, h, x, y, SobelY, 9));
  }

  /** Darkening by a non-negative strength never raises a byte. */
  lemma DarkenAtMost(v: Byte, ev: Byte, strength: real)
    requires strength >= 0.0
    ensures Darken(v, ev, strength) <= v
  {
    var x := MaxReal(0.0, v as real - Shade(ev, strength));
    assert x <= v as real;
    ToUint8ClampAtMost(x, v);
  }

  /** With a non-negative strength no byte grows: edges only darken. */
  lemma CleanEdgesDarkens(s: seq<Byte>, w: nat, h: nat, strength: real, i: nat)
    requires |s| == w * h * 4 && i < |s| && strength >= 0.0
    ensures CleanEdges(s, w, h, strength)[i] <= s[i]
  {
    var e := EdgeMap(s, w, h);
    assert CleanEdges(s, w, h, strength)[i] == CleanEdgesAt(s, e, strength, i);
    DarkenAtMost(s[i], e[i / 4], strength);
  }

  /** A uniform image has no edges to darken and comes back unchanged. */
  lemma CleanEdgesUniform(s: seq<Byte>, w: nat, h: nat, col: Color, strength: real)
    requires |s| == w * h * 4 && Uniform(s, col)
    ensures CleanEdges(s, w, h, strength) == s
  {
    EdgeMapUniform(s, w, h, col);
  }
}
