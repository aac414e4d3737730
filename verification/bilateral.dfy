/** fastBilateralFilter: an edge-preserving blur, in place. Every pixel at least
    r = floor(d/2) pixels from the border gets, for red, green and blue, the
    weighted average of its (2r+1)x(2r+1) window in a copy of the input, each
    neighbour (dx, dy) weighted by a spatial weight of dx*dx + dy*dy times a colour
    weight of the summed absolute channel differences to the centre; the pixel is
    written only when the total weight is positive. The source's weights are
    Math.exp of -dist/(2*sigmaSpace^2) and of -dist/sigmaColor; here they are
    functions of those distances passed in by the caller. */
module Bilateral {
  import opened Bytes
  import opened Raster
  import Scan

  /** Side of the window of radius r. */
  function Side(r: nat): nat { 2 * r + 1 }

  /** Index of the neighbour (dx, dy) in the order the loops visit the window (dy
      outer, dx inner, both from -r to r): weightIdx, the index into the
      precomputed spatial weights. */
  function WindowIdx(r: nat, dy: int, dx: int): int { (dy + r) * Side(r) + (dx + r) }

  /** Offsets of the neighbour at index k. */
  function DX(r: nat, k: nat): int { k % Side(r) - r }
  function DY(r: nat, k: nat): int { k / Side(r) - r }

  /** dx * dx + dy * dy for the neighbour at index k. */
  function SpatialDist(r: nat, k: nat): int { DX(r, k) * DX(r, k) + DY(r, k) * DY(r, k) }

  /** The neighbour (dx, dy) has an index inside the window, from which its
      offsets are recovered. */
  lemma WindowIndex(r: nat, dy: int, dx: int)
    requires -(r as int) <= dy <= r && -(r as int) <= dx <= r
    ensures 0 <= WindowIdx(r, dy, dx) < Side(r) * Side(r)
    ensures DX(r, WindowIdx(r, dy, dx)) == dx && DY(r, WindowIdx(r, dy, dx)) == dy
  {
    var n := Side(r);
    var k := (dy + r) * n + (dx + r);
    DivModUnique(k, n, dy + r, dx + r);
    MulMonotone(dy + r, n - 1, n);
    assert (n - 1) * n + n == n * n;
  }

  /** The neighbour (dx, dy) has an index inside the window. */
  lemma WindowIdxBound(r: nat, dy: int, dx: int)
    requires -(r as int) <= dy <= r && -(r as int) <= dx <= r
    ensures 0 <= WindowIdx(r, dy, dx) < Side(r) * Side(r)
  {
    MulMonotone(dy + r, Side(r) - 1, Side(r));
    assert (Side(r) - 1) * Side(r) + Side(r) == Side(r) * Side(r);
  }

  /** The end of a window row is the start of the next. */
  lemma NextWindowRow(r: nat, dy: int)
    ensures WindowIdx(r, dy, r + 1) == WindowIdx(r, dy + 1, -(r as int))
  {
    assert (dy + r) * Side(r) + Side(r) == (dy + 1 + r) * Side(r);
  }

  /** The last window row ends at index (2r+1)^2. */
  lemma LastWindowRow(r: nat)
    ensures WindowIdx(r, r + 1, -(r as int)) == Side(r) * Side(r)
  {}

  function Abs(v: int): nat { if v < 0 then -v else v }

  /** The neighbour (dx, dy) of (x, y) lies inside the image. For a centre at least
      r from the border this holds for the whole window, so the zero results below
      for other neighbours never enter the filter. */
  predicate InImage(w: nat, h: nat, x: int, y: int, dx: int, dy: int)
  {
    0 <= x < w && 0 <= y < h && 0 <= x + dx < w && 0 <= y + dy < h
  }

  /** Sum of the absolute red, green and blue differences of two pixels. */
  function ColorDist(s: seq<Byte>, w: nat, h: nat, x: int, y: int, nx: int, ny: int): nat
    requires |s| == w * h * 4 && 0 <= x < w && 0 <= y < h && 0 <= nx < w && 0 <= ny < h
  {
    Abs(Px(s, w, h, x, y, 0) - Px(s, w, h, nx, ny, 0)) +
    Abs(Px(s, w, h, x, y, 1) - Px(s, w, h, nx, ny, 1)) +
    Abs(Px(s, w, h, x, y, 2) - Px(s, w, h, nx, ny, 2))
  }

  /** The running sums of the window loops: sumR, sumG, sumB and sumWeight. */
  datatype Sums = Sums(r: real, g: real, b: real, weight: real)
  {
    /** sumR, sumG or sumB for c = 0, 1, 2. */
    function Channel(c: int): real
      requires 0 <= c < 3
    {
      if c == 0 then r else if c == 1 then g else b
    }

    function Plus(o: Sums): Sums { Sums(r + o.r, g + o.g, b + o.b, weight + o.weight) }
  }

  const NoSums := Sums(0.0, 0.0, 0.0, 0.0)

  /** The weight of the neighbour (dx, dy) of (x, y): the spatial weight of
      dx*dx + dy*dy times the colour weight of its distance to the centre. */
  function NeighbourWeight(s: seq<Byte>, w: nat, h: nat, x: int, y: int, dx: int, dy: int,
                           spaceWeight: int -> real, colorWeight: int -> real): real
    requires |s| == w * h * 4 && InImage(w, h, x, y, dx, dy)
  {
    spaceWeight(dx * dx + dy * dy) * colorWeight(ColorDist(s, w, h, x, y, x + dx, y + dy))
  }

  /** The sums one pixel adds: its red, green and blue times its weight, and the weight. */
  function Scaled(red: Byte, green: Byte, blue: Byte, weight: real): Sums
  {
    Sums(red as real * weight, green as real * weight, blue as real * weight, weight)
  }

  /** What the neighbour (dx, dy) of (x, y) adds to the sums; nothing when it lies
      outside the image. */
  function Neighbour(s: seq<Byte>, w: nat, h: nat, x: int, y: int, dx: int, dy: int,
                     spaceWeight: int -> real, colorWeight: int -> real): Sums
  {
    if |s| == w * h * 4 && InImage(w, h, x, y, dx, dy) then
      Scaled(Px(s, w, h, x + dx, y + dy, 0), Px(s, w, h, x + dx, y + dy, 1), Px(s, w, h, x + dx, y + dy, 2),
             NeighbourWeight(s, w, h, x, y, dx, dy, spaceWeight, colorWeight))
    else NoSums
  }

  /** A neighbour inside the image adds its colour scaled by its weight. */
  lemma NeighbourInside(s: seq<Byte>, w: nat, h: nat, x: int, y: int, dx: int, dy: int,
                        spaceWeight: int -> real, colorWeight: int -> real)
    requires |s| == w * h * 4 && InImage(w, h, x, y, dx, dy)
    ensures Neighbour(s, w, h, x, y, dx, dy, spaceWeight, colorWeight) ==
              Scaled(Px(s, w, h, x + dx, y + dy, 0), Px(s, w, h, x + dx, y + dy, 1), Px(s, w, h, x + dx, y + dy, 2),
                     NeighbourWeight(s, w, h, x, y, dx, dy, spaceWeight, colorWeight))
  {}

  /** The neighbours of (x, y), as a function of (dx, dy). */
  function NeighboursOf(s: seq<Byte>, w: nat, h: nat, x: int, y: int,
                        spaceWeight: int -> real, colorWeight: int -> real): (int, int) -> Sums
  {
    (dx, dy) => Neighbour(s, w, h, x, y, dx, dy, spaceWeight, colorWeight)
  }

  /** The sums over the first n neighbours of window row dy (dx = -r, ..., n-1-r),
      each neighbour contributing nf(dx, dy). */
  function RowSums(nf: (int, int) -> Sums, r: nat, dy: int, n: nat): Sums
  {
    if n == 0 then NoSums else RowSums(nf, r, dy, n - 1).Plus(nf(n - 1 - r, dy))
  }

  /** The sums over the first m window rows (dy = -r, ..., m-1-r). */
  function SumsUpTo(nf: (int, int) -> Sums, r: nat, m: nat): Sums
  {
    if m == 0 then NoSums else SumsUpTo(nf, r, m - 1).Plus(RowSums(nf, r, m - 1 - r, Side(r)))
  }

  /** The sums over the whole window. */
  function WindowTotal(nf: (int, int) -> Sums, r: nat): Sums
  {
    SumsUpTo(nf, r, Side(r))
  }

  /** nf gives, at (dx, dy), what the neighbour (dx, dy) of (x, y) adds. */
  ghost predicate Linked(nf: (int, int) -> Sums, s: seq<Byte>, w: nat, h: nat, x: int, y: int,
                         spaceWeight: int -> real, colorWeight: int -> real, dx: int, dy: int)
  {
    nf(dx, dy) == Neighbour(s, w, h, x, y, dx, dy, spaceWeight, colorWeight)
  }

  /** nf agrees with the neighbours of (x, y) on the window of radius r. */
  ghost predicate LinkedWindow(nf: (int, int) -> Sums, s: seq<Byte>, w: nat, h: nat, r: nat, x: int, y: int,
                               spaceWeight: int -> real, colorWeight: int -> real)
  {
    forall dy, dx :: -(r as int) <= dy <= r && -(r as int) <= dx <= r ==>
      Linked(nf, s, w, h, x, y, spaceWeight, colorWeight, dx, dy)
  }

  lemma NeighboursOfLinked(s: seq<Byte>, w: nat, h: nat, r: nat, x: int, y: int,
                           spaceWeight: int -> real, colorWeight: int -> real)
    ensures LinkedWindow(NeighboursOf(s, w, h, x, y, spaceWeight, colorWeight), s, w, h, r, x, y, spaceWeight, colorWeight)
  {}

  /** The byte the filter leaves at offset i: pixels closer than r to the border,
      and alpha bytes, keep the input byte. */
  function BilateralAt(s: seq<Byte>, w: nat, h: nat, r: nat,
                       spaceWeight: int -> real, colorWeight: int -> real, i: int): (b: Byte)
    requires |s| == w * h * 4 && 0 <= i < |s|
    ensures !Inset(w, h, r, Col(w, i), Row(w, i)) || Chan(i) == 3 ==> b == s[i]
  {
    var x, y, c := Col(w, i), Row(w, i), Chan(i);
    if Inset(w, h, r, x, y) && c < 3 then
      var sums := WindowTotal(NeighboursOf(s, w, h, x, y, spaceWeight, colorWeight), r);
      if sums.weight > 0.0 then ToUint8Clamp(sums.Channel(c) / sums.weight) else s[i]
    else s[i]
  }

  /** The buffer after the filter with window radius r. */
  function Bilateral(s: seq<Byte>, w: nat, h: nat, r: nat,
                     spaceWeight: int -> real, colorWeight: int -> real): (t: seq<Byte>)
    requires |s| == w * h * 4
    ensures |t| == |s|
  {
    seq(|s|, i requires 0 <= i < |s| => BilateralAt(s, w, h, r, spaceWeight, colorWeight, i))
  }

  /** Pixels within r of the border, and every alpha byte, come out unchanged. */
  lemma BilateralKeepsBorder(s: seq<Byte>, w: nat, h: nat, r: nat,
                             spaceWeight: int -> real, colorWeight: int -> real)
    requires |s| == w * h * 4
    ensures Scan.BorderKept(s, Bilateral(s, w, h, r, spaceWeight, colorWeight), w, h, r)
  {}

  /** The filter's byte for channel c of the pixel (x, y). */
  lemma BilateralPixel(s: seq<Byte>, w: nat, h: nat, r: nat,
                       spaceWeight: int -> real, colorWeight: int -> real, x: int, y: int, c: int)
    requires |s| == w * h * 4 && Inset(w, h, r, x, y) && 0 <= c < 3
    ensures Idx(w, x, y, c) < |s|
    ensures var sums := WindowTotal(NeighboursOf(s, w, h, x, y, spaceWeight, colorWeight), r);
            Bilateral(s, w, h, r, spaceWeight, colorWeight)[Idx(w, x, y, c)] ==
              if sums.weight > 0.0 then ToUint8Clamp(sums.Channel(c) / sums.weight) else s[Idx(w, x, y, c)]
  {
    IdxInRange(w, h, x, y, c);
    IdxCoords(w, x, y, c);
  }

  /** v has a non-negative weight and its channel c lies between lo and hi times
      that weight: the sums of neighbours whose channel c lies in [lo, hi]. */
  predicate Bounded(v: Sums, c: int, lo: real, hi: real)
    requires 0 <= c < 3
  {
    v.weight >= 0.0 && lo * v.weight <= v.Channel(c) <= hi * v.weight
  }

  lemma PlusBounded(a: Sums, b: Sums, c: int, lo: real, hi: real)
    requires 0 <= c < 3 && Bounded(a, c, lo, hi) && Bounded(b, c, lo, hi)
    ensures Bounded(a.Plus(b), c, lo, hi)
  {
    assert lo * (a.weight + b.weight) == lo * a.weight + lo * b.weight;
    assert hi * (a.weight + b.weight) == hi * a.weight + hi * b.weight;
  }

  /** A window row of bounded neighbours has bounded sums. */
  lemma {:induction false} RowBounded(nf: (int, int) -> Sums, r: nat, dy: int, n: nat, c: int, lo: real, hi: real)
    requires 0 <= c < 3 && n <= Side(r)
    requires forall dx :: -(r as int) <= dx <= r ==> Bounded(nf(dx, dy), c, lo, hi)
    ensures Bounded(RowSums(nf, r, dy, n), c, lo, hi)
  {
    if n > 0 {
      RowBounded(nf, r, dy, n - 1, c, lo, hi);
      PlusBounded(RowSums(nf, r, dy, n - 1), nf(n - 1 - r, dy), c, lo, hi);
    }
  }

  /** A window of bounded neighbours has bounded sums. */
  lemma {:induction false} SumsBounded(nf: (int, int) -> Sums, r: nat, m: nat, c: int, lo: real, hi: real)
    requires 0 <= c < 3 && m <= Side(r)
    requires forall dy, dx :: -(r as int) <= dy <= r && -(r as int) <= dx <= r ==> Bounded(nf(dx, dy), c, lo, hi)
    ensures Bounded(SumsUpTo(nf, r, m), c, lo, hi)
  {
    if m > 0 {
      SumsBounded(nf, r, m - 1, c, lo, hi);
      RowBounded(nf, r, m - 1 - r, Side(r), c, lo, hi);
      PlusBounded(SumsUpTo(nf, r, m - 1), RowSums(nf, r, m - 1 - r, Side(r)), c, lo, hi);
    }
  }

  /** The weighted average of bounded sums lies in [lo, hi]. */
  lemma AverageBounded(v: Sums, c: int, lo: real, hi: real)
    requires 0 <= c < 3 && Bounded(v, c, lo, hi) && v.weight > 0.0
    ensures lo <= v.Channel(c) / v.weight <= hi
  {
    var sum, total := v.Channel(c), v.weight;
    assert sum / total - lo == (sum - lo * total) / total;
    assert hi - sum / total == (hi * total - sum) / total;
  }

  /** With non-negative weights, a neighbour whose channel c lies in [lo, hi]
      contributes bounded sums. */
  lemma NeighbourBounded(s: seq<Byte>, w: nat, h: nat, x: int, y: int, dx: int, dy: int,
                         spaceWeight: int -> real, colorWeight: int -> real, c: int, lo: Byte, hi: Byte)
    requires |s| == w * h * 4 && InImage(w, h, x, y, dx, dy) && 0 <= c < 3
    requires forall d :: spaceWeight(d) >= 0.0
    requires forall d :: colorWeight(d) >= 0.0
    requires lo <= Px(s, w, h, x + dx, y + dy, c) <= hi
    ensures Bounded(Neighbour(s, w, h, x, y, dx, dy, spaceWeight, colorWeight), c, lo as real, hi as real)
  {
    NeighbourInside(s, w, h, x, y, dx, dy, spaceWeight, colorWeight);
    NonNegativeProduct(spaceWeight(dx * dx + dy * dy), colorWeight(ColorDist(s, w, h, x, y, x + dx, y + dy)));
    ScaledBounded(Px(s, w, h, x + dx, y + dy, 0), Px(s, w, h, x + dx, y + dy, 1), Px(s, w, h, x + dx, y + dy, 2),
                  NeighbourWeight(s, w, h, x, y, dx, dy, spaceWeight, colorWeight), c, lo, hi);
  }

  /** A colour whose channel c lies in [lo, hi], scaled by a non-negative weight. */
  lemma ScaledBounded(red: Byte, green: Byte, blue: Byte, weight: real, c: int, lo: Byte, hi: Byte)
    requires 0 <= c < 3 && weight >= 0.0
    requires lo <= Color(red, green, blue).Channel(c) <= hi
    ensures Bounded(Scaled(red, green, blue, weight), c, lo as real, hi as real)
  {
    var v := Color(red, green, blue).Channel(c);
    ScaledChannel(red, green, blue, weight, c);
    ScaleBetween(lo as real, v as real, hi as real, weight);
  }

  /** Channel c of a scaled colour is the colour's channel c times the weight. */
  lemma ScaledChannel(red: Byte, green: Byte, blue: Byte, weight: real, c: int)
    requires 0 <= c < 3
    ensures Scaled(red, green, blue, weight).Channel(c) == Color(red, green, blue).Channel(c) as real * weight
  {}

  lemma NonNegativeProduct(a: real, b: real)
    requires a >= 0.0 && b >= 0.0
    ensures a * b >= 0.0
  {}

  lemma ScaleBetween(lo: real, v: real, hi: real, k: real)
    requires lo <= v <= hi && k >= 0.0
    ensures lo * k <= v * k <= hi * k
  {
    ScaleMonotone(lo, v, k);
    ScaleMonotone(v, hi, k);
  }

  lemma ScaleMonotone(a: real, b: real, k: real)
    requires a <= b && k >= 0.0
    ensures a * k <= b * k
  {}

  /** The filter keeps every colour byte within the range of its window: when
      every pixel of the window of (x, y) has channel c in [lo, hi], so does the
      result at (x, y). The weights are non-negative, as Math.exp values are. */
  lemma BilateralWithinWindow(s: seq<Byte>, w: nat, h: nat, r: nat,
                              spaceWeight: int -> real, colorWeight: int -> real,
                              x: int, y: int, c: int, lo: Byte, hi: Byte)
    requires |s| == w * h * 4 && Inset(w, h, r, x, y) && 0 <= c < 3
    requires forall d :: spaceWeight(d) >= 0.0
    requires forall d :: colorWeight(d) >= 0.0
    requires forall nx, ny :: x - r <= nx <= x + r && y - r <= ny <= y + r ==> lo <= Px(s, w, h, nx, ny, c) <= hi
    ensures Idx(w, x, y, c) < |s|
    ensures lo <= Bilateral(s, w, h, r, spaceWeight, colorWeight)[Idx(w, x, y, c)] <= hi
  {
    var nf := NeighboursOf(s, w, h, x, y, spaceWeight, colorWeight);
    forall dy, dx | -(r as int) <= dy <= r && -(r as int) <= dx <= r
      ensures Bounded(nf(dx, dy), c, lo as real, hi as real)
    {
      assert lo <= Px(s, w, h, x + dx, y + dy, c) <= hi;
      NeighbourBounded(s, w, h, x, y, dx, dy, spaceWeight, colorWeight, c, lo, hi);
    }
    SumsBounded(nf, r, Side(r), c, lo as real, hi as real);
    BilateralPixel(s, w, h, r, spaceWeight, colorWeight, x, y, c);
    var sums := WindowTotal(nf, r);
    if sums.weight > 0.0 {
      AverageBounded(sums, c, lo as real, hi as real);
      var q := sums.Channel(c) / sums.weight;
      ToUint8ClampMonotone(lo as real, q);
      ToUint8ClampOfByte(lo);
      ToUint8ClampAtMost(q, hi);
    } else {
      assert lo <= Px(s, w, h, x, y, c) <= hi;
    }
  }

  /** A uniform image is a fixed point of the filter. */
  lemma BilateralUniform(s: seq<Byte>, w: nat, h: nat, r: nat, spaceWeight: int -> real, colorWeight: int -> real,
                         col: Color)
    requires |s| == w * h * 4 && Uniform(s, col)
    requires forall d :: spaceWeight(d) >= 0.0
    requires forall d :: colorWeight(d) >= 0.0
    ensures Bilateral(s, w, h, r, spaceWeight, colorWeight) == s
  {
    var t := Bilateral(s, w, h, r, spaceWeight, colorWeight);
    forall i | 0 <= i < |s| ensures t[i] == s[i] {
      Decompose(w, h, i);
      var x, y, c := Col(w, i), Row(w, i), Chan(i);
      if Inset(w, h, r, x, y) && c < 3 {
        var v := col.Channel(c);
        forall nx, ny | x - r <= nx <= x + r && y - r <= ny <= y + r ensures v <= Px(s, w, h, nx, ny, c) <= v {
          UniformPx(s, w, h, col, nx, ny, c);
        }
        BilateralWithinWindow(s, w, h, r, spaceWeight, colorWeight, x, y, c, v, v);
        UniformPx(s, w, h, col, x, y, c);
      }
    }
  }

  /** The precomputed spatial weights, in the window order. */
  method SpatialWeights(r: nat, spaceWeight: int -> real) returns (weights: seq<real>)
    ensures |weights| == Side(r) * Side(r)
    ensures forall k :: 0 <= k < |weights| ==> weights[k] == spaceWeight(SpatialDist(r, k))
  {
    weights := [];
    var dy := -(r as int);
    while dy <= r
      invariant -(r as int) <= dy <= r + 1
      invariant |weights| == WindowIdx(r, dy, -(r as int))
      invariant forall k :: 0 <= k < |weights| ==> weights[k] == spaceWeight(SpatialDist(r, k))
    {
      var dx := -(r as int);
      while dx <= r
        invariant -(r as int) <= dx <= r + 1
        invariant |weights| == WindowIdx(r, dy, dx)
        invariant forall k :: 0 <= k < |weights| ==> weights[k] == spaceWeight(SpatialDist(r, k))
      {
        WindowIndex(r, dy, dx);
        var spatialDist := dx * dx + dy * dy;
        weights := weights + [spaceWeight(spatialDist)];
        dx := dx + 1;
      }
      NextWindowRow(r, dy);
      dy := dy + 1;
    }
    LastWindowRow(r);
  }

  /** The precomputed spatial weights, looked up by neighbour: weightIdx of (dx, dy)
      holds the spatial weight of dx*dx + dy*dy. */
  ghost predicate SpatialTable(weights: seq<real>, r: nat, spaceWeight: int -> real)
  {
    |weights| == Side(r) * Side(r) &&
    forall dy, dx {:trigger weights[WindowIdx(r, dy, dx)]} :: -(r as int) <= dy <= r && -(r as int) <= dx <= r ==>
      0 <= WindowIdx(r, dy, dx) < |weights| && weights[WindowIdx(r, dy, dx)] == spaceWeight(dx * dx + dy * dy)
  }

  /** The weights SpatialWeights builds are such a table. */
  lemma SpatialTableOfWeights(weights: seq<real>, r: nat, spaceWeight: int -> real)
    requires |weights| == Side(r) * Side(r)
    requires forall k :: 0 <= k < |weights| ==> weights[k] == spaceWeight(SpatialDist(r, k))
    ensures SpatialTable(weights, r, spaceWeight)
  {
    forall dy, dx | -(r as int) <= dy <= r && -(r as int) <= dx <= r
      ensures 0 <= WindowIdx(r, dy, dx) < |weights| && weights[WindowIdx(r, dy, dx)] == spaceWeight(dx * dx + dy * dy)
    {
      WindowIndex(r, dy, dx);
    }
  }

  /** The window loops for one centre: sumR, sumG, sumB and sumWeight, as the sums
      of nf over the window, nf being the neighbours of (x, y). */
  method WindowSums(original: seq<Byte>, w: nat, h: nat, r: nat, x: int, y: int, spatialWeights: seq<real>,
                    ghost spaceWeight: int -> real, colorWeight: int -> real, ghost nf: (int, int) -> Sums)
    returns (sumR: real, sumG: real, sumB: real, sumWeight: real)
    requires |original| == w * h * 4 && Inset(w, h, r, x, y)
    requires SpatialTable(spatialWeights, r, spaceWeight)
    requires LinkedWindow(nf, original, w, h, r, x, y, spaceWeight, colorWeight)
    ensures Sums(sumR, sumG, sumB, sumWeight) == WindowTotal(nf, r)
  {
    sumR, sumG, sumB, sumWeight := 0.0, 0.0, 0.0, 0.0;
    var weightIdx: nat := 0;
    var dy := -(r as int);
    ghost var rows: nat := 0;
    while dy <= r
      invariant -(r as int) <= dy <= r + 1 && rows == dy + r
      invariant weightIdx == WindowIdx(r, dy, -(r as int))
      invariant Sums(sumR, sumG, sumB, sumWeight) == SumsUpTo(nf, r, rows)
    {
      sumR, sumG, sumB, sumWeight, weightIdx :=
        WindowRow(original, w, h, r, x, y, spatialWeights, spaceWeight, colorWeight, nf, dy,
                  sumR, sumG, sumB, sumWeight, weightIdx);
      NextWindowRow(r, dy);
      dy := dy + 1;
      rows := rows + 1;
    }
  }

  /** The inner loop (dx from -r to r) for the window row dy, continuing the sums
      of the rows above it. */
  method WindowRow(original: seq<Byte>, w: nat, h: nat, r: nat, x: int, y: int, spatialWeights: seq<real>,
                   ghost spaceWeight: int -> real, colorWeight: int -> real, ghost nf: (int, int) -> Sums, dy: int,
                   sumR0: real, sumG0: real, sumB0: real, sumWeight0: real, weightIdx0: nat)
    returns (sumR: real, sumG: real, sumB: real, sumWeight: real, weightIdx: nat)
    requires |original| == w * h * 4 && Inset(w, h, r, x, y)
    requires SpatialTable(spatialWeights, r, spaceWeight)
    requires LinkedWindow(nf, original, w, h, r, x, y, spaceWeight, colorWeight)
    requires -(r as int) <= dy <= r && weightIdx0 == WindowIdx(r, dy, -(r as int))
    ensures weightIdx == WindowIdx(r, dy, r + 1)
    ensures Sums(sumR, sumG, sumB, sumWeight) == Sums(sumR0, sumG0, sumB0, sumWeight0).Plus(RowSums(nf, r, dy, Side(r)))
  {
    sumR, sumG, sumB, sumWeight, weightIdx := sumR0, sumG0, sumB0, sumWeight0, weightIdx0;
    var dx := -(r as int);
    ghost var n: nat := 0;
    while dx <= r
      invariant -(r as int) <= dx <= r + 1 && n == dx + r
      invariant weightIdx == WindowIdx(r, dy, dx)
      invariant Sums(sumR, sumG, sumB, sumWeight) == Sums(sumR0, sumG0, sumB0, sumWeight0).Plus(RowSums(nf, r, dy, n))
    {
      assert Linked(nf, original, w, h, x, y, spaceWeight, colorWeight, dx, dy);
      sumR, sumG, sumB, sumWeight :=
        AddNeighbour(original, w, h, r, x, y, spatialWeights, weightIdx, spaceWeight, colorWeight, dy, dx,
                     sumR, sumG, sumB, sumWeight);
      assert RowSums(nf, r, dy, n + 1) == RowSums(nf, r, dy, n).Plus(nf(dx, dy));
      weightIdx := weightIdx + 1;
      dx := dx + 1;
      n := n + 1;
    }
  }

  /** One pass of the inner loop: the neighbour (dx, dy) adds its channels times
      its weight to sumR, sumG and sumB, and its weight to sumWeight. */
  method AddNeighbour(original: seq<Byte>, w: nat, h: nat, r: nat, x: int, y: int, spatialWeights: seq<real>,
                      weightIdx: nat, ghost spaceWeight: int -> real, colorWeight: int -> real, dy: int, dx: int,
                      sumR0: real, sumG0: real, sumB0: real, sumWeight0: real)
    returns (sumR: real, sumG: real, sumB: real, sumWeight: real)
    requires |original| == w * h * 4 && Inset(w, h, r, x, y)
    requires SpatialTable(spatialWeights, r, spaceWeight)
    requires -(r as int) <= dy <= r && -(r as int) <= dx <= r && weightIdx == WindowIdx(r, dy, dx)
    ensures Sums(sumR, sumG, sumB, sumWeight) ==
              Sums(sumR0, sumG0, sumB0, sumWeight0).Plus(Neighbour(original, w, h, x, y, dx, dy, spaceWeight, colorWeight))
  {
    assert InImage(w, h, x, y, dx, dy);
    WindowIdxBound(r, dy, dx);
    var spatialWeight := spatialWeights[weightIdx];
    var colorDist := ColorDist(original, w, h, x, y, x + dx, y + dy);
    var weight := spatialWeight * colorWeight(colorDist);
    assert weight == NeighbourWeight(original, w, h, x, y, dx, dy, spaceWeight, colorWeight);
    var nr, ng, nb := Px(original, w, h, x + dx, y + dy, 0), Px(original, w, h, x + dx, y + dy, 1), Px(original, w, h, x + dx, y + dy, 2);
    NeighbourInside(original, w, h, x, y, dx, dy, spaceWeight, colorWeight);
    sumR := sumR0 + nr as real * weight;
    sumG := sumG0 + ng as real * weight;
    sumB := sumB0 + nb as real * weight;
    sumWeight := sumWeight0 + weight;
    AddScaled(Sums(sumR0, sumG0, sumB0, sumWeight0), nr, ng, nb, weight);
  }

  /** Adding a scaled colour to the sums, channel by channel. */
  lemma AddScaled(acc: Sums, red: Byte, green: Byte, blue: Byte, weight: real)
    ensures acc.Plus(Scaled(red, green, blue, weight)) ==
              Sums(acc.r + red as real * weight, acc.g + green as real * weight, acc.b + blue as real * weight,
                   acc.weight + weight)
  {}

  /** fastBilateralFilter(data, width, height, d, ...), in place. */
  method FastBilateralFilter(data: array<Byte>, width: nat, height: nat, d: nat,
                             spaceWeight: int -> real, colorWeight: int -> real)
    requires data.Length == width * height * 4
    modifies data
    ensures data[..] == Bilateral(old(data[..]), width, height, d / 2, spaceWeight, colorWeight)
  {
    var original := data[..];
    var radius := d / 2;
    ghost var t := Bilateral(original, width, height, radius, spaceWeight, colorWeight);
    BilateralKeepsBorder(original, width, height, radius, spaceWeight, colorWeight);
    var spatialWeights := SpatialWeights(radius, spaceWeight);
    SpatialTableOfWeights(spatialWeights, radius, spaceWeight);
    Scan.ScanStart(original, t, width, height, radius);
    var y := radius;
    while y < height - radius
      invariant radius <= y
      invariant Scan.ScannedTo(data[..], original, t, width, y, 0, 0)
    {
      Scan.ScanRowStart(data[..], original, t, width, height, radius, y);
      var x := radius;
      while x < width - radius
        invariant radius <= x
        invariant Scan.ScannedTo(data[..], original, t, width, y, x, 0)
      {
        NeighboursOfLinked(original, width, height, radius, x, y, spaceWeight, colorWeight);
        var sumR, sumG, sumB, sumWeight :=
          WindowSums(original, width, height, radius, x, y, spatialWeights, spaceWeight, colorWeight,
                     NeighboursOf(original, width, height, x, y, spaceWeight, colorWeight));
        FilterPixel(data, original, t, width, height, radius, x, y, spaceWeight, colorWeight,
                    sumR, sumG, sumB, sumWeight);
        Scan.ScanPixelDone(data[..], original, t, width, height, radius, y, x);
        x := x + 1;
      }
      Scan.ScanRowDone(data[..], original, t, width, height, radius, y, x);
      y := y + 1;
    }
    Scan.ScanFinish(data[..], original, t, width, height, radius, y);
  }

  /** The write of one centre: the three weighted averages when sumWeight > 0,
      nothing otherwise. */
  method FilterPixel(data: array<Byte>, ghost original: seq<Byte>, ghost t: seq<Byte>,
                     width: nat, height: nat, radius: nat, x: nat, y: nat,
                     ghost spaceWeight: int -> real, ghost colorWeight: int -> real,
                     sumR: real, sumG: real, sumB: real, sumWeight: real)
    requires |original| == width * height * 4 && Inset(width, height, radius, x, y)
    requires t == Bilateral(original, width, height, radius, spaceWeight, colorWeight)
    requires Sums(sumR, sumG, sumB, sumWeight) == WindowTotal(NeighboursOf(original, width, height, x, y, spaceWeight, colorWeight), radius)
    requires Scan.ScannedTo(data[..], original, t, width, y, x, 0)
    modifies data
    ensures Scan.ScannedTo(data[..], original, t, width, y, x, 3)
  {
    var centerIdx := (y * width + x) * 4;
    BilateralPixel(original, width, height, radius, spaceWeight, colorWeight, x, y, 0);
    BilateralPixel(original, width, height, radius, spaceWeight, colorWeight, x, y, 1);
    BilateralPixel(original, width, height, radius, spaceWeight, colorWeight, x, y, 2);
    IdxInRange(width, height, x, y, 2);
    assert centerIdx == Idx(width, x, y, 0);
    if sumWeight > 0.0 {
      Scan.ScanWrite(data[..], original, t, width, height, y, x, 0);
      data[centerIdx] := ToUint8Clamp(sumR / sumWeight);
      Scan.ScanWrite(data[..], original, t, width, height, y, x, 1);
      data[centerIdx + 1] := ToUint8Clamp(sumG / sumWeight);
      Scan.ScanWrite(data[..], original, t, width, height, y, x, 2);
      data[centerIdx + 2] := ToUint8Clamp(sumB / sumWeight);
    } else {
      Scan.ScanKeep(data[..], original, t, width, height, y, x, 0);
      Scan.ScanKeep(data[..], original, t, width, height, y, x, 1);
      Scan.ScanKeep(data[..], original, t, width, height, y, x, 2);
    }
  }
}
