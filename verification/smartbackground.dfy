/** smartBackgroundRemoval: guess the background colour from the image border and
    key it out with a white (hence transparent) replacement.

    1. Sample the top and bottom rows at x = 0, 10, 20, ... < width, then the left
       and right columns at y = 0, 10, 20, ... < height.
    2. Bucket each sample by (floor(r/10), floor(g/10), floor(b/10)) and count the
       buckets in a Map, whose iteration order is the order of first insertion.
    3. Walk the Map keeping the first bucket whose count is strictly greater than
       the best so far (starting from 0 and white); the background is that bucket
       scaled back by 10.
    4. removeBackground with that key, the given tolerance and white. */
module SmartBackground {
  import opened Bytes
  import opened Raster
  import opened Background

  // ---- 1. Sampling ----

  /** The colours of the top and bottom pixel of column x: the two samples of one
      pass of the top/bottom loop. */
  function ColumnEnds(img: Image, x: nat): seq<Color>
    requires img.Valid() && img.height >= 1 && x < img.width
  {
    [ColorAtPoint(img, x, 0), ColorAtPoint(img, x, img.height - 1)]
  }

  /** The colours of the first and last pixel of row y: the two samples of one pass
      of the left/right loop. */
  function RowEnds(img: Image, y: nat): seq<Color>
    requires img.Valid() && img.width >= 1 && y < img.height
  {
    [ColorAtPoint(img, 0, y), ColorAtPoint(img, img.width - 1, y)]
  }

  /** The samples of the top and bottom rows from column x on: (x, 0), (x, h-1),
      then the same for x + 10, and so on while x < w. */
  function TopBottomFrom(img: Image, x: nat): (samples: seq<Color>)
    requires img.Valid() && img.height >= 1
    ensures x <= img.width + 9 ==> |samples| == 2 * ((img.width + 9 - x) / 10)
    decreases img.width - x
  {
    if x >= img.width then []
    else ColumnEnds(img, x) + TopBottomFrom(img, x + 10)
  }

  /** The samples of the left and right columns from row y on. */
  function LeftRightFrom(img: Image, y: nat): (samples: seq<Color>)
    requires img.Valid() && img.width >= 1
    ensures y <= img.height + 9 ==> |samples| == 2 * ((img.height + 9 - y) / 10)
    decreases img.height - y
  {
    if y >= img.height then []
    else RowEnds(img, y) + LeftRightFrom(img, y + 10)
  }

  /** edgeColors, in the order the source pushes them: two samples for every tenth
      column and two for every tenth row, so never fewer than four. */
  function EdgeSamples(img: Image): (samples: seq<Color>)
    requires img.Valid() && img.width >= 1 && img.height >= 1
    ensures |samples| == 2 * ((img.width + 9) / 10) + 2 * ((img.height + 9) / 10)
    ensures |samples| >= 4
  {
    TopBottomFrom(img, 0) + LeftRightFrom(img, 0)
  }

  /** Sample 2j and 2j+1 of the top/bottom pass are the top and bottom pixels of
      column x + 10j; there are two samples per column visited. */
  lemma {:induction false} TopBottomSamples(img: Image, x: nat, j: nat)
    requires img.Valid() && img.height >= 1 && x + 10 * j < img.width
    ensures 2 * j + 1 < |TopBottomFrom(img, x)|
    ensures TopBottomFrom(img, x)[2 * j] == ColorAtPoint(img, x + 10 * j, 0)
    ensures TopBottomFrom(img, x)[2 * j + 1] == ColorAtPoint(img, x + 10 * j, img.height - 1)
    decreases j
  {
    if j > 0 {
      TopBottomSamples(img, x + 10, j - 1);
    }
  }

  /** Every sample of the top/bottom pass is the top or bottom pixel of a column
      x + 10j inside the image. */
  lemma {:induction false} TopBottomOnBorder(img: Image, x: nat, k: nat)
    requires img.Valid() && img.height >= 1 && k < |TopBottomFrom(img, x)|
    ensures x + 10 * (k / 2) < img.width
    ensures TopBottomFrom(img, x)[k] ==
            ColorAtPoint(img, x + 10 * (k / 2), if k % 2 == 0 then 0 else img.height - 1)
    decreases img.width - x
  {
    if k >= 2 {
      TopBottomOnBorder(img, x + 10, k - 2);
      assert (k - 2) / 2 == k / 2 - 1 && (k - 2) % 2 == k % 2;
    }
  }

  /** Sample 2j and 2j+1 of the left/right pass are the left and right pixels of
      row y + 10j. */
  lemma {:induction false} LeftRightSamples(img: Image, y: nat, j: nat)
    requires img.Valid() && img.width >= 1 && y + 10 * j < img.height
    ensures 2 * j + 1 < |LeftRightFrom(img, y)|
    ensures LeftRightFrom(img, y)[2 * j] == ColorAtPoint(img, 0, y + 10 * j)
    ensures LeftRightFrom(img, y)[2 * j + 1] == ColorAtPoint(img, img.width - 1, y + 10 * j)
    decreases j
  {
    if j > 0 {
      LeftRightSamples(img, y + 10, j - 1);
    }
  }

  // ---- 2. Buckets and counts ----

  /** The Map key `${floor(r/10)},${floor(g/10)},${floor(b/10)}`, as its three numbers. */
  datatype Bucket = Bucket(r: int, g: int, b: int)

  function BucketOf(c: Color): Bucket
  {
    Bucket(c.r / 10, c.g / 10, c.b / 10)
  }

  /** A key that some colour produces: each part in [0, 25]. */
  predicate ValidBucket(k: Bucket)
  {
    0 <= k.r <= 25 && 0 <= k.g <= 25 && 0 <= k.b <= 25
  }

  lemma BucketOfValid(c: Color)
    ensures ValidBucket(BucketOf(c))
  {
    assert c.r / 10 <= 25 && c.g / 10 <= 25 && c.b / 10 <= 25;
  }

  /** One Map entry. */
  datatype Entry = Entry(key: Bucket, count: int)

  /** colorCounts.get(key) || 0 */
  function Lookup(t: seq<Entry>, k: Bucket): int
  {
    if |t| == 0 then 0
    else if t[0].key == k then t[0].count
    else Lookup(t[1..], k)
  }

  /** colorCounts.set(key, n): an existing key keeps its place, a new key goes last. */
  function Assign(t: seq<Entry>, k: Bucket, n: int): (r: seq<Entry>)
    ensures |r| == |t| || |r| == |t| + 1
  {
    if |t| == 0 then [Entry(k, n)]
    else if t[0].key == k then [Entry(k, n)] + t[1..]
    else [t[0]] + Assign(t[1..], k, n)
  }

  /** The counts after the forEach over colors: at most one entry per colour. */
  function Tally(colors: seq<Color>): (t: seq<Entry>)
    ensures |t| <= |colors|
  {
    if |colors| == 0 then []
    else
      var t := Tally(colors[..|colors| - 1]);
      var key := BucketOf(colors[|colors| - 1]);
      Assign(t, key, Lookup(t, key) + 1)
  }

  /** The number of colours in the bucket k. */
  function Occurrences(colors: seq<Color>, k: Bucket): nat
  {
    if |colors| == 0 then 0
    else Occurrences(colors[..|colors| - 1], k) + (if BucketOf(colors[|colors| - 1]) == k then 1 else 0)
  }

  /** colorCounts: one forEach over the samples, get-or-0 plus one, set. */
  method CountBuckets(colors: seq<Color>) returns (counts: seq<Entry>)
    ensures counts == Tally(colors)
  {
    counts := [];
    var i := 0;
    while i < |colors|
      invariant 0 <= i <= |colors|
      invariant counts == Tally(colors[..i])
    {
      var key := BucketOf(colors[i]);
      assert colors[..i + 1][..i] == colors[..i];
      counts := Assign(counts, key, Lookup(counts, key) + 1);
      i := i + 1;
    }
    assert colors[..i] == colors;
  }

  /** get after set: the assigned key reads back n, every other key is unaffected. */
  lemma {:induction false} LookupAssign(t: seq<Entry>, k: Bucket, n: int, k': Bucket)
    ensures Lookup(Assign(t, k, n), k') == if k' == k then n else Lookup(t, k')
    decreases |t|
  {
    if |t| > 0 && t[0].key != k {
      LookupAssign(t[1..], k, n, k');
      assert Assign(t, k, n)[1..] == Assign(t[1..], k, n);
    }
  }

  /** Each bucket's count is the number of samples that fall in it. */
  lemma {:induction false} TallyCounts(colors: seq<Color>, k: Bucket)
    ensures Lookup(Tally(colors), k) == Occurrences(colors, k)
    decreases |colors|
  {
    if |colors| > 0 {
      var prefix := colors[..|colors| - 1];
      TallyCounts(prefix, k);
      var key := BucketOf(colors[|colors| - 1]);
      LookupAssign(Tally(prefix), key, Lookup(Tally(prefix), key) + 1, k);
    }
  }

  /** Keys of t in order. */
  function Keys(t: seq<Entry>): seq<Bucket>
  {
    seq(|t|, i requires 0 <= i < |t| => t[i].key)
  }

  /** Assign keeps every existing key at its index and appends a new key last. */
  lemma {:induction false} AssignKeys(t: seq<Entry>, k: Bucket, n: int)
    ensures |Assign(t, k, n)| >= |t|
    ensures Keys(Assign(t, k, n))[..|t|] == Keys(t)
    ensures k in Keys(Assign(t, k, n))
    ensures k in Keys(t) ==> |Assign(t, k, n)| == |t|
    ensures forall k' :: k' in Keys(Assign(t, k, n)) <==> k' in Keys(t) || k' == k
    decreases |t|
  {
    var r := Assign(t, k, n);
    if |t| == 0 {
      assert Keys(r)[0] == k;
    } else {
      if t[0].key == k {
        assert Keys(r)[0] == k;
        assert Keys(r) == Keys(t);
      } else {
        AssignKeys(t[1..], k, n);
        assert Keys(r) == [t[0].key] + Keys(Assign(t[1..], k, n));
        assert Keys(t) == [t[0].key] + Keys(t[1..]);
      }
    }
  }

  /** No key is stored twice. */
  predicate DistinctKeys(t: seq<Entry>)
  {
    forall i, j :: 0 <= i < j < |t| ==> t[i].key != t[j].key
  }

  lemma {:induction false} AssignDistinct(t: seq<Entry>, k: Bucket, n: int)
    requires DistinctKeys(t)
    ensures DistinctKeys(Assign(t, k, n))
    decreases |t|
  {
    if |t| > 0 && t[0].key != k {
      AssignDistinct(t[1..], k, n);
      AssignKeys(t[1..], k, n);
      var r := Assign(t, k, n);
      forall j | 1 <= j < |r| ensures r[0].key != r[j].key {
        assert r[j].key == Keys(Assign(t[1..], k, n))[j - 1];
        assert r[j].key in Keys(t[1..]) || r[j].key == k;
        if r[j].key in Keys(t[1..]) {
          var m :| 0 <= m < |t[1..]| && Keys(t[1..])[m] == r[j].key;
          assert t[m + 1].key == r[j].key;
        }
      }
    }
  }

  /** The counts hold each bucket once, in the order of the bucket's first sample,
      every count positive and every key produced by some colour. */
  predicate WellFormed(t: seq<Entry>)
  {
    DistinctKeys(t) && forall i :: 0 <= i < |t| ==> t[i].count >= 1 && ValidBucket(t[i].key)
  }

  lemma {:induction false} TallyWellFormed(colors: seq<Color>)
    ensures WellFormed(Tally(colors))
    ensures |colors| > 0 ==> |Tally(colors)| > 0
    decreases |colors|
  {
    if |colors| > 0 {
      var prefix := colors[..|colors| - 1];
      TallyWellFormed(prefix);
      var t := Tally(prefix);
      var key := BucketOf(colors[|colors| - 1]);
      TallyCounts(prefix, key);
      BucketOfValid(colors[|colors| - 1]);
      var n := Lookup(t, key) + 1;
      AssignDistinct(t, key, n);
      AssignEntries(t, key, n);
    }
  }

  /** The entries of Assign(t, k, n) are those of t, except that k holds n; when
      counts are positive, so is n = get + 1. */
  lemma {:induction false} AssignEntries(t: seq<Entry>, k: Bucket, n: int)
    requires forall i :: 0 <= i < |t| ==> t[i].count >= 1 && ValidBucket(t[i].key)
    requires n >= 1 && ValidBucket(k)
    ensures forall i :: 0 <= i < |Assign(t, k, n)| ==>
              Assign(t, k, n)[i].count >= 1 && ValidBucket(Assign(t, k, n)[i].key)
    decreases |t|
  {
    if |t| > 0 && t[0].key != k {
      AssignEntries(t[1..], k, n);
    }
  }

  /** Map iteration order is first-insertion order: the keys counted after a prefix
      of the samples stay, in the same order, at the front of the final counts. */
  lemma {:induction false} TallyInsertionOrder(colors: seq<Color>, n: nat)
    requires n <= |colors|
    ensures |Tally(colors[..n])| <= |Tally(colors)|
    ensures Keys(Tally(colors))[..|Tally(colors[..n])|] == Keys(Tally(colors[..n]))
    decreases |colors| - n
  {
    if n < |colors| {
      var prefix := colors[..|colors| - 1];
      assert prefix[..n] == colors[..n];
      TallyInsertionOrder(prefix, n);
      var t := Tally(prefix);
      var key := BucketOf(colors[|colors| - 1]);
      assert Tally(colors) == Assign(t, key, Lookup(t, key) + 1);
      AssignKeys(t, key, Lookup(t, key) + 1);
      var full, middle := Keys(Tally(colors)), Keys(t);
      var m := |Tally(colors[..n])|;
      assert full[..|t|] == middle && middle[..m] == Keys(Tally(colors[..n]));
      assert full[..m] == full[..|t|][..m];
    } else {
      assert colors[..n] == colors;
    }
  }

  // ---- 3. The modal bucket ----

  /** The colour a key stands for: parseInt of each part, times 10, so each channel
      is a multiple of 10 up to 250. */
  function BucketColor(k: Bucket): (c: Color)
    requires ValidBucket(k)
    ensures c.r % 10 == 0 && c.g % 10 == 0 && c.b % 10 == 0 && c.r <= 250 && c.g <= 250 && c.b <= 250
  {
    DivModUnique(k.r * 10, 10, k.r, 0);
    DivModUnique(k.g * 10, 10, k.g, 0);
    DivModUnique(k.b * 10, 10, k.b, 0);
    Color(k.r * 10, k.g * 10, k.b * 10)
  }

  /** colorCounts.forEach from the current entry on, with the best count so far and
      the colour chosen so far. */
  function Modal(t: seq<Entry>, maxCount: int, bg: Color): (c: Color)
    requires forall i :: 0 <= i < |t| ==> ValidBucket(t[i].key)
    ensures c == bg || exists i :: 0 <= i < |t| && c == BucketColor(t[i].key)
    ensures (exists i :: 0 <= i < |t| && t[i].count > maxCount) ==>
              exists i :: 0 <= i < |t| && c == BucketColor(t[i].key)
  {
    if |t| == 0 then bg
    else if t[0].count > maxCount then Modal(t[1..], t[0].count, BucketColor(t[0].key))
    else Modal(t[1..], maxCount, bg)
  }

  /** The loop that picks the most common bucket. */
  method ModalBucket(t: seq<Entry>) returns (bgColor: Color)
    requires forall i :: 0 <= i < |t| ==> ValidBucket(t[i].key)
    ensures bgColor == Modal(t, 0, White)
  {
    var maxCount := 0;
    bgColor := White;
    var i := 0;
    while i < |t|
      invariant 0 <= i <= |t|
      invariant Modal(t[i..], maxCount, bgColor) == Modal(t, 0, White)
    {
      assert t[i..][1..] == t[i + 1..];
      if t[i].count > maxCount {
        maxCount := t[i].count;
        bgColor := BucketColor(t[i].key);
      }
      i := i + 1;
    }
  }

  /** The walk keeps the first entry of greatest count, provided that count beats
      the starting best m; otherwise it keeps the starting colour. */
  lemma {:induction false} ModalFirstMax(t: seq<Entry>, m: int, bg: Color) returns (j: int)
    requires forall i :: 0 <= i < |t| ==> ValidBucket(t[i].key)
    ensures -1 <= j < |t|
    ensures j == -1 ==> (forall k :: 0 <= k < |t| ==> t[k].count <= m) && Modal(t, m, bg) == bg
    ensures j >= 0 ==> t[j].count > m && Modal(t, m, bg) == BucketColor(t[j].key) &&
                       (forall k :: 0 <= k < |t| ==> t[k].count <= t[j].count) &&
                       (forall k :: 0 <= k < j ==> t[k].count < t[j].count)
    decreases |t|
  {
    if |t| == 0 {
      j := -1;
    } else if t[0].count > m {
      var j' := ModalFirstMax(t[1..], t[0].count, BucketColor(t[0].key));
      j := if j' == -1 then 0 else j' + 1;
      forall k | 0 <= k < |t| ensures t[k].count <= t[j].count {
        if k > 0 { assert t[k] == t[1..][k - 1]; }
      }
      forall k | 0 <= k < j ensures t[k].count < t[j].count {
        if k > 0 { assert t[k] == t[1..][k - 1]; }
      }
    } else {
      var j' := ModalFirstMax(t[1..], m, bg);
      j := if j' == -1 then -1 else j' + 1;
      forall k | 0 <= k < |t| ensures t[k].count <= (if j == -1 then m else t[j].count) {
        if k > 0 { assert t[k] == t[1..][k - 1]; }
      }
      forall k | 0 <= k < j ensures t[k].count < t[j].count {
        if k > 0 { assert t[k] == t[1..][k - 1]; }
      }
    }
  }

  /** The background colour smartBackgroundRemoval picks: never the initial white,
      since some bucket always beats the count 0, but the colour of a bucket. */
  function DetectedBackground(img: Image): (bg: Color)
    requires img.Valid() && img.width >= 1 && img.height >= 1
    ensures bg.r % 10 == 0 && bg.g % 10 == 0 && bg.b % 10 == 0
    ensures bg.r <= 250 && bg.g <= 250 && bg.b <= 250
  {
    var t := Tally(EdgeSamples(img));
    TallyWellFormed(EdgeSamples(img));
    assert t[0].count > 0;
    Modal(t, 0, White)
  }

  /** The chosen background is the bucket with the greatest count (ties go to the
      bucket sampled first), scaled back by 10, so each channel is a multiple of 10
      in [0, 250]. */
  lemma DetectedBackgroundIsModal(img: Image)
    requires img.Valid() && img.width >= 1 && img.height >= 1
    ensures var t := Tally(EdgeSamples(img));
            exists j :: 0 <= j < |t| && ValidBucket(t[j].key) &&
              DetectedBackground(img) == BucketColor(t[j].key) &&
              (forall k :: 0 <= k < |t| ==> t[k].count <= t[j].count) &&
              (forall k :: 0 <= k < j ==> t[k].count < t[j].count)
    ensures var bg := DetectedBackground(img);
            bg.r % 10 == 0 && bg.g % 10 == 0 && bg.b % 10 == 0 &&
            bg.r <= 250 && bg.g <= 250 && bg.b <= 250
  {
    var samples := EdgeSamples(img);
    TopBottomSamples(img, 0, 0);
    TallyWellFormed(samples);
    var t := Tally(samples);
    assert t[0].count >= 1;
    var j := ModalFirstMax(t, 0, White);
    assert DetectedBackground(img) == BucketColor(t[j].key);
    BucketColorRange(t[j].key);
  }

  /** A bucket scaled back by 10 has channels that are multiples of 10 up to 250. */
  lemma BucketColorRange(k: Bucket)
    requires ValidBucket(k)
    ensures var c := BucketColor(k);
            c.r % 10 == 0 && c.g % 10 == 0 && c.b % 10 == 0 && c.r <= 250 && c.g <= 250 && c.b <= 250
  {
    DivModUnique(k.r * 10, 10, k.r, 0);
    DivModUnique(k.g * 10, 10, k.g, 0);
    DivModUnique(k.b * 10, 10, k.b, 0);
  }

  /** Each bucket's count is the number of border samples in it. */
  lemma DetectedCounts(img: Image, k: Bucket)
    requires img.Valid() && img.width >= 1 && img.height >= 1
    ensures Lookup(Tally(EdgeSamples(img)), k) == Occurrences(EdgeSamples(img), k)
  {
    TallyCounts(EdgeSamples(img), k);
  }

  // ---- 4. The whole operation ----

  /** One pass of the top/bottom loop moves two samples from the pending part to the
      collected part. */
  lemma TopBottomStep(img: Image, x: nat, acc: seq<Color>)
    requires img.Valid() && img.height >= 1 && x < img.width
    ensures acc + TopBottomFrom(img, x) ==
            (acc + ColumnEnds(img, x)) + TopBottomFrom(img, x + 10)
  {
    assert TopBottomFrom(img, x) == ColumnEnds(img, x) + TopBottomFrom(img, x + 10);
  }

  /** One pass of the left/right loop moves two samples from the pending part to the
      collected part. */
  lemma LeftRightStep(img: Image, y: nat, acc: seq<Color>)
    requires img.Valid() && img.width >= 1 && y < img.height
    ensures acc + LeftRightFrom(img, y) ==
            (acc + RowEnds(img, y)) + LeftRightFrom(img, y + 10)
  {
    assert LeftRightFrom(img, y) == RowEnds(img, y) + LeftRightFrom(img, y + 10);
  }

  /** The two sampling loops of smartBackgroundRemoval: top and bottom rows every
      10 columns, then left and right columns every 10 rows. */
  method SampleBorder(img: Image) returns (edgeColors: seq<Color>)
    requires img.Valid() && img.width >= 1 && img.height >= 1
    ensures edgeColors == EdgeSamples(img)
  {
    edgeColors := SampleTopBottom(img);
    edgeColors := SampleLeftRight(img, edgeColors);
  }

  /** The first loop: for x = 0, 10, 20, ... < width push the colours at (x, 0)
      and (x, height - 1). */
  method SampleTopBottom(img: Image) returns (edgeColors: seq<Color>)
    requires img.Valid() && img.width >= 1 && img.height >= 1
    ensures edgeColors == TopBottomFrom(img, 0)
  {
    edgeColors := [];
    var x: nat := 0;
    while x < img.width
      decreases img.width - x
      invariant edgeColors + TopBottomFrom(img, x) == TopBottomFrom(img, 0)
    {
      var pair := ColumnEnds(img, x);
      TopBottomStep(img, x, edgeColors);
      edgeColors := edgeColors + pair;
      x := x + 10;
    }
    assert TopBottomFrom(img, x) == [];
  }

  /** The second loop: for y = 0, 10, 20, ... < height push the colours at (0, y)
      and (width - 1, y) after the samples collected so far. */
  method SampleLeftRight(img: Image, collected: seq<Color>) returns (edgeColors: seq<Color>)
    requires img.Valid() && img.width >= 1 && img.height >= 1
    ensures edgeColors == collected + LeftRightFrom(img, 0)
  {
    edgeColors := collected;
    var y: nat := 0;
    while y < img.height
      decreases img.height - y
      invariant edgeColors + LeftRightFrom(img, y) == collected + LeftRightFrom(img, 0)
    {
      var pair := RowEnds(img, y);
      LeftRightStep(img, y, edgeColors);
      edgeColors := edgeColors + pair;
      y := y + 10;
    }
    assert LeftRightFrom(img, y) == [];
  }

  /** smartBackgroundRemoval: sample the border, count the buckets, pick the modal
      one and key it out with a white replacement. */
  method SmartBackgroundRemoval(img: Image, tolerance: real) returns (out: Image)
    requires img.Valid() && img.width >= 1 && img.height >= 1
    ensures out.Valid()
    ensures out == BackgroundRemoved(img, DetectedBackground(img), tolerance, White)
  {
    var edgeColors := SampleBorder(img);
    var colorCounts := CountBuckets(edgeColors);
    TallyWellFormed(edgeColors);
    var bgColor := ModalBucket(colorCounts);
    out := RemoveBackground(img, bgColor, tolerance, White);
  }

  /** Every pixel whose colour is within the tolerance of the detected background
      becomes white and fully transparent; the rest are untouched. */
  lemma SmartRemovalPixel(img: Image, tolerance: real, x: int, y: int)
    requires img.Valid() && img.width >= 1 && img.height >= 1
    requires 0 <= x < img.width && 0 <= y < img.height
    ensures var out := BackgroundRemoved(img, DetectedBackground(img), tolerance, White);
            if Matches(ColorAtPoint(img, x, y), DetectedBackground(img), tolerance) then
              ColorAtPoint(out, x, y) == White && Px(out.data, img.width, img.height, x, y, 3) == 0
            else
              ColorAtPoint(out, x, y) == ColorAtPoint(img, x, y)
  {
    RemoveBackgroundPixel(img, DetectedBackground(img), tolerance, White, x, y);
  }
}
