/** cartoonify: the cartoon pipeline on a copy of the image's buffer. A bilateral
    filter of diameter 9 smooths flat regions, colours are quantized to
    `colorLevels` levels, saturation is boosted by 1.3, and when the edge strength
    is positive, edges are darkened with strength edgeStrength / 100. */
module Cartoon {
  import opened Bytes
  import opened Raster
  import Bilateral
  import PointFilters
  import Edges

  /** The bilateral filter's diameter d (the window radius is d / 2 = 4). */
  const Diameter: nat := 9

  /** The saturation factor of the pipeline. */
  const Boost: real := 1.3

  /** The strength handed to addCleanEdges: the slider value as a fraction. */
  function EdgeFactor(edgeStrength: int): real
  {
    edgeStrength as real / 100.0
  }

  /** The stages after smoothing: quantize to colorLevels levels, boost the
      saturation, and darken the edges when edgeStrength is positive. */
  function Stylized(smooth: seq<Byte>, w: nat, h: nat, colorLevels: int, edgeStrength: int): (r: seq<Byte>)
    requires |smooth| == w * h * 4 && colorLevels >= 2
    ensures |r| == |smooth|
  {
    ValidWholePixels(Image(w, h, smooth));
    var quantized := PointFilters.Quantized(smooth, colorLevels);
    var boosted := PointFilters.Saturated(quantized, Boost);
    if edgeStrength > 0 then Edges.CleanEdges(boosted, w, h, EdgeFactor(edgeStrength)) else boosted
  }

  /** The image cartoonify returns. spaceWeight and colorWeight stand for the
      bilateral filter's Math.exp weights with sigmaSpace = sigmaColor = 50. */
  function Cartoonified(img: Image, colorLevels: int, edgeStrength: int,
                        spaceWeight: int -> real, colorWeight: int -> real): (out: Image)
    requires img.Valid() && colorLevels >= 2
    ensures out.Valid() && out.width == img.width && out.height == img.height
  {
    var w, h := img.width, img.height;
    var smooth := Bilateral.Bilateral(img.data, w, h, Diameter / 2, spaceWeight, colorWeight);
    Image(w, h, Stylized(smooth, w, h, colorLevels, edgeStrength))
  }

  /** cartoonify: copy the buffer, run the four stages on the copy in order, and
      wrap the result in a new image of the same size. */
  method Cartoonify(img: Image, colorLevels: int, edgeStrength: int,
                    spaceWeight: int -> real, colorWeight: int -> real) returns (out: Image)
    requires img.Valid() && colorLevels >= 2
    ensures out == Cartoonified(img, colorLevels, edgeStrength, spaceWeight, colorWeight)
  {
    var w, h, s := img.width, img.height, img.data;
    var data := new Byte[|s|](i requires 0 <= i < |s| => s[i]);
    assert data[..] == s;
    Bilateral.FastBilateralFilter(data, w, h, Diameter, spaceWeight, colorWeight);
    Stylize(data, w, h, colorLevels, edgeStrength);
    out := Image(w, h, data[..]);
  }

  /** The three stages after smoothing, in place on the copy. */
  method Stylize(data: array<Byte>, w: nat, h: nat, colorLevels: int, edgeStrength: int)
    requires data.Length == w * h * 4 && colorLevels >= 2
    modifies data
    ensures data[..] == Stylized(old(data[..]), w, h, colorLevels, edgeStrength)
  {
    ghost var smooth := data[..];
    ValidWholePixels(Image(w, h, smooth));
    PointFilters.FastColorQuantization(data, colorLevels);
    ghost var quantized := data[..];
    PointFilters.FastSaturationBoost(data, Boost);
    ghost var boosted := data[..];
    Stages(smooth, w, h, colorLevels, edgeStrength, quantized, boosted);
    if edgeStrength > 0 {
      Edges.AddCleanEdges(data, w, h, EdgeFactor(edgeStrength));
    }
  }

  /** The stylized buffer, stage by stage. */
  lemma Stages(smooth: seq<Byte>, w: nat, h: nat, colorLevels: int, edgeStrength: int,
               quantized: seq<Byte>, boosted: seq<Byte>)
    requires |smooth| == w * h * 4 && colorLevels >= 2
    requires |smooth| % 4 == 0 && quantized == PointFilters.Quantized(smooth, colorLevels)
    requires boosted == PointFilters.Saturated(quantized, Boost)
    ensures |boosted| == w * h * 4
    ensures Stylized(smooth, w, h, colorLevels, edgeStrength) ==
              if edgeStrength > 0 then Edges.CleanEdges(boosted, w, h, EdgeFactor(edgeStrength))
              else boosted
  {}

  /** No stage touches an alpha byte: the cartoon keeps the image's transparency. */
  lemma CartoonifyKeepsAlpha(img: Image, colorLevels: int, edgeStrength: int,
                             spaceWeight: int -> real, colorWeight: int -> real, i: int)
    requires img.Valid() && colorLevels >= 2
    requires 0 <= i < |img.data| && Chan(i) == 3
    ensures Cartoonified(img, colorLevels, edgeStrength, spaceWeight, colorWeight).data[i] == img.data[i]
  {
    var w, h := img.width, img.height;
    ValidWholePixels(img);
    var smooth := Bilateral.Bilateral(img.data, w, h, Diameter / 2, spaceWeight, colorWeight);
    assert smooth[i] == img.data[i];
    var quantized := PointFilters.Quantized(smooth, colorLevels);
    MapColorsFixes(smooth, PointFilters.Quantizer(colorLevels), i);
    var boosted := PointFilters.Saturated(quantized, Boost);
    MapColorsFixes(quantized, PointFilters.Saturator(Boost), i);
    if edgeStrength > 0 {
      var e := Edges.EdgeMap(boosted, w, h);
      assert Edges.CleanEdges(boosted, w, h, EdgeFactor(edgeStrength))[i] ==
             Edges.CleanEdgesAt(boosted, e, EdgeFactor(edgeStrength), i);
    }
  }

  /** The stages after smoothing turn a single-colour buffer into a single-colour
      buffer: the edge stage finds no edges, and the colour is quantized then boosted. */
  lemma StylizedUniform(smooth: seq<Byte>, w: nat, h: nat, colorLevels: int, edgeStrength: int, col: Color)
    requires |smooth| == w * h * 4 && colorLevels >= 2 && Uniform(smooth, col)
    ensures Uniform(Stylized(smooth, w, h, colorLevels, edgeStrength),
                    PointFilters.SaturateColor(PointFilters.QuantizeColor(col, colorLevels), Boost))
  {
    ValidWholePixels(Image(w, h, smooth));
    var quantizedColor := PointFilters.QuantizeColor(col, colorLevels);
    var quantized := PointFilters.Quantized(smooth, colorLevels);
    MapColorsUniform(smooth, PointFilters.Quantizer(colorLevels), col);
    assert Uniform(quantized, quantizedColor);
    var boostedColor := PointFilters.SaturateColor(quantizedColor, Boost);
    var boosted := PointFilters.Saturated(quantized, Boost);
    MapColorsUniform(quantized, PointFilters.Saturator(Boost), quantizedColor);
    assert Uniform(boosted, boostedColor);
    Stages(smooth, w, h, colorLevels, edgeStrength, quantized, boosted);
    if edgeStrength > 0 {
      Edges.CleanEdgesUniform(boosted, w, h, boostedColor, EdgeFactor(edgeStrength));
      assert Stylized(smooth, w, h, colorLevels, edgeStrength) == boosted;
    } else {
      assert Stylized(smooth, w, h, colorLevels, edgeStrength) == boosted;
    }
  }

  /** A single-colour image comes out as a single-colour image: the filter keeps
      it and the remaining stages map its colour. The weights are non-negative,
      as Math.exp values are. */
  lemma CartoonifyUniform(img: Image, colorLevels: int, edgeStrength: int,
                          spaceWeight: int -> real, colorWeight: int -> real, col: Color)
    requires img.Valid() && colorLevels >= 2 && Uniform(img.data, col)
    requires forall d :: spaceWeight(d) >= 0.0
    requires forall d :: colorWeight(d) >= 0.0
    ensures Uniform(Cartoonified(img, colorLevels, edgeStrength, spaceWeight, colorWeight).data,
                    PointFilters.SaturateColor(PointFilters.QuantizeColor(col, colorLevels), Boost))
  {
    var w, h := img.width, img.height;
    Bilateral.BilateralUniform(img.data, w, h, Diameter / 2, spaceWeight, colorWeight, col);
    StylizedUniform(img.data, w, h, colorLevels, edgeStrength, col);
  }
}
