/**
 * Nearest-palette quantisation of a 24-bit image into 8-bit palette indices
 * (findClosestPaletteEntry and convertSurfaceToIndex in src/main.cpp).
 */
module Quantizer {
  import opened Surfaces

  datatype Rgb = Rgb(r: Byte, g: Byte, b: Byte)

  /**
   * The fixed 256-colour palette. Its contents live in main.hpp, which is not
   * part of this model, so every definition here takes it as a parameter.
   */
  type Palette = p: seq<Rgb> | |p| == 256 witness seq(256, _ => Rgb(0, 0, 0))

  /**
   * The running best distance of the scan: `INFINITY` before the first entry
   * has been looked at, a distance afterwards.
   */
  datatype Bound = Infinity | Finite(d: nat)

  /** `distance < lowestDistance`, where every distance is below `INFINITY`. */
  predicate Below(distance: nat, lowest: Bound) {
    lowest.Infinity? || distance < lowest.d
  }

  /**
   * `x * x`, computed by halving. This is a proof device with no
   * counterpart in the source: it keeps the verifier on linear arithmetic,
   * and `SquareIsProduct` shows it is the plain product.
   */
  function Square(x: int): (s: nat)
    ensures s == 0 <==> x == 0
    decreases if x < 0 then -x + 1 else x
  {
    if x < 0 then Square(-x)
    else if x == 0 then 0
    else if x % 2 == 0 then 4 * Square(x / 2)
    else 4 * Square(x / 2) + 4 * (x / 2) + 1
  }

  lemma DoubledSquare(h: int)
    ensures (2 * h) * (2 * h) == 4 * (h * h)
    ensures (2 * h + 1) * (2 * h + 1) == 4 * (h * h) + 4 * h + 1
  {
  }

  /** `Square` is the product it stands for. */
  lemma {:induction false} SquareIsProduct(x: int)
    ensures Square(x) == x * x
    decreases if x < 0 then -x + 1 else x
  {
    if x < 0 {
      SquareIsProduct(-x);
      assert (-x) * (-x) == x * x;
    } else if x > 0 {
      var h := x / 2;
      SquareIsProduct(h);
      DoubledSquare(h);
      if x % 2 == 0 {
        assert x == 2 * h;
      } else {
        assert x == 2 * h + 1;
      }
    }
  }

  /**
   * The weighted squared distance 0.30*dr^2 + 0.59*dg^2 + 0.11*db^2, scaled
   * by 100 so that it is computed exactly on integers.
   */
  function Dist(p: Rgb, c: Rgb): (d: nat)
    ensures d == 0 <==> p == c
  {
    30 * Square(p.r - c.r) + 59 * Square(p.g - c.g) + 11 * Square(p.b - c.b)
  }

  /**
   * `k` is what the scan must return for `c`: an index whose entry is at
   * least as near as every entry, and strictly nearer than every entry
   * before it (so among equally near entries it is the lowest).
   */
  ghost predicate IsFirstNearest(pal: Palette, c: Rgb, k: int) {
    0 <= k < |pal| &&
    (forall j :: 0 <= j < |pal| ==> Dist(pal[k], c) <= Dist(pal[j], c)) &&
    (forall j :: 0 <= j < k ==> Dist(pal[k], c) < Dist(pal[j], c))
  }

  /**
   * The index the scan holds after looking at entries `0 .. n-1`: a later
   * entry replaces the current one only when it is strictly nearer.
   */
  function FirstMin(pal: Palette, c: Rgb, n: nat): (k: nat)
    requires 1 <= n <= |pal|
    ensures k < n
    ensures forall j :: 0 <= j < n ==> Dist(pal[k], c) <= Dist(pal[j], c)
    ensures forall j :: 0 <= j < k ==> Dist(pal[k], c) < Dist(pal[j], c)
  {
    if n == 1 then 0
    else
      var k := FirstMin(pal, c, n - 1);
      if Dist(pal[n - 1], c) < Dist(pal[k], c) then n - 1 else k
  }

  /** The palette index `c` is quantised to. */
  function Closest(pal: Palette, c: Rgb): (k: Byte)
    ensures IsFirstNearest(pal, c, k)
  {
    FirstMin(pal, c, |pal|)
  }

  /** Only one index is the first nearest, so the scan's answer is determined. */
  lemma FirstNearestUnique(pal: Palette, c: Rgb, k: int)
    requires IsFirstNearest(pal, c, k)
    ensures k == Closest(pal, c)
  {
  }

  /** Of two equally near entries, the later one is never chosen. */
  lemma TieGoesToLowerIndex(pal: Palette, c: Rgb, i: nat, j: nat)
    requires i < j < |pal|
    requires Dist(pal[i], c) == Dist(pal[j], c)
    ensures Closest(pal, c) != j
  {
  }

  /** A colour held by the palette maps to the first index holding it. */
  lemma ExactMatch(pal: Palette, c: Rgb, k: nat)
    requires k < |pal| && pal[k] == c
    requires forall j :: 0 <= j < k ==> pal[j] != c
    ensures Closest(pal, c) == k
  {
  }

  /**
   * findClosestPaletteEntry: scans the palette in ascending order, keeping
   * the first entry whose distance is strictly below the best so far.
   */
  method FindClosestPaletteEntry(pal: Palette, color: Rgb) returns (closestIndex: Byte)
    ensures IsFirstNearest(pal, color, closestIndex)
    ensures closestIndex == Closest(pal, color)
  {
    closestIndex := 0;
    var lowestDistance := Infinity;
    for i := 0 to |pal|
      invariant i == 0 ==> closestIndex == 0 && lowestDistance == Infinity
      invariant 0 < i ==> closestIndex < i && lowestDistance == Finite(Dist(pal[closestIndex], color))
      invariant forall j :: 0 <= j < i ==> Dist(pal[closestIndex], color) <= Dist(pal[j], color)
      invariant forall j :: 0 <= j < closestIndex ==> Dist(pal[closestIndex], color) < Dist(pal[j], color)
    {
      var distance := Dist(pal[i], color);
      if Below(distance, lowestDistance) {
        lowestDistance := Finite(distance);
        closestIndex := i;
      }
    }
    FirstNearestUnique(pal, color, closestIndex);
  }

  /** The colour of pixel `i` of a packed 24-bit buffer, stored blue, green, red. */
  function PixelColor(bgr: seq<Byte>, i: nat): (c: Rgb)
    requires 3 * i + 2 < |bgr|
  {
    Rgb(bgr[3 * i + 2], bgr[3 * i + 1], bgr[3 * i])
  }

  /** The index buffer for the first `n` pixels of a packed 24-bit buffer. */
  function Quantise(pal: Palette, bgr: seq<Byte>, n: nat): (idx: seq<Byte>)
    requires 3 * n <= |bgr|
  {
    seq(n, i requires 0 <= i < n => Closest(pal, PixelColor(bgr, i)))
  }

  /**
   * An image whose every pixel is a palette colour quantises to the first
   * index holding each pixel's colour.
   */
  lemma QuantisePaletteColours(pal: Palette, bgr: seq<Byte>, idx: seq<Byte>)
    requires 3 * |idx| <= |bgr|
    requires forall i :: 0 <= i < |idx| ==> pal[idx[i]] == PixelColor(bgr, i)
    requires forall i, j :: 0 <= i < |idx| && 0 <= j < idx[i] ==> pal[j] != PixelColor(bgr, i)
    ensures Quantise(pal, bgr, |idx|) == idx
  {
    forall i | 0 <= i < |idx|
      ensures Closest(pal, PixelColor(bgr, i)) == idx[i]
    {
      ExactMatch(pal, PixelColor(bgr, i), idx[i]);
    }
  }

  /**
   * Quantising a 2x1 image holding white then black, against a palette with
   * black at 0 and white first at 40, gives the indices 40 then 0.
   */
  lemma QuantiseWhiteThenBlack(pal: Palette)
    requires pal[0] == Rgb(0, 0, 0) && pal[40] == Rgb(255, 255, 255)
    requires forall j :: 0 <= j < 40 ==> pal[j] != Rgb(255, 255, 255)
    ensures Quantise(pal, [255, 255, 255, 0, 0, 0], 2) == [40, 0]
  {
    var bgr: seq<Byte> := [255, 255, 255, 0, 0, 0];
    assert PixelColor(bgr, 0) == Rgb(255, 255, 255);
    assert PixelColor(bgr, 1) == Rgb(0, 0, 0);
    QuantisePaletteColours(pal, bgr, [40, 0]);
  }

  /**
   * The copy loop of convertSurfaceToIndex: pixel `i` of the destination
   * becomes the palette index of the colour in source bytes `3i .. 3i+2`.
   */
  method QuantisePixels(pal: Palette, sourcePixels: array<Byte>, destPixels: array<Byte>)
    requires sourcePixels.Length == 3 * destPixels.Length
    requires sourcePixels != destPixels || destPixels.Length == 0
    modifies destPixels
    ensures destPixels[..] == Quantise(pal, old(sourcePixels[..]), destPixels.Length)
  {
    ghost var bgr := sourcePixels[..];
    for i := 0 to destPixels.Length
      invariant sourcePixels[..] == bgr
      invariant forall k :: 0 <= k < i ==> destPixels[k] == Closest(pal, PixelColor(bgr, k))
    {
      var offset := i * 3;
      var color := Rgb(sourcePixels[offset + 2], sourcePixels[offset + 1], sourcePixels[offset]);
      assert color == PixelColor(bgr, i);
      destPixels[i] := FindClosestPaletteEntry(pal, color);
    }
  }

  /**
   * convertSurfaceToIndex: returns 1 without writing anything when either
   * surface is missing, the source is not 24 bits per pixel, the destination
   * is not 8 bits per pixel or the pixel counts differ; otherwise writes the
   * palette index of every source pixel and returns 0.
   */
  method ConvertSurfaceToIndex(pal: Palette, source: Surface?, dest: Surface?) returns (err: int)
    requires source != null ==> source.Valid()
    requires dest != null ==> dest.Valid()
    modifies if dest == null then {} else {dest.pixels}
    ensures err == 0 || err == 1
    ensures err == 0 <==>
      source != null && dest != null && source.bitsPerPixel == 24 && dest.bitsPerPixel == 8 &&
      source.PixelCount() == dest.PixelCount()
    ensures err == 1 && dest != null ==> unchanged(dest.pixels)
    ensures err == 0 ==>
      3 * dest.pixels.Length == source.pixels.Length &&
      dest.pixels[..] == Quantise(pal, old(source.pixels[..]), dest.pixels.Length)
  {
    if source == null || dest == null {
      return 1;
    }
    var sourceCount := source.PixelCount();
    var destCount := dest.PixelCount();
    if source.bitsPerPixel != 24 {
      return 1;
    }
    if dest.bitsPerPixel != 8 {
      return 1;
    }
    if sourceCount != destCount {
      return 1;
    }
    QuantisePixels(pal, source.pixels, dest.pixels);
    return 0;
  }
}
