/**
 * The viewer state that handleEvents and renderNewSurface drive
 * (src/main.cpp): the quantised surface of the loaded image, the lit surface
 * derived from it, the darkness level, the underwater flag, and the pixels
 * last handed to the screen.
 */
module ColorTest {
  import opened Surfaces
  import opened Quantizer
  import opened Lighting

  class Viewer {
    const palette: Palette
    /** `render_surface`: the canonical index buffer; null until an image is dropped. */
    var renderSurface: Surface?
    /** `lit_surface`: the canonical buffer with the lighting applied. */
    var litSurface: Surface?
    /** The pixels of `render_texture`, which SDL copies out of a surface. */
    var texture: seq<Byte>
    var darkLevel: int
    var underWater: bool

    ghost predicate Valid()
      reads this
    {
      0 <= darkLevel <= 8 &&
      (renderSurface != null ==> renderSurface.Valid() && renderSurface.bitsPerPixel == 8) &&
      (litSurface != null ==>
        renderSurface != null && litSurface.Valid() && litSurface.bitsPerPixel == 8 &&
        litSurface.pixels != renderSurface.pixels)
    }

    /**
     * The lit buffer is the canonical buffer offset for the current level
     * and then tinted, and it is what the screen shows. Holds after every key
     * press once an image is loaded.
     */
    ghost predicate LightingShown()
      reads this, if renderSurface == null then {} else {renderSurface.pixels}
      reads if litSurface == null then {} else {litSurface.pixels}
      requires Valid()
    {
      renderSurface != null ==>
        litSurface != null &&
        litSurface.pixels[..] == Tint(Brighten(renderSurface.pixels[..], darkLevel), underWater) &&
        texture == litSurface.pixels[..]
    }

    /** The start-up state: no image, level 0, tint off, nothing shown. */
    constructor (palette: Palette)
      ensures Valid() && this.palette == palette
      ensures renderSurface == null && litSurface == null && texture == []
      ensures darkLevel == 0 && !underWater
    {
      this.palette := palette;
      renderSurface := null;
      litSurface := null;
      texture := [];
      darkLevel := 0;
      underWater := false;
    }

    /**
     * renderNewSurface, given the decoded image: a fresh 8-bit surface of the
     * same size replaces the canonical one before the conversion runs, so
     * even a failed conversion leaves a zero-filled canonical buffer. On
     * success the screen shows the unlit quantised buffer; the lit buffer and
     * the lighting state are left as they were.
     */
    method RenderNewSurface(surface: Surface) returns (err: int)
      requires Valid() && surface.Valid()
      modifies this
      ensures Valid()
      ensures renderSurface != null && fresh(renderSurface) && fresh(renderSurface.pixels)
      ensures renderSurface.w == surface.w && renderSurface.h == surface.h
      ensures err == 0 <==> surface.bitsPerPixel == 24
      ensures err == 0 ==>
        renderSurface.pixels[..] == Quantise(palette, surface.pixels[..], surface.PixelCount()) &&
        texture == renderSurface.pixels[..]
      ensures err != 0 ==>
        (forall i :: 0 <= i < renderSurface.pixels.Length ==> renderSurface.pixels[i] == 0) &&
        texture == old(texture)
      ensures litSurface == old(litSurface) && darkLevel == old(darkLevel) && underWater == old(underWater)
    {
      renderSurface := new Surface.Create(surface.w, surface.h, 8);
      err := ConvertSurfaceToIndex(palette, surface, renderSurface);
      if err != 0 {
        return 1;
      }
      texture := renderSurface.pixels[..];
    }

    /**
     * updateDarkLevel: with an image loaded, replaces the lit surface by a
     * fresh one holding the canonical buffer offset for `darkLevel`, and
     * shows it; without one, does nothing.
     */
    method UpdateDarkLevel()
      requires Valid()
      modifies this
      ensures Valid()
      ensures renderSurface == old(renderSurface) && darkLevel == old(darkLevel) && underWater == old(underWater)
      ensures renderSurface != null ==> unchanged(renderSurface.pixels)
      ensures renderSurface == null ==> litSurface == old(litSurface) && texture == old(texture)
      ensures renderSurface != null ==>
        litSurface != null && fresh(litSurface) && fresh(litSurface.pixels) &&
        litSurface.w == renderSurface.w && litSurface.h == renderSurface.h &&
        litSurface.pixels[..] == Brighten(renderSurface.pixels[..], darkLevel) &&
        texture == litSurface.pixels[..]
    {
      if renderSurface == null {
        return;
      }
      var surfaceSize := renderSurface.PixelCount();
      var lit := new Surface.Create(renderSurface.w, renderSurface.h, 8);
      var sourcePixels := renderSurface.pixels;
      var litPixels := lit.pixels;
      for i := 0 to surfaceSize
        modifies litPixels
        invariant forall k :: 0 <= k < i ==> litPixels[k] == Brighten1(sourcePixels[k], darkLevel)
      {
        var color := sourcePixels[i];
        if darkLevel == 8 || color > 255 - 32 * darkLevel {
          color := 255;
        } else {
          color := (color + 32 * darkLevel) % 256;
        }
        litPixels[i] := color;
      }
      litSurface := lit;
      texture := litPixels[..];
    }

    /**
     * updateUnderwater: with an image loaded, sets the underwater bit of
     * every lit index in place when the tint is on (leaving them as they are
     * when it is off), and shows the lit surface; without one, does nothing.
     */
    method UpdateUnderwater()
      requires Valid()
      requires renderSurface != null ==> litSurface != null
      modifies this, if litSurface == null then {} else {litSurface.pixels}
      ensures Valid()
      ensures renderSurface == old(renderSurface) && litSurface == old(litSurface)
      ensures darkLevel == old(darkLevel) && underWater == old(underWater)
      ensures renderSurface != null ==> unchanged(renderSurface.pixels)
      ensures renderSurface == null ==> texture == old(texture)
      ensures renderSurface != null ==>
        litSurface.pixels[..] == Tint(old(litSurface.pixels[..]), underWater) &&
        texture == litSurface.pixels[..]
    {
      if renderSurface == null {
        return;
      }
      var surfaceSize := litSurface.PixelCount();
      var litPixels := litSurface.pixels;
      for i := 0 to surfaceSize
        modifies litPixels
        invariant forall k :: 0 <= k < i ==> litPixels[k] == Tint1(old(litPixels[k]), underWater)
        invariant forall k :: i <= k < litPixels.Length ==> litPixels[k] == old(litPixels[k])
      {
        var color := litPixels[i];
        if underWater {
          color := SetUnderwaterBit(color);
        }
        litPixels[i] := color;
      }
      texture := litPixels[..];
    }

    /** The Up arrow: darkness level one lower unless already 0, then relight. */
    method KeyUp()
      requires Valid()
      modifies this
      ensures Valid() && LightingShown()
      ensures darkLevel == if old(darkLevel) > 0 then old(darkLevel) - 1 else old(darkLevel)
      ensures underWater == old(underWater)
      ensures renderSurface == old(renderSurface)
      ensures renderSurface != null ==> unchanged(renderSurface.pixels)
      ensures renderSurface == null ==> litSurface == old(litSurface) && texture == old(texture)
    {
      if darkLevel > 0 {
        darkLevel := darkLevel - 1;
      }
      UpdateDarkLevel();
      UpdateUnderwater();
    }

    /** The Down arrow: darkness level one higher unless already 8, then relight. */
    method KeyDown()
      requires Valid()
      modifies this
      ensures Valid() && LightingShown()
      ensures darkLevel == if old(darkLevel) < 8 then old(darkLevel) + 1 else old(darkLevel)
      ensures underWater == old(underWater)
      ensures renderSurface == old(renderSurface)
      ensures renderSurface != null ==> unchanged(renderSurface.pixels)
      ensures renderSurface == null ==> litSurface == old(litSurface) && texture == old(texture)
    {
      if darkLevel < 8 {
        darkLevel := darkLevel + 1;
      }
      UpdateDarkLevel();
      UpdateUnderwater();
    }

    /** The space bar: toggle the tint, then relight. */
    method KeySpace()
      requires Valid()
      modifies this
      ensures Valid() && LightingShown()
      ensures darkLevel == old(darkLevel)
      ensures underWater == !old(underWater)
      ensures renderSurface == old(renderSurface)
      ensures renderSurface != null ==> unchanged(renderSurface.pixels)
      ensures renderSurface == null ==> litSurface == old(litSurface) && texture == old(texture)
    {
      underWater := !underWater;
      UpdateDarkLevel();
      UpdateUnderwater();
    }
  }

  /**
   * Dropping a 2x1 image of a white and a black pixel, then pressing Down,
   * Space and Down: the screen shows 40, 0 (the unlit quantised buffer),
   * then 72, 32, then 88, 48, then 120, 80, rebuilt from the canonical
   * buffer rather than tinted twice.
   */
  method WhiteThenBlackSession(pal: Palette) returns (shown: seq<seq<Byte>>)
    requires pal[0] == Rgb(0, 0, 0) && pal[40] == Rgb(255, 255, 255)
    requires forall j :: 0 <= j < 40 ==> pal[j] != Rgb(255, 255, 255)
    ensures shown == [[40, 0], [72, 32], [88, 48], [120, 80]]
  {
    var viewer := new Viewer(pal);
    var image := new Surface.FromPixels(2, 1, 24, [255, 255, 255, 0, 0, 0]);
    var err := viewer.RenderNewSurface(image);
    QuantiseWhiteThenBlack(pal);
    shown := [viewer.texture];
    viewer.KeyDown();
    shown := shown + [viewer.texture];
    viewer.KeySpace();
    shown := shown + [viewer.texture];
    viewer.KeyDown();
    shown := shown + [viewer.texture];
    LightingSequence();
  }
}
