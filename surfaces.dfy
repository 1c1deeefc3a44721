/** Pixel storage shared by the quantiser and the lighting pipeline. */
module Surfaces {

  /** An 8-bit value: a colour channel or a palette index (`uint8_t`). */
  type Byte = x: int | 0 <= x < 256

  /**
   * An SDL surface reduced to what the colour test touches: its width and
   * height, its bits per pixel and its pixel bytes. Rows are packed with no
   * padding, so a surface holds `w * h` pixels of `bitsPerPixel / 8` bytes.
   */
  class Surface {
    const w: nat
    const h: nat
    const bitsPerPixel: nat
    const pixels: array<Byte>

    /** `w * h`, the pixel count the source computes for its loops. */
    function PixelCount(): nat {
      w * h
    }

    predicate Valid() {
      pixels.Length == PixelCount() * (bitsPerPixel / 8)
    }

    /** A new surface of the given size and depth, zero-filled as SDL allocates it. */
    constructor Create(w: nat, h: nat, bitsPerPixel: nat)
      ensures this.w == w && this.h == h && this.bitsPerPixel == bitsPerPixel
      ensures Valid() && fresh(pixels)
      ensures forall i :: 0 <= i < pixels.Length ==> pixels[i] == 0
    {
      this.w := w;
      this.h := h;
      this.bitsPerPixel := bitsPerPixel;
      pixels := new Byte[w * h * (bitsPerPixel / 8)](_ => 0);
    }

    /** A surface holding already decoded pixel bytes, as the image loader hands it over. */
    constructor FromPixels(w: nat, h: nat, bitsPerPixel: nat, data: seq<Byte>)
      requires |data| == w * h * (bitsPerPixel / 8)
      ensures this.w == w && this.h == h && this.bitsPerPixel == bitsPerPixel
      ensures Valid() && fresh(pixels) && pixels[..] == data
    {
      this.w := w;
      this.h := h;
      this.bitsPerPixel := bitsPerPixel;
      pixels := new Byte[|data|](i requires 0 <= i < |data| => data[i]);
    }
  }
}
