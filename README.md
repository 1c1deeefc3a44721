# VGA colour test: indexed-colour pipeline

A Dafny model of the indexed-colour pipeline of the VGA colour test viewer
(`src/main.cpp`). A dropped 24-bit bitmap is quantised against a fixed
256-entry palette. Each source pixel becomes the index of its nearest
palette entry, using a weighted squared distance with ties going to the
lowest index. The resulting canonical index buffer is then relit on every
key press:

- the darkness level (0 to 8, lowered by Up and raised by Down) adds
  `32 * level` to every index, saturating at 255. The transform only moves
  indices; what a higher index looks like is up to the palette's layout;
- the underwater flag (toggled by Space) ORs bit `0x10` into every lit
  index.

Modules:

- `Surfaces` (`surfaces.dfy`): the byte type and an SDL surface reduced to
  its width, height, bits per pixel and packed pixel array.
- `Quantizer` (`quantizer.dfy`): the distance, the nearest-entry
  specification `Closest`, the scanning method `FindClosestPaletteEntry`,
  and the buffer conversion `ConvertSurfaceToIndex`.
- `Lighting` (`lighting.dfy`): the per-index rules `Brighten1` and `Tint1`,
  their whole-buffer forms `Brighten` and `Tint`, and their properties.
- `ColorTest` (`colortest.dfy`): the class `Viewer`. It holds the program's
  global state: the render (canonical) surface, the lit surface, the pixels
  last sent to the screen, `darkLevel` and `underWater`. Its methods are
  image loading, the two update loops and the three key handlers. A client
  method replays a drop-and-relight session through these contracts.

The palette is declared in `main.hpp`, which is not part of this model. Every
definition therefore takes the palette as a parameter of type `Palette`, a
sequence of exactly 256 colours, and nothing is assumed about its contents.

The colour distance `0.30·dr² + 0.59·dg² + 0.11·db²` is computed in the
source with `double`. Here it is scaled by 100 and computed exactly on
integers: `30·dr² + 59·dg² + 11·db²`. The `INFINITY` starting value is a
separate `Infinity` case of the running best distance, above every distance.

Three behaviours of the code worth stating:

- `renderNewSurface` installs a fresh, zero-filled render surface before the
  conversion can fail. A failed load (a bitmap that is not 24 bits per
  pixel) therefore leaves an all-zero canonical buffer of the new size, and
  the next key press relights that. The previous image does not survive.
- A successful load shows the unlit quantised buffer. The lit buffer, and
  with it the current lighting, is rebuilt only at the next key press.
- The lighting state persists across loads.

## Model

| member | source | states |
|---|---|---|
| `Surfaces.Surface.Create` | src/main.cpp:214-218 | a new surface of the given size and depth has a fresh pixel array of `w*h*(bpp/8)` bytes, every byte zero; the viewer creates it only with depth 8, giving `w*h` bytes |
| `Quantizer.SquareIsProduct` | src/main.cpp:335-337 | the squaring helper used for each channel difference equals the product of the difference with itself |
| `Quantizer.Dist` | src/main.cpp:333-337 | the weighted distance is zero exactly when the two colours are equal |
| `Quantizer.FirstMin` | src/main.cpp:327-344 | after scanning entries `0..n-1` with the strict-`<` update, the kept index is below `n`, at least as near as every scanned entry, and strictly nearer than every entry before it |
| `Quantizer.Closest` | src/main.cpp:325-347 | the quantised index of any colour, held by the palette or not, is an entry at least as near as every palette entry (no entry is nearer), and strictly nearer than every lower-indexed entry |
| `Quantizer.FirstNearestUnique` | src/main.cpp:339-343 | only one index has the first-nearest property, so the scan's result is fully determined by it |
| `Quantizer.TieGoesToLowerIndex` | src/main.cpp:339-343 | of two equally near entries, the higher index is never the result |
| `Quantizer.ExactMatch` | src/main.cpp:334-343 | a colour held by the palette maps to the first index holding it |
| `Quantizer.FindClosestPaletteEntry` | src/main.cpp:325-347 | the loop starting from `INFINITY` and visiting all 256 entries returns the first-nearest index, which equals `Closest` |
| `Quantizer.QuantisePaletteColours` | src/main.cpp:306-316 | an image whose every pixel is a palette colour quantises to the first index holding each pixel's colour |
| `Quantizer.QuantiseWhiteThenBlack` | src/main.cpp:306-316 | with black at index 0 and white first at index 40, the pixels white then black quantise to `[40, 0]` |
| `Quantizer.QuantisePixels` | src/main.cpp:305-316 | destination pixel `i` becomes `Closest` of the colour whose red, green and blue are source bytes `3i+2`, `3i+1` and `3i` |
| `Quantizer.ConvertSurfaceToIndex` | src/main.cpp:260-322 | returns 1 and writes nothing when a surface is missing, the source is not 24 bpp, the destination is not 8 bpp, or the pixel counts differ. Otherwise it returns 0, and destination pixel `i` is `Closest` of the colour whose red, green and blue are source bytes `3i+2`, `3i+1` and `3i` |
| `Lighting.Brighten1` | src/main.cpp:378-387 | the lit index is `min(v + 32·level, 255)`, so it lies in `[v, 255]`. Level 0 leaves `v` and level 8 gives 255. The guarded `uint8_t` addition never wraps |
| `Lighting.Brighten1MonotoneInLevel` | src/main.cpp:379-385 | a higher darkness level never yields a lower index |
| `Lighting.BrightenBounds` | src/main.cpp:376-388 | the rebuilt buffer has the canonical buffer's length, and every index lies between the canonical index and 255 |
| `Lighting.BrightenAtZero` | src/main.cpp:376-388 | at level 0 the rebuilt buffer equals the canonical buffer |
| `Lighting.BrightenAtEight` | src/main.cpp:376-388 | at level 8 every index of the rebuilt buffer is 255 |
| `Lighting.SetUnderwaterBit` | src/main.cpp:419 | `v` ORed with `0x10` has bit 4 set and bits 0-3 and 5-7 as in `v`. Numerically it adds 16 exactly when bit 4 was clear |
| `Lighting.Tint1` | src/main.cpp:416-422 | with the flag off the index is unchanged. With it on, bit 4 is set. No other bit changes either way |
| `Lighting.TintOffIsIdentity` | src/main.cpp:414-422 | tinting with the flag off leaves the whole buffer unchanged |
| `Lighting.TintIdempotent` | src/main.cpp:414-422 | tinting a buffer twice gives the same buffer as tinting it once |
| `Lighting.TintCannotBeUndone` | src/main.cpp:414-422 | tinting with the flag off cannot clear a bit set by an earlier tint, which is why relighting starts again from the canonical buffer |
| `Lighting.LightingSequence` | src/main.cpp:149-171 | canonical `[40, 0]` relit at level 1 gives `[72, 32]`, tinted gives `[88, 48]`, and tinted at level 2 gives `[120, 80]` |
| `ColorTest.Viewer.constructor` | src/main.cpp:15-24 | start-up state: no render or lit surface, nothing shown, darkness level 0, tint off |
| `ColorTest.Viewer.RenderNewSurface` | src/main.cpp:206-256 | a fresh zero-filled 8-bit surface of the image's size becomes the canonical surface. The call fails exactly when the image is not 24 bpp. On success the canonical buffer is the quantised image and is what the screen shows. On failure the canonical buffer stays all zeros and the screen is unchanged. Lit surface and lighting state are untouched |
| `ColorTest.Viewer.UpdateDarkLevel` | src/main.cpp:351-396 | with no image, nothing changes. Otherwise a fresh lit surface of the canonical size holds `Brighten(canonical, darkLevel)` and is shown. The canonical buffer is not modified |
| `ColorTest.Viewer.UpdateUnderwater` | src/main.cpp:400-431 | with no image, nothing changes. Otherwise the lit buffer becomes `Tint` of its previous contents in place and is shown. The canonical buffer is not modified |
| `ColorTest.Viewer.KeyUp` | src/main.cpp:149-155 | `darkLevel` drops by one unless already 0 and stays in `[0, 8]`. With an image, lit and shown buffers equal `Tint(Brighten(canonical, darkLevel), underWater)`. Without one, only the level changes. The canonical buffer is never modified |
| `ColorTest.Viewer.KeyDown` | src/main.cpp:157-163 | `darkLevel` rises by one unless already 8 and stays in `[0, 8]`. With an image, lit and shown buffers equal `Tint(Brighten(canonical, darkLevel), underWater)`. Without one, only the level changes. The canonical buffer is never modified |
| `ColorTest.Viewer.KeySpace` | src/main.cpp:165-171 | `underWater` is negated and the level is kept. With an image, lit and shown buffers equal `Tint(Brighten(canonical, darkLevel), underWater)`. Without one, only the flag changes. The canonical buffer is never modified |
| `ColorTest.WhiteThenBlackSession` | src/main.cpp:145-171 | dropping a white-then-black 2x1 image, then pressing Down, Space and Down, shows `[40, 0]`, `[72, 32]`, `[88, 48]` and `[120, 80]` in turn |

## Left out

- SDL initialisation, window and renderer creation, the main render loop and shutdown (src/main.cpp:26-108): library calls and presentation only.
- The decoded surface the image loader hands over is built by `Surface.FromPixels` from already decoded bytes; the decoding itself is the BMP loading described next.
- Event polling, `SDL_QUIT`, `SDL_DROPFILE` dispatch, BMP decoding in `loadNewBMP` and the error message box (src/main.cpp:117-143, 188-199). These are I/O and foreign calls. `RenderNewSurface` takes the already decoded surface.
- Scancodes other than Up, Down and Space fall to `default: break` and change nothing. No method models them.
- Failures of SDL calls are assumed not to happen. This covers surface creation, setting the palette, locking surfaces, texture creation, logical-size scaling and render copy (src/main.cpp:219-251, 290-302). So `RenderNewSurface` fails only through the bit-depth check.
- Presentation is reduced to the `texture` field, the pixels the last texture was created from. Scaling, clearing and presenting are not modelled. Neither is the render-format logging (src/main.cpp:355-356, 404-405).
- Freeing surfaces and textures, including the leak noted in the FIXME (src/main.cpp:210-212, 360): manual memory management with no effect on the computed buffers.
- Floating-point evaluation of the distance. The model compares exact integers scaled by 100. Different distances differ by far more than `double` rounding, so they are ordered as in the source. An exact tie may be computed unequal in `double` (src/main.cpp:334-337), and the strict `<` at src/main.cpp:339 may then keep the later entry. The model, and `TieGoesToLowerIndex`, give every exact tie to the lower index.
- Row pitch and padding: the source ignores each surface's row pitch and reads and writes both buffers as if they were packed (src/main.cpp:306-315). The model's surfaces are packed (`Surface.Valid`), so padded SDL surfaces, whose padding bytes the source reads as colour and across whose row boundaries it writes indices, are not modelled.
- Integer width of `w * h` (`int` multiplied into a `size_t`) and of `darkLevel`: the model uses unbounded integers. Neither overflows for the sizes and levels that occur.
- Palette contents (`main.hpp` is not part of this model): every result holds for any 256-entry palette.
- The underwater update requires a lit surface whenever an image is loaded. The source dereferences `lit_surface` unchecked and always calls it right after `updateDarkLevel`, which creates one.
