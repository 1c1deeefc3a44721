/**
 * The two index-domain lighting transforms: the darkness-level offset
 * of updateDarkLevel and the underwater bank bit of updateUnderwater
 * (src/main.cpp).
 */
module Lighting {
  import opened Surfaces

  /**
   * A darkness level as the key handler keeps it: 0 leaves indices as they
   * are, 8 forces 255. Each level moves an index 32 entries up the palette;
   * how that entry looks depends on the palette's layout, which is not part
   * of this model.
   */
  type Level = x: int | 0 <= x <= 8

  function Min(a: int, b: int): int {
    if a <= b then a else b
  }

  /**
   * One index through the brightness loop. The `uint8_t` addition is written
   * with its wrap-around; the guard keeps it from ever wrapping, so the
   * result is the saturating sum `v + 32 * level` capped at 255.
   */
  function Brighten1(v: Byte, level: Level): (r: Byte)
    ensures r == Min(v + 32 * level, 255)
    ensures v <= r
    ensures level == 0 ==> r == v
    ensures level == 8 ==> r == 255
  {
    if level == 8 || v > 255 - 32 * level then 255 else (v + 32 * level) % 256
  }

  /** A higher darkness level never gives a lower index. */
  lemma Brighten1MonotoneInLevel(v: Byte, lo: Level, hi: Level)
    requires lo <= hi
    ensures Brighten1(v, lo) <= Brighten1(v, hi)
  {
  }

  /** The lit buffer rebuilt from the canonical buffer at a given level. */
  function Brighten(s: seq<Byte>, level: Level): (r: seq<Byte>)
  {
    seq(|s|, i requires 0 <= i < |s| => Brighten1(s[i], level))
  }

  /** Every offset index lies between the original index and 255. */
  lemma BrightenBounds(s: seq<Byte>, level: Level)
    ensures |Brighten(s, level)| == |s|
    ensures forall i :: 0 <= i < |s| ==> s[i] <= Brighten(s, level)[i] <= 255
  {
  }

  /** Level 0 leaves the buffer as it is. */
  lemma BrightenAtZero(s: seq<Byte>)
    ensures Brighten(s, 0) == s
  {
  }

  /** Level 8 turns every index into 255. */
  lemma BrightenAtEight(s: seq<Byte>)
    ensures Brighten(s, 8) == seq(|s|, _ => 255)
  {
  }

  /**
   * `v | 0x10` on a `uint8_t`: bit 4 is set afterwards and bits 0-3 and 5-7
   * are as they were; numerically, 16 is added exactly when bit 4 was clear.
   */
  function SetUnderwaterBit(v: Byte): (r: Byte)
    ensures r == if (v / 16) % 2 == 0 then v + 16 else v
    ensures (r / 16) % 2 == 1
    ensures r % 16 == v % 16 && r / 32 == v / 32
  {
    ((v as bv8) | 0x10) as int
  }

  /**
   * One index through the underwater loop: when the tint is on, the
   * underwater bit is ORed in; otherwise the index is left alone.
   */
  function Tint1(v: Byte, underWater: bool): (r: Byte)
    ensures !underWater ==> r == v
    ensures underWater ==> (r / 16) % 2 == 1
    ensures r % 16 == v % 16 && r / 32 == v / 32
    ensures r == if underWater && (v / 16) % 2 == 0 then v + 16 else v
  {
    if underWater then SetUnderwaterBit(v) else v
  }

  /** The lit buffer with the underwater bit applied, or unchanged when the tint is off. */
  function Tint(s: seq<Byte>, underWater: bool): (r: seq<Byte>)
  {
    seq(|s|, i requires 0 <= i < |s| => Tint1(s[i], underWater))
  }

  /** With the tint off the buffer is unchanged. */
  lemma TintOffIsIdentity(s: seq<Byte>)
    ensures Tint(s, false) == s
  {
  }

  /** Tinting twice is tinting once. */
  lemma TintIdempotent(s: seq<Byte>, underWater: bool)
    ensures Tint(Tint(s, underWater), underWater) == Tint(s, underWater)
  {
  }

  /**
   * The tint cannot take its bit away again: switching it off on an already
   * tinted buffer leaves the bit set. This is why the lit buffer is always
   * rebuilt from the canonical buffer before tinting.
   */
  lemma TintCannotBeUndone(s: seq<Byte>, i: nat)
    requires i < |s|
    ensures (Tint(Tint(s, true), false)[i] / 16) % 2 == 1
  {
  }

  /**
   * A relighting sequence: canonical indices 40 and 0, darkness
   * level 1 gives 72 and 32; the tint then gives 88 and 48; going to level 2
   * rebuilds from the canonical buffer, giving 120 and 80 with no tint
   * carried over from before.
   */
  lemma LightingSequence()
    ensures Tint(Brighten([40, 0], 1), false) == [72, 32]
    ensures Tint(Brighten([40, 0], 1), true) == [88, 48]
    ensures Tint(Brighten([40, 0], 2), true) == [120, 80]
  {
  }
}
