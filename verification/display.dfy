/** The framebuffer (src/display/mod.rs): 64 x 32 pixels of 32 bits each,
    stored row after row. Indexing past the last pixel panics in the source;
    here it is excluded by preconditions. */
module Display {
  import opened Bits

  const WIDTH: nat := 64
  const HEIGHT: nat := 32

  /** Number of pixels, `WIDTH * HEIGHT` = 2048. */
  const PIXELS: nat := WIDTH * HEIGHT

  type Display = s: seq<u32> | |s| == PIXELS witness seq(PIXELS, _ => 0)

  /** A fresh framebuffer: 2048 pixels, all zero. */
  function Default(): (d: Display)
    ensures forall i :: 0 <= i < PIXELS ==> Index(d, i) == 0
  {
    seq(PIXELS, _ => 0)
  }

  /** The pixel at `i`. */
  function Index(d: Display, i: nat): u32
    requires i < PIXELS
  {
    d[i]
  }

  /** Sets pixel `i` to `v`; no other pixel changes. */
  function IndexMut(d: Display, i: nat, v: u32): (d': Display)
    requires i < PIXELS
    ensures Index(d', i) == v
    ensures forall j :: 0 <= j < PIXELS && j != i ==> Index(d', j) == Index(d, j)
  {
    d[i := v]
  }

  /** The whole framebuffer as the window receives it: every pixel, in index order. */
  function AsSlice(d: Display): (s: seq<u32>)
    ensures |s| == WIDTH * HEIGHT
    ensures forall i :: 0 <= i < |s| ==> s[i] == Index(d, i)
  {
    d
  }

  /** Setting a pixel to the value it already has changes nothing, and setting
      it twice keeps only the second value. */
  lemma IndexMutOverwrites(d: Display, i: nat, v: u32, w: u32)
    requires i < PIXELS
    ensures IndexMut(d, i, Index(d, i)) == d
    ensures IndexMut(IndexMut(d, i, v), i, w) == IndexMut(d, i, w)
  {
  }
}
