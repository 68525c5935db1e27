/** The Chip-8 RAM (`Memory` in src/bus/memory.rs): a fixed block of bytes,
    indexed by position or by a half-open range. Indexing outside the block
    panics in the source; here it is excluded by preconditions. */
module Memory {
  import opened Bits

  /** Size of the RAM in bytes: 4096. */
  const SIZE: nat := 0x1000

  type Memory = s: seq<u8> | |s| == SIZE witness seq(SIZE, _ => 0)

  /** A fresh RAM: every byte is zero. */
  function Default(): (m: Memory)
    ensures forall i :: 0 <= i < SIZE ==> Index(m, i) == 0
  {
    seq(SIZE, _ => 0)
  }

  /** The byte at `i`. */
  function Index(m: Memory, i: nat): u8
    requires i < SIZE
  {
    m[i]
  }

  /** Reading a byte is reading the one-byte range that holds it. */
  lemma IndexIsOneByteRange(m: Memory, i: nat)
    requires i < SIZE
    ensures IndexRange(m, i, i + 1) == [Index(m, i)]
  {
  }

  /** The bytes of `[start, end)`, in order. */
  function IndexRange(m: Memory, start: nat, end: nat): (s: seq<u8>)
    requires start <= end <= SIZE
    ensures |s| == end - start
    ensures forall k :: 0 <= k < |s| ==> s[k] == Index(m, start + k)
  {
    m[start..end]
  }

  /** Stores `v` at `i`; no other byte changes. */
  function IndexMut(m: Memory, i: nat, v: u8): (m': Memory)
    requires i < SIZE
    ensures Index(m', i) == v
    ensures forall j :: 0 <= j < SIZE && j != i ==> Index(m', j) == Index(m, j)
  {
    m[i := v]
  }

  /** Writes `data` through the mutable slice `[start, end)`; a slice keeps its
      length, so `data` has exactly `end - start` bytes. Bytes outside the range
      do not change. */
  function IndexRangeMut(m: Memory, start: nat, end: nat, data: seq<u8>): (m': Memory)
    requires start <= end <= SIZE && |data| == end - start
    ensures IndexRange(m', start, end) == data
    ensures forall j :: 0 <= j < SIZE && !(start <= j < end) ==> Index(m', j) == Index(m, j)
  {
    m[..start] + data + m[end..]
  }

  /** Writing one byte is writing the one-byte range that holds it. */
  lemma IndexMutIsRangeWrite(m: Memory, i: nat, v: u8)
    requires i < SIZE
    ensures IndexMut(m, i, v) == IndexRangeMut(m, i, i + 1, [v])
  {
    var a, b := IndexMut(m, i, v), IndexRangeMut(m, i, i + 1, [v]);
    forall j | 0 <= j < SIZE
      ensures a[j] == b[j]
    {
      if j == i {
        assert IndexRange(b, i, i + 1)[0] == b[i];
      }
    }
  }

  /** Writing back what a range holds leaves the RAM as it was. */
  lemma WriteBackRangeIsIdentity(m: Memory, start: nat, end: nat)
    requires start <= end <= SIZE
    ensures IndexRangeMut(m, start, end, IndexRange(m, start, end)) == m
  {
    var m' := IndexRangeMut(m, start, end, IndexRange(m, start, end));
    forall j | 0 <= j < SIZE
      ensures m'[j] == m[j]
    {
      if start <= j < end {
        assert IndexRange(m', start, end)[j - start] == m'[j];
      }
    }
  }
}
