/** The address bus (src/bus/mod.rs): 16-bit addresses are masked to the
    12 bits the RAM decodes, so every access lands inside the RAM and
    addresses that differ above bit 11 alias. Words are big-endian. */
module Bus {
  import opened Bits
  import Memory

  /** A Chip-8 address as the CPU produces it; `Address::new` is the constructor. */
  datatype Address = Address(raw: u16)

  /** Highest valid address, `Memory::SIZE - 1`. */
  const MAX: u16 := Memory.SIZE - 1

  lemma MaxIsLowTwelveBits()
    ensures MAX == Pow2(12) - 1 && Memory.SIZE == Pow2(12)
  {
    Pow2OfNibbles();
  }

  /** The address used for a byte access: the low twelve bits. It always
      indexes inside the RAM, and it is the address modulo the RAM size. */
  function MaskedAddress(a: Address): (i: nat)
    ensures i < Memory.SIZE
    ensures i == a.raw % 0x1000
  {
    MaskLow12(a.raw);
    BitAnd(a.raw, MAX)
  }

  /** The address of the second byte of a word access: the 16-bit successor
      (wrapping at 0xFFFF), masked. It is the successor of the masked address
      modulo the RAM size, so the last address is followed by address 0. */
  function MaskedNextAddress(a: Address): (i: nat)
    ensures i < Memory.SIZE
    ensures i == (a.raw + 1) % 0x1000
    ensures i == (MaskedAddress(a) + 1) % 0x1000
  {
    MaskLow12OfSuccessor(a.raw);
    BitAnd((a.raw + 1) % 0x1_0000, MAX)
  }

  /** An address whose low twelve bits are all set is followed by address 0. */
  lemma LastAddressWrapsToZero(a: Address)
    requires MaskedAddress(a) == MAX
    ensures MaskedNextAddress(a) == 0
  {
    assert MaskedNextAddress(a) == 0x1000 % 0x1000;
  }

  datatype Bus = Bus(mem: Memory.Memory)

  /** The byte at the address taken modulo the RAM size. */
  function ReadByte(b: Bus, a: Address): (d: u8)
    ensures d == Memory.Index(b.mem, a.raw % 0x1000)
  {
    Memory.Index(b.mem, MaskedAddress(a))
  }

  /** The word stored big-endian at `a`: the byte at `a` is the high half and
      the byte at the next masked address the low half. */
  function ReadWord(b: Bus, a: Address): (w: u16)
    ensures w / 0x100 == ReadByte(b, a)
    ensures w % 0x100 == Memory.Index(b.mem, (a.raw + 1) % 0x1000)
  {
    FromBeBytes(Memory.Index(b.mem, MaskedAddress(a)), Memory.Index(b.mem, MaskedNextAddress(a)))
  }

  /** A word read is the byte at `a` times 256 plus the byte after it. */
  lemma ReadWordIsBigEndian(b: Bus, a: Address)
    ensures ReadWord(b, a) == (ReadByte(b, a) as int) * 0x100 + (Memory.Index(b.mem, (a.raw + 1) % 0x1000) as int)
  {
    var hi, lo := ReadByte(b, a), Memory.Index(b.mem, MaskedNextAddress(a));
    assert MaskedNextAddress(a) == (a.raw + 1) % 0x1000;
    assert ReadWord(b, a) == FromBeBytes(hi, lo);
  }

  /** Below the last address no masking takes effect: a word read combines
      the bytes at `a` and `a + 1`. */
  lemma ReadWordBelowTop(b: Bus, a: Address)
    requires a.raw < MAX
    ensures ReadWord(b, a) == (Memory.Index(b.mem, a.raw) as int) * 0x100 + (Memory.Index(b.mem, a.raw + 1) as int)
  {
    assert a.raw % 0x1000 == a.raw && (a.raw + 1) % 0x1000 == a.raw + 1;
    ReadWordIsBigEndian(b, a);
  }

  /** Stores `d` at the masked address; reading it back through the same
      address yields `d` and every other byte of the RAM is unchanged. */
  function WriteByte(b: Bus, a: Address, d: u8): (b': Bus)
    ensures ReadByte(b', a) == d
    ensures forall i :: 0 <= i < Memory.SIZE && i != MaskedAddress(a) ==>
              Memory.Index(b'.mem, i) == Memory.Index(b.mem, i)
  {
    Bus(Memory.IndexMut(b.mem, MaskedAddress(a), d))
  }

  /** Addresses that agree modulo the RAM size read the same byte. */
  lemma AliasedAddressesReadAlike(b: Bus, a1: Address, a2: Address)
    requires a1.raw % 0x1000 == a2.raw % 0x1000
    ensures ReadByte(b, a1) == ReadByte(b, a2)
  {
  }

  /** Adding any multiple of 0x1000 to an address, with 16-bit wrap-around,
      reads the same byte. */
  lemma OffsetByRamSizeReadsAlike(b: Bus, a: Address, k: int)
    ensures ReadByte(b, Address((a.raw + 0x1000 * k) % 0x1_0000)) == ReadByte(b, a)
  {
    WrapKeepsLow12(a.raw, k);
  }

  /** A word read at the last address takes its low byte from address 0. */
  lemma WordAtLastAddressWraps(b: Bus, a: Address)
    requires MaskedAddress(a) == MAX
    ensures ReadWord(b, a) == (Memory.Index(b.mem, MAX) as int) * 0x100 + (Memory.Index(b.mem, 0) as int)
  {
    Low12OfSuccessor(a.raw);
    assert (a.raw + 1) % 0x1000 == 0;
    ReadWordIsBigEndian(b, a);
  }

  /** A byte written through one address is read back through every alias of it. */
  lemma ReadAfterWriteAliased(b: Bus, a1: Address, a2: Address, d: u8)
    requires MaskedAddress(a1) == MaskedAddress(a2)
    ensures ReadByte(WriteByte(b, a1, d), a2) == d
  {
  }

  /** A write does not disturb reads through addresses that are not its aliases. */
  lemma ReadAfterWriteElsewhere(b: Bus, a1: Address, a2: Address, d: u8)
    requires MaskedAddress(a1) != MaskedAddress(a2)
    ensures ReadByte(WriteByte(b, a1, d), a2) == ReadByte(b, a2)
  {
  }
}
