/** Fixed-width unsigned integers of the interpreter, modelled as bounded
    integers, and the bit-level operations the interpreter applies to them.
    Wrap-around is always written out as a remainder; bitwise AND is defined
    bit by bit so that the masks of the interpreter stay literal. */
module Bits {

  type u8 = x: int | 0 <= x < 0x100
  type u16 = x: int | 0 <= x < 0x1_0000
  type u32 = x: int | 0 <= x < 0x1_0000_0000

  const U8_MAX: u8 := 0xFF

  function Pow2(k: nat): (r: nat)
    ensures r >= 1
  {
    if k == 0 then 1 else 2 * Pow2(k - 1)
  }

  lemma Pow2OfNibbles()
    ensures Pow2(4) == 0x10 && Pow2(8) == 0x100 && Pow2(12) == 0x1000 && Pow2(16) == 0x1_0000
  {
    assert Pow2(4) == 0x10;
    assert Pow2(8) == 0x10 * Pow2(4);
    assert Pow2(12) == 0x10 * Pow2(8);
    assert Pow2(16) == 0x10 * Pow2(12);
  }

  /** Bitwise AND of two naturals, computed from the least significant bit up. */
  function BitAnd(a: nat, b: nat): (r: nat)
    ensures r <= a && r <= b
    decreases a
  {
    if a == 0 || b == 0 then 0
    else 2 * BitAnd(a / 2, b / 2) + (if a % 2 == 1 && b % 2 == 1 then 1 else 0)
  }

  /** Logical shift right of a u16 as `u16::wrapping_shr` does it: the shift
      amount is taken modulo the width. */
  function WrappingShr16(a: u16, k: nat): (r: u16)
    ensures r <= a
  {
    var d := Pow2(k % 16);
    DivNoLarger(a, d);
    a / d
  }

  /** `u16::from_be_bytes([hi, lo])`: the first byte is the most significant. */
  function FromBeBytes(hi: u8, lo: u8): (w: u16)
    ensures w / 0x100 == hi && w % 0x100 == lo
  {
    (hi as int) * 0x100 + (lo as int)
  }

  lemma DivNoLarger(a: nat, d: nat)
    requires d >= 1
    ensures 0 <= a / d <= a
  {
    var q := a / d;
    assert a == d * q + a % d;
    if q > a {
      MulAtLeast(q, d);
    }
  }

  /** The remainder modulo 2p keeps the low bit and the remainder of the rest modulo p. */
  lemma ModOfDouble(a: nat, p: nat)
    requires p >= 1
    ensures a % (2 * p) == 2 * ((a / 2) % p) + a % 2
  {
    var h, s := a / 2, (a / 2) % p;
    var q := h / p;
    assert h == p * q + s;
    assert a == 2 * h + a % 2;
    assert a == (2 * p) * q + (2 * s + a % 2);
    assert 0 <= 2 * s + a % 2 < 2 * p;
    ModUnique(a, 2 * p, q, 2 * s + a % 2);
  }

  lemma ModUnique(a: int, d: int, q: int, r: int)
    requires d >= 1 && 0 <= r < d && a == d * q + r
    ensures a % d == r && a / d == q
  {
    var q', r' := a / d, a % d;
    assert a == d * q' + r';
    var t := q - q';
    assert d * t == r' - r;
    if t >= 1 {
      MulAtLeast(d, t);
    } else if t <= -1 {
      MulAtLeast(d, -t);
    }
  }

  lemma ModOfSmaller(a: int, d: int)
    requires 0 <= a < d
    ensures a % d == a
  {
    ModUnique(a, d, 0, a);
  }

  lemma MulAtLeast(d: int, t: int)
    requires d >= 1 && t >= 1
    ensures d * t >= d
  {
    assert d * t == d + d * (t - 1);
  }

  /** Masking with 2^k - 1 keeps exactly the low k bits: it is the remainder modulo 2^k. */
  lemma {:induction false} BitAndLowMask(a: nat, k: nat)
    ensures BitAnd(a, Pow2(k) - 1) == a % Pow2(k)
    decreases k, 1
  {
    if k == 0 {
      EmptyMask(a, k);
    } else {
      LowMaskInduct(a, k);
    }
  }

  lemma {:induction false} LowMaskInduct(a: nat, k: nat)
    requires k >= 1
    ensures BitAnd(a, Pow2(k) - 1) == a % Pow2(k)
    decreases k, 0
  {
    BitAndLowMask(a / 2, k - 1);
    LowMaskStep(a, k);
  }

  lemma EmptyMask(a: nat, k: nat)
    requires k == 0
    ensures BitAnd(a, Pow2(k) - 1) == a % Pow2(k)
  {
    assert Pow2(k) == 1;
  }

  /** The induction step of `BitAndLowMask`: one more mask bit keeps one more low bit. */
  lemma LowMaskStep(a: nat, k: nat)
    requires k >= 1
    requires BitAnd(a / 2, Pow2(k - 1) - 1) == (a / 2) % Pow2(k - 1)
    ensures BitAnd(a, Pow2(k) - 1) == a % Pow2(k)
  {
    var p := Pow2(k - 1);
    assert Pow2(k) == 2 * p;
    LowMaskStepOf(a, p);
  }

  lemma LowMaskStepOf(a: nat, p: nat)
    requires p >= 1
    requires BitAnd(a / 2, p - 1) == (a / 2) % p
    ensures BitAnd(a, 2 * p - 1) == a % (2 * p)
  {
    if a == 0 {
      ModOfSmaller(0, 2 * p);
    } else {
      BitAndOddMask(a, p);
      ModOfDouble(a, p);
    }
  }

  /** One step of `BitAnd` against an odd mask: the low bit of `a` survives. */
  lemma BitAndOddMask(a: nat, p: nat)
    requires a >= 1 && p >= 1
    ensures BitAnd(a, 2 * p - 1) == 2 * BitAnd(a / 2, p - 1) + a % 2
  {
    var m := 2 * p - 1;
    assert m % 2 == 1 && m / 2 == p - 1;
  }

  /** Adding a multiple of 2^12 does not change the low twelve bits, even across
      16-bit wrap-around, because 2^12 divides 2^16. */
  lemma {:induction false} WrapKeepsLow12(a: int, k: int)
    ensures ((a + 0x1000 * k) % 0x1_0000) % 0x1000 == a % 0x1000
  {
    var b := a + 0x1000 * k;
    var w := b % 0x1_0000;
    assert b == 0x1_0000 * (b / 0x1_0000) + w;
    assert w == a + 0x1000 * (k - 16 * (b / 0x1_0000));
    var q := a / 0x1000;
    assert a == 0x1000 * q + a % 0x1000;
    assert w == 0x1000 * (q + k - 16 * (b / 0x1_0000)) + a % 0x1000;
    ModUnique(w, 0x1000, q + k - 16 * (b / 0x1_0000), a % 0x1000);
  }

  /** Dividing by 16 twice is dividing by 256. */
  lemma DivBy16Twice(v: nat)
    ensures v / 0x10 / 0x10 == v / 0x100
  {
    var c := v / 0x10;
    var b := c / 0x10;
    assert v == 0x10 * c + v % 0x10;
    assert c == 0x10 * b + c % 0x10;
    assert v == 0x100 * b + (0x10 * (c % 0x10) + v % 0x10);
    ModUnique(v, 0x100, b, 0x10 * (c % 0x10) + v % 0x10);
  }

  /** Taking the remainder before adding one does not change the remainder after. */
  lemma ModSuccessor(a: nat, d: nat)
    requires d >= 1
    ensures (a % d + 1) % d == (a + 1) % d
  {
    var q, r := a / d, a % d;
    assert a + 1 == d * q + (r + 1);
    if r + 1 < d {
      ModUnique(a + 1, d, q, r + 1);
      ModUnique(r + 1, d, 0, r + 1);
    } else {
      assert a + 1 == d * (q + 1) + 0;
      ModUnique(a + 1, d, q + 1, 0);
      ModUnique(r + 1, d, 1, 0);
    }
  }

  /** The masks of the interpreter, each keeping the low bits of a value. */
  lemma MaskLowNibble(a: nat)
    ensures BitAnd(a, 0xF) == a % 0x10
  {
    Pow2OfNibbles();
    BitAndLowMask(a, 4);
  }

  lemma MaskLowByte(a: nat)
    ensures BitAnd(a, 0xFF) == a % 0x100
  {
    Pow2OfNibbles();
    BitAndLowMask(a, 8);
  }

  lemma MaskLow12(a: nat)
    ensures BitAnd(a, 0xFFF) == a % 0x1000
  {
    Pow2OfNibbles();
    BitAndLowMask(a, 12);
  }

  lemma MaskLow16(a: u16)
    ensures BitAnd(a, 0xFFFF) == a
  {
    Pow2OfNibbles();
    BitAndLowMask(a, 16);
    ModOfSmaller(a, 0x1_0000);
  }

  /** The low twelve bits of the 16-bit successor of `a` are the successor of
      the low twelve bits of `a`, modulo 2^12. */
  lemma Low12OfSuccessor(a: nat)
    ensures ((a + 1) % 0x1_0000) % 0x1000 == (a + 1) % 0x1000
    ensures (a + 1) % 0x1000 == (a % 0x1000 + 1) % 0x1000
  {
    WrapKeepsLow12(a + 1, 0);
    ModSuccessor(a, 0x1000);
  }

  /** Masking the 16-bit successor of `a` to twelve bits. */
  lemma MaskLow12OfSuccessor(a: u16)
    ensures BitAnd((a + 1) % 0x1_0000, 0xFFF) == (a + 1) % 0x1000
    ensures (a + 1) % 0x1000 == (a % 0x1000 + 1) % 0x1000
  {
    MaskLow12((a + 1) % 0x1_0000);
    Low12OfSuccessor(a);
  }
}
