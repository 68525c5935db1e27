/** A fetched instruction and its nibble-aligned fields (src/cpu/opcode.rs).
    Bits 12-15 select the instruction class, `x` is bits 8-11, `y` bits 4-7,
    `n` bits 0-3, `kk` bits 0-7 and `nnn` bits 0-11. The value is never
    changed by decoding: `Opcode::new` is the constructor and `raw` its field. */
module Opcode {
  import opened Bits

  datatype Opcode = Opcode(raw: u16)

  /** The byte immediate: the low eight bits. */
  function Kk(op: Opcode): (r: u8)
    ensures r == op.raw % 0x100
  {
    MaskLowByte(op.raw);
    BitAnd(op.raw, 0xFF)
  }

  /** The nibble immediate: the low four bits. */
  function N(op: Opcode): (r: nat)
    ensures r < 0x10
    ensures r == op.raw % 0x10
  {
    MaskLowNibble(op.raw);
    BitAnd(op.raw, 0xF)
  }

  /** The address immediate: the low twelve bits. */
  function Nnn(op: Opcode): (r: u16)
    ensures r < 0x1000
    ensures r == op.raw % 0x1000
  {
    MaskLow12(op.raw);
    BitAnd(op.raw, 0xFFF)
  }

  /** The first register operand: bits 8-11. */
  function X(op: Opcode): (r: nat)
    ensures r < 0x10
    ensures r == op.raw / 0x100 % 0x10
  {
    Pow2OfNibbles();
    var shifted := WrappingShr16(op.raw, 8);
    MaskLowNibble(shifted);
    BitAnd(shifted, 0xF)
  }

  /** The second register operand: bits 4-7. */
  function Y(op: Opcode): (r: nat)
    ensures r < 0x10
    ensures r == op.raw / 0x10 % 0x10
  {
    Pow2OfNibbles();
    var shifted := WrappingShr16(op.raw, 4);
    MaskLowNibble(shifted);
    BitAnd(shifted, 0xF)
  }

  /** The fields tile the instruction: `nnn` is `x`, `y`, `n` side by side,
      `kk` is `y` and `n`, and the instruction is its class nibble above `nnn`. */
  lemma FieldsRecompose(op: Opcode)
    ensures Nnn(op) == X(op) * 0x100 + Y(op) * 0x10 + N(op)
    ensures Kk(op) == Y(op) * 0x10 + N(op)
    ensures op.raw == op.raw / 0x1000 * 0x1000 + Nnn(op)
  {
    var v := op.raw;
    var x, y, n := X(op), Y(op), N(op);
    var a, b, c := v / 0x1000, v / 0x100, v / 0x10;
    DivBy16Twice(v);
    DivBy16Twice(c);
    DivBy16Twice(b);
    assert c / 0x100 == b / 0x10;
    assert a == b / 0x10 by {
      var a' := b / 0x10;
      assert v == 0x100 * b + v % 0x100;
      assert b == 0x10 * a' + b % 0x10;
      assert v == 0x1000 * a' + (0x100 * (b % 0x10) + v % 0x100);
      ModUnique(v, 0x1000, a', 0x100 * (b % 0x10) + v % 0x100);
    }
    assert v == 0x10 * c + n;
    assert c == 0x10 * b + y;
    assert b == 0x10 * a + x;
    assert v == 0x1000 * a + (x * 0x100 + y * 0x10 + n);
    ModUnique(v, 0x1000, a, x * 0x100 + y * 0x10 + n);
    assert v == 0x100 * b + (y * 0x10 + n);
    ModUnique(v, 0x100, b, y * 0x10 + n);
  }

  /** The class nibble together with `x`, `y` and `n` determines the instruction. */
  lemma FieldsDetermineOpcode(p: Opcode, q: Opcode)
    requires p.raw / 0x1000 == q.raw / 0x1000
    requires X(p) == X(q) && Y(p) == Y(q) && N(p) == N(q)
    ensures p == q
  {
    FieldsRecompose(p);
    FieldsRecompose(q);
  }
}
