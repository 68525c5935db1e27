/** The register file (src/cpu/regfile.rs): the program counter, the sixteen
    general-purpose byte registers V0-VF, the index register and the delay
    and sound timers. */
module Regfile {
  import opened Bits

  const NUM_GPRS: nat := 16

  /** VF, the flag register, is the last general-purpose register. */
  const VF: nat := 15

  type Gprs = s: seq<u8> | |s| == NUM_GPRS witness seq(NUM_GPRS, _ => 0)

  /** Every register starts at zero. */
  function DefaultGprs(): (g: Gprs)
    ensures forall i :: 0 <= i < NUM_GPRS ==> GprIndex(g, i) == 0
  {
    seq(NUM_GPRS, _ => 0)
  }

  /** The value of register `i`; an index past VF panics in the source. */
  function GprIndex(g: Gprs, i: nat): u8
    requires i < NUM_GPRS
  {
    g[i]
  }

  /** Stores `v` in register `i`; no other register changes. */
  function GprIndexMut(g: Gprs, i: nat, v: u8): (g': Gprs)
    requires i < NUM_GPRS
    ensures GprIndex(g', i) == v
    ensures forall j :: 0 <= j < NUM_GPRS && j != i ==> GprIndex(g', j) == GprIndex(g, j)
  {
    g[i := v]
  }

  /** Setting the flag register leaves V0-VE as they were. */
  lemma FlagWriteKeepsDataRegisters(g: Gprs, v: u8)
    ensures VF == NUM_GPRS - 1
    ensures GprIndexMut(g, VF, v)[..VF] == g[..VF]
  {
    var g' := GprIndexMut(g, VF, v);
    assert forall j :: 0 <= j < VF ==> g'[..VF][j] == GprIndex(g', j);
  }

  /** An 8-bit down-counter; its `counter` accessor is the field itself. */
  datatype Timer = Timer(counter: u8)

  /** Counts down by one unless already at zero: zero is never left and the
      counter never wraps round to 255. */
  function Decrement(t: Timer): (t': Timer)
    ensures t.counter == 0 ==> t'.counter == 0
    ensures t.counter > 0 ==> t'.counter == t.counter - 1
    ensures t'.counter <= t.counter
  {
    if t.counter > 0 then Timer((t.counter - 1) % 0x100) else t
  }

  /** A timer starts at its maximum, 255. */
  function DefaultTimer(): (t: Timer)
    ensures t.counter == U8_MAX
    ensures forall u: Timer :: u.counter <= t.counter
  {
    Timer(U8_MAX)
  }

  /** The timer after `k` decrements. */
  function DecrementTimes(t: Timer, k: nat): Timer
    decreases k
  {
    if k == 0 then t else DecrementTimes(Decrement(t), k - 1)
  }

  /** Repeated decrements count down to zero and stay there. */
  lemma {:induction false} DecrementTimesSaturates(t: Timer, k: nat)
    ensures DecrementTimes(t, k).counter == if k <= t.counter then t.counter - k else 0
    decreases k
  {
    if k > 0 {
      DecrementTimesSaturates(Decrement(t), k - 1);
    }
  }

  /** A default timer reaches zero after exactly 255 decrements. */
  lemma DefaultTimerExpiresAfter255(k: nat)
    ensures DecrementTimes(DefaultTimer(), k).counter == 0 <==> k >= 255
  {
    DecrementTimesSaturates(DefaultTimer(), k);
  }

  datatype RegFile = RegFile(pc: u16, gprs: Gprs, index: u16, delayTimer: Timer, soundTimer: Timer)

  /** An instruction is `size_of::<u16>()` bytes long. */
  const INSTRUCTION_SIZE: nat := 2

  /** Moves the program counter to the next instruction, wrapping at 16 bits;
      nothing else changes. */
  function AdvancePc(rf: RegFile): (rf': RegFile)
    ensures rf'.pc == (rf.pc + INSTRUCTION_SIZE) % 0x1_0000
    ensures rf' == rf.(pc := rf'.pc)
  {
    rf.(pc := (rf.pc + INSTRUCTION_SIZE) % 0x1_0000)
  }

  /** Moves the program counter back one instruction, wrapping at 16 bits;
      nothing else changes. */
  function RewindPc(rf: RegFile): (rf': RegFile)
    ensures rf'.pc == (rf.pc - INSTRUCTION_SIZE) % 0x1_0000
    ensures rf' == rf.(pc := rf'.pc)
  {
    rf.(pc := (rf.pc - INSTRUCTION_SIZE) % 0x1_0000)
  }

  /** Rewinding undoes advancing and advancing undoes rewinding, also across the wrap. */
  lemma RewindUndoesAdvance(rf: RegFile)
    ensures RewindPc(AdvancePc(rf)) == rf
    ensures AdvancePc(RewindPc(rf)) == rf
  {
  }

  /** Stepping keeps an even program counter even, because the modulus is even. */
  lemma AdvanceKeepsPcEven(rf: RegFile)
    requires rf.pc % 2 == 0
    ensures AdvancePc(rf).pc % 2 == 0
    ensures RewindPc(rf).pc % 2 == 0
  {
  }

  /** The register file at reset. `rom_start` is the program load address
      (defined outside the modelled files) and is truncated to 16 bits. */
  function DefaultRegFile(romStart: nat): (rf: RegFile)
    ensures rf.pc == romStart % 0x1_0000
    ensures forall i :: 0 <= i < NUM_GPRS ==> GprIndex(rf.gprs, i) == 0
    ensures rf.index == 0
    ensures rf.delayTimer.counter == U8_MAX && rf.soundTimer.counter == U8_MAX
  {
    RegFile(romStart % 0x1_0000, DefaultGprs(), 0, DefaultTimer(), DefaultTimer())
  }
}
