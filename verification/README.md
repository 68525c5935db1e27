# Chip-8 interpreter skeleton in Dafny

This project models the core of an early Chip-8 interpreter written in Rust,
and proves properties of the model. The core covers these parts:

- **RAM** (`Memory`, memory.dfy): 4096 zero-initialised bytes. A byte can be read or written at an index, and a run of bytes through a half-open range.
- **Address bus** (`Bus`, bus.dfy): 16-bit addresses are masked to twelve bits, so every access lands in RAM and high bits alias. A word is read big-endian from `a` and the 16-bit successor of `a`, also masked, so a word at 0xFFF takes its low byte from address 0.
- **Opcode decoder** (`Opcode`, opcode.dfy): gets the nibble-aligned fields `x`, `y`, `n`, `kk` and `nnn` from a 16-bit instruction.
- **Matcher and step** (`Cpu`, cpu.dfy): an ordered table of (pattern, mask, handler) descriptors. Dispatch picks the first descriptor with `opcode & mask == pattern`. When nothing matches, dispatch is a fatal error that carries the instruction. `step` fetches the word at 0x200 and dispatches it.
- **Register file** (`Regfile`, regfile.dfy): sixteen byte registers with VF at index 15, a program counter that wraps when it advances or rewinds, and timers that count down to zero and stop there.
- **Keypad** (`Keypad`, keypad.dfy): two tables translate host key slots to Chip-8 key numbers and back. `is_key_pressed` and `any_key` answer queries, with the lowest slot winning in `any_key`. `update_state` replaces the whole key state.
- **Display** (`Display`, display.dfy): a zero-initialised 64 × 32 framebuffer of 32-bit pixels.

Fixed-width integers are bounded integer types (`Bits.u8`, `Bits.u16`, `Bits.u32`).
All wrap-around is written out as a remainder. Bitwise AND is defined bit by bit
(`Bits.BitAnd`), so the source's masks appear literally in the model. A proved lemma
connects masking with `2^k - 1` to taking the remainder modulo `2^k`. Rust panics on
out-of-range indexing become preconditions. The panic on an unmatched instruction
becomes `Failure(NoMatch(opcode))`.

In this revision of the code:

- `step` fetches from the fixed address 0x200 and does not read a program counter.
- The key state is indexed by host slot, not by Chip-8 key number.
- Timers reset to 255.

## Model

| member | source | states |
|---|---|---|
| `Memory.Default` | src/bus/memory.rs:7-14 | every byte of a fresh 0x1000-byte RAM is zero |
| `Memory.IndexRange` | src/bus/memory.rs:16-22 | reading `[start, end)` needs `start <= end <= 4096`, yields exactly `end - start` bytes, and byte `k` is the byte at `start + k` |
| `Memory.IndexIsOneByteRange` | src/bus/memory.rs:16-30 | reading the byte at `i` (which needs `i < 4096`) agrees with reading the one-byte range `[i, i + 1)` |
| `Memory.IndexRangeMut` | src/bus/memory.rs:32-36 | writing through the slice `[start, end)` stores the given bytes there, which read back unchanged, and leaves every byte outside the range unchanged |
| `Memory.IndexMut` | src/bus/memory.rs:38-42 | writing byte `i` stores the value at `i` and no other byte changes |
| `Memory.IndexMutIsRangeWrite` | src/bus/memory.rs:32-42 | a single-byte write is the same as writing the one-byte range that holds it |
| `Memory.WriteBackRangeIsIdentity` | src/bus/memory.rs:16-36 | writing back the bytes a range holds leaves the RAM unchanged |
| `Bus.MaxIsLowTwelveBits` | src/bus/mod.rs:10 | `Address::MAX` is `2^12 - 1` = 0xFFF, one less than the RAM size |
| `Bus.MaskedAddress` | src/bus/mod.rs:17-19 | the masked address is always a valid RAM index and equals the address modulo 4096 |
| `Bus.MaskedNextAddress` | src/bus/mod.rs:22-24 | the 16-bit successor, masked, is a valid index equal to `(a + 1) mod 4096`, the successor of the masked address modulo the RAM size |
| `Bus.LastAddressWrapsToZero` | src/bus/mod.rs:22-24 | after an address whose low twelve bits are 0xFFF comes address 0 |
| `Bus.ReadByte` | src/bus/mod.rs:36-38 | a byte read returns the RAM byte at the address modulo 4096, for every 16-bit address |
| `Bus.ReadWord` | src/bus/mod.rs:40-42 | a word read is big-endian: its high byte is the byte at `a`, its low byte the byte at `(a + 1) mod 4096` |
| `Bus.ReadWordIsBigEndian` | src/bus/mod.rs:40-42 | a word read equals the byte at `a` times 256 plus the byte at `(a + 1) mod 4096` |
| `Bus.ReadWordBelowTop` | src/bus/mod.rs:40-42 | below 0xFFF a word read combines the bytes at `a` and `a + 1`, with no wrap-around |
| `Bus.WordAtLastAddressWraps` | src/bus/mod.rs:40-42 | a word read at 0xFFF combines the byte at 0xFFF (high) with the byte at 0 (low) |
| `Bus.WriteByte` | src/bus/mod.rs:44-46 | after a byte write the same address reads back the written value, and every other RAM cell is unchanged |
| `Bus.AliasedAddressesReadAlike` | src/bus/mod.rs:36-38 | addresses equal modulo 4096 read the same byte |
| `Bus.OffsetByRamSizeReadsAlike` | src/bus/mod.rs:36-38 | adding any multiple of 0x1000 to an address, with 16-bit wrap-around, reads the same byte |
| `Bus.ReadAfterWriteAliased` | src/bus/mod.rs:36-46 | a value written through one address is read back through every alias of it |
| `Bus.ReadAfterWriteElsewhere` | src/bus/mod.rs:36-46 | a write does not change what non-aliased addresses read |
| `Opcode.Kk` | src/cpu/opcode.rs:13-15 | `kk` is the instruction modulo 256, the low byte |
| `Opcode.N` | src/cpu/opcode.rs:17-19 | `n` is below 16 and is the instruction modulo 16 |
| `Opcode.Nnn` | src/cpu/opcode.rs:21-23 | `nnn` is below 4096 and is the instruction modulo 4096 |
| `Opcode.X` | src/cpu/opcode.rs:25-27 | `x` is below 16 and is bits 8-11: the instruction divided by 256, modulo 16 |
| `Opcode.Y` | src/cpu/opcode.rs:29-31 | `y` is below 16 and is bits 4-7: the instruction divided by 16, modulo 16 |
| `Opcode.FieldsRecompose` | src/cpu/opcode.rs:13-31 | `nnn = x*256 + y*16 + n`, `kk = y*16 + n`, and the instruction is its top nibble times 4096 plus `nnn` |
| `Opcode.FieldsDetermineOpcode` | src/cpu/opcode.rs:5-31 | two instructions with the same top nibble and the same `x`, `y`, `n` are equal, so decoding loses nothing |
| `Cpu.Register` | src/cpu/mod.rs:16-18 | registering appends: existing descriptors keep their positions and the new one is last |
| `Cpu.MatchFrom` | src/cpu/mod.rs:22-32 | the scan from position `from` fails exactly when no descriptor at or after `from` matches, and the failure carries the instruction; otherwise it returns the handler of the first matching descriptor at or after `from` |
| `Cpu.MatchOpcode` | src/cpu/mod.rs:21-33 | dispatch fails exactly when no descriptor has `opcode & mask == pattern`, and the failure carries the instruction; otherwise it returns the handler of the first matching descriptor in registration order |
| `Cpu.FirstMatchUnique` | src/cpu/mod.rs:21-30 | the first matching position is unique |
| `Cpu.RegisterKeepsEarlierMatches` | src/cpu/mod.rs:16-30 | a new registration never changes the dispatch of an instruction an earlier descriptor matched; an instruction unmatched before goes to the new handler exactly when the new descriptor matches it |
| `Cpu.FullMaskMatchesExactly` | src/cpu/mod.rs:25-27 | a descriptor with mask 0xFFFF matches its pattern and no other instruction |
| `Cpu.Default` | src/cpu/mod.rs:36-40 | the default matcher is empty, so every instruction fails to dispatch |
| `Cpu.New` | src/cpu/mod.rs:48-53 | a new processor keeps the given bus and its matcher dispatches nothing |
| `Cpu.Fetch` | src/cpu/mod.rs:57 | the fetched instruction is the byte at 0x200 times 256 plus the byte at 0x201 |
| `Cpu.Step` | src/cpu/mod.rs:56-60 | a step fetches the word at 0x200, whatever else memory holds, and resolves to the handler dispatch finds for it, or fails with that instruction when nothing matches |
| `Cpu.StepReadsOnlyFetchWord` | src/cpu/mod.rs:56-60 | processors with the same matcher and the same bytes at 0x200 and 0x201 step identically |
| `Cpu.NewCpuStepFails` | src/cpu/mod.rs:48-60 | a newly built processor fails its first step, naming the word at 0x200 |
| `Regfile.DefaultGprs` | src/cpu/regfile.rs:3-14 | all sixteen registers start at zero |
| `Regfile.GprIndexMut` | src/cpu/regfile.rs:16-28 | writing register `i` (which needs `i < 16`) stores the value there and leaves the other registers unchanged |
| `Regfile.FlagWriteKeepsDataRegisters` | src/cpu/regfile.rs:3-5 | VF is register 15, the last one, and writing it leaves V0-VE unchanged |
| `Regfile.Decrement` | src/cpu/regfile.rs:38-43 | decrementing leaves 0 at 0, otherwise lowers the counter by exactly one, and never wraps to 255 |
| `Regfile.DecrementTimesSaturates` | src/cpu/regfile.rs:38-43 | `k` decrements take a counter `c` to `c - k` when `k <= c`, and to 0 otherwise |
| `Regfile.DefaultTimer` | src/cpu/regfile.rs:46-50 | a timer starts at 255, the largest counter value |
| `Regfile.DefaultTimerExpiresAfter255` | src/cpu/regfile.rs:38-50 | a default timer reads 0 after `k` decrements exactly when `k >= 255` |
| `Regfile.AdvancePc` | src/cpu/regfile.rs:69-71 | advancing sets `pc` to `(pc + 2) mod 65536` and changes no other register |
| `Regfile.RewindPc` | src/cpu/regfile.rs:73-75 | rewinding sets `pc` to `(pc - 2) mod 65536` and changes no other register |
| `Regfile.RewindUndoesAdvance` | src/cpu/regfile.rs:69-75 | rewinding after advancing, and advancing after rewinding, both return the original register file, also across the wrap |
| `Regfile.AdvanceKeepsPcEven` | src/cpu/regfile.rs:69-75 | advancing or rewinding keeps an even `pc` even |
| `Regfile.DefaultRegFile` | src/cpu/regfile.rs:78-88 | at reset `pc` is the ROM start truncated to 16 bits, every register is 0, the index is 0 and both timers are 255 |
| `Keypad.CpuIndex` | src/keypad/mod.rs:6-15 | a slot's Chip-8 key number needs `slot < 16` and is below 16 |
| `Keypad.KeyIndex` | src/keypad/mod.rs:17-26 | a Chip-8 key's slot needs `key < 16` and is below 16 |
| `Keypad.KeymapInverse` | src/keypad/mod.rs:6-26 | `key_index(cpu_index(k)) == k` and `cpu_index(key_index(c)) == c` for every value below 16, so the tables are inverse permutations |
| `Keypad.FromKey` | src/keypad/mod.rs:28-54 | a host key has a slot exactly when it is one of the sixteen mapped keys, and that slot is below 16 |
| `Keypad.KeyAt` | src/keypad/mod.rs:29-45 | each slot below 16 belongs to one of the mapped keys |
| `Keypad.FromKeyIsBijective` | src/keypad/mod.rs:28-54 | different mapped keys get different slots, and every slot below 16 belongs to some key |
| `Keypad.IsKeyPressed` | src/keypad/mod.rs:66-68 | Chip-8 key `c` (which needs `c < 16`) is pressed exactly when some pressed slot maps to `c` |
| `Keypad.FirstPressedFrom` | src/keypad/mod.rs:72-78 | the scan from `from` finds the lowest pressed slot at or after `from`, or nothing exactly when none is pressed |
| `Keypad.AnyKey` | src/keypad/mod.rs:70-79 | `any_key` returns nothing exactly when no slot is pressed; otherwise it returns the Chip-8 number of the lowest pressed slot, and `is_key_pressed` holds for it |
| `Keypad.PressAll` | src/keypad/mod.rs:85-89 | after marking the keys of a list, a slot is pressed exactly when it was already pressed or some listed key maps to it |
| `Keypad.UpdateState` | src/keypad/mod.rs:82-90 | after an update a slot is pressed exactly when some reported key maps to it |
| `Keypad.UpdateStateForgetsPrevious` | src/keypad/mod.rs:82-90 | the state before an update has no influence on the result |
| `Keypad.PressedAfterUpdate` | src/keypad/mod.rs:66-90 | after an update Chip-8 key `c` is pressed exactly when a reported key sits in slot `key_index(c)` |
| `Keypad.AnyKeyAfterUpdate` | src/keypad/mod.rs:70-90 | after an update `any_key` returns a key exactly when some reported key is mapped |
| `Keypad.Default` | src/keypad/mod.rs:93-97 | on a fresh keypad no key is pressed and `any_key` returns nothing |
| `Display.Default` | src/display/mod.rs:3-24 | a fresh framebuffer holds `64 * 32 = 2048` pixels and every one is zero |
| `Display.IndexMut` | src/display/mod.rs:26-38 | setting pixel `i` (which needs `i < 2048`) stores the value there and no other pixel changes |
| `Display.IndexMutOverwrites` | src/display/mod.rs:26-38 | writing a pixel's own value back changes nothing, and of two writes to one pixel only the second counts |
| `Display.AsSlice` | src/display/mod.rs:15-17 | the slice has all 2048 pixels, in index order |

## Left out

- src/lib.rs: the command-line argument structure comes from an argument-parsing library and holds no logic.
- Instruction handlers: the source stores them as function pointers, and none is registered or implemented in this revision. The model treats them as opaque `Handler` identifiers. `Cpu.Step` returns the handler and the instruction to call it with. What a handler does to the processor is not modelled.
- `Core::ROM_START` is not defined in any modelled file. `Regfile.DefaultRegFile` takes it as a parameter.
- The window library's key type has many more codes than the sixteen that are mapped. `Keypad.Key` names those sixteen and puts every other code into `Other`.
- `Display::COLOR_WHITE` gives a pixel value meaning for the host, and drawing to a window is host I/O.
- `Display::as_mut_slice` lends the whole framebuffer for mutation. The functional model has no mutable borrow; any change made through it is a sequence of the pixel writes `Display.IndexMut` covers.
- `Timer::counter` is a mutable accessor for the counter field. The model reads the field as `t.counter` and writes it by building `Timer(v)`.
- `Bus::new`, `Address::new`, `Opcode::new`, `Opcode::raw` and `Cpu::new`'s field wiring are the datatype constructors and fields.
- `usize` indices are modelled as unbounded naturals. Every index in the core is below 4096, so the width never matters.
- `Memory.Index`, `Regfile.GprIndex` and `Display.Index` are plain reads with no contract of their own. Their meaning is stated by the write and range members listed above.
