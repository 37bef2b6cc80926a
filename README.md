# sn-machine execution engine in Dafny

A model of the instruction execution engine of sn-machine, a simulator of a
small 8-bit teaching computer. The machine has four parts:

- a memory bank of 1 to 256 byte cells;
- a register file of 1 to 16 byte registers;
- an instruction counter;
- a halt flag.

An instruction is two consecutive memory bytes, read as four hex digits. The
first digit is the opcode; the others are operand fields R, S, T or XY.
`execute_instruction` builds the instruction string, moves the counter past
the instruction and then dispatches to one of twelve handlers:

- load from a cell, load an immediate, store, move;
- two identical adds;
- or, and, xor;
- rotate right;
- jump if equal to register 0;
- halt.

`execute` fetches at the counter. In run mode it then calls itself until the
machine halts or fewer than three cells lie from the counter on.

The project has five modules:

- `Cells` (cells.dfy) — the byte a cell holds, the assumed write rule
  (modulo 256) and the assumed two-digit lower-case rendering `tostr()`.
- `Instructions` (instructions.dfy) — `create_instruction` and the operand
  fields parsed back with `int(..., 16)`.
- `Alu` (alu.dfy) — the values the add, bitwise and rotate handlers compute,
  on Python's unbounded integers.
- `Semantics` (semantics.dfy) — the engine as functions on a machine value:
  - the handlers, `execute_instruction`, the guarded fetch and `execute`;
  - the lemmas that state what each opcode and each run does.
- `Engine` (engine.dfy) — the engine as the source runs it. Class `Computer`
  holds the memory bank and the register file as arrays that are updated in
  place, and the counter and the halt flag as fields. Each of its methods is
  proved equal to the matching `Semantics` function.

An index beyond the register file or the memory bank raises Python's
`IndexError` in the source. The model makes that an explicit outcome:

- `OperandFault` when a handler raises it; the counter has already moved on
  by then;
- `FetchFault` when the fetch of the instruction's second byte raises it;
- `Fault` when either escapes `execute`.

Where the code behaves in a way a reader might not expect, the model follows
the code:

- The fetch guard `len(cells) >= icounter + 1` (`__main__.py:189`) admits a
  counter on the last cell. Reading `cells[icounter + 1]` then raises; the
  engine does not stop quietly.
- The continuation guard `len(cells) >= icounter + 3` (`__main__.py:191`)
  stops a run before an instruction in the last two cells. In run mode the
  program `21 05 c0 00` loads register 1 and returns without reaching its
  halt (`RunSkipsFinalHalt`). Stepping it twice does halt (`TwoStepsHalt`).
- `execute` does not test the halt flag before it fetches. A halted machine
  still executes the instruction at the counter (`HaltedMachineStillSteps`).
- The comment above the add (`__main__.py:91-93`) calls its result two's
  complement, but the code applies its own rule: an operand above 127 is
  negated (0xff counts as -255), and a sum above 127 is negated
  (`AddIsNotTwosComplement`).

## Model

| member | source | states |
|---|---|---|
| Cells.Trunc | __main__.py:112 | the value a cell holds after `setvalue(hex(v))` is a byte congruent to v modulo 256, and equals v when v is already a byte (the assumed cell write) |
| Cells.ParseHex | __main__.py:56-57 | definition of `int(s, 16)` on lower-case digits; `Cells.ToStr` and `Instructions.Operand` state its value on the strings the engine builds |
| Cells.ToStr | __main__.py:14 | `tostr()` gives two lower-case hex digits, high nibble first, and parsing them back gives the byte |
| Cells.HexDigit | __main__.py:18-40 | the digit of a nibble is a lower-case hex digit, and is a decimal digit exactly when the nibble is below 10 |
| Cells.HexValue | __main__.py:55 | `int(c, 16)` of a digit is below 16 and renders back to the same digit |
| Instructions.Nibble | __main__.py:55 | an operand nibble `int(instruction[i], 16)` is below 16 |
| Instructions.Operand | __main__.py:56-57 | `int(instruction[2:], 16)` is below 256 and is 16 times nibble 2 plus nibble 3 |
| Instructions.CreateInstruction | __main__.py:46-49 | definition: the two rendered bytes concatenated; what the result holds is stated by `Instructions.Fields` |
| Instructions.Fields | __main__.py:14-15 | the instruction built from bytes a and b is four hex digits: its opcode digit is the high nibble of a, R the low nibble of a, XY is b, and S and T the nibbles of b |
| Alu.Signed | __main__.py:99-105 | an operand above 127 is negated and one up to 127 kept, so the result is negative exactly when the byte exceeds 127 |
| Alu.AddValue | __main__.py:107-110 | the add's value lies in -510..127; it is the plain sum when that is at most 127, the negated sum when two small operands overflow, and the sum of the signed operands when either is above 127 |
| Alu.AddValueCommutes | __main__.py:94-112 | the add is symmetric in S and T |
| Alu.AddIsNotTwosComplement | __main__.py:91-112 | the add disagrees with two's complement: ff+01 gives 02 (not 00), c8+c8 gives 70 (not 90) |
| Alu.Bitwise | __main__.py:132 | definition of Python's `\|`, `&` and `^` on naturals; stated bit by bit by `Alu.BitwiseBit`, bounded by `Alu.BitwiseBound` |
| Alu.BitwiseBit | __main__.py:132 | bit i of `x \| y`, `x & y` and `x ^ y` is the operation applied to bit i of x and of y |
| Alu.BitwiseBound | __main__.py:142 | operands below 2^k give a result below 2^k |
| Alu.BitwiseOnBytes | __main__.py:127-152 | or, and and xor of two bytes give a byte, which the write keeps unchanged |
| Alu.OrDisjoint | __main__.py:168 | or-ing a value below 2^k with a value shifted left by k is their sum |
| Alu.OrZero | __main__.py:168 | 0 or c is c |
| Alu.ShiftRight | __main__.py:166 | definition of `v >> n`; its value is stated by `Alu.ShiftRightIsDiv` |
| Alu.ShiftLeft | __main__.py:167 | definition of `v << n`; its value is stated by `Alu.ShiftLeftIsMul` |
| Alu.ShiftRightIsDiv | __main__.py:166 | `v >> n` is v divided by 2^n |
| Alu.ShiftLeftIsMul | __main__.py:167 | `v << n` is v times 2^n |
| Alu.RotatedInRange | __main__.py:165-169 | with p * q = 256, the high part v / p is below q and the rotated value is a byte |
| Alu.OrOfShifts | __main__.py:166-168 | `(v >> n) \| (v << (8 - n))` is v / 2^n + v * 2^(8-n): the two shifted parts do not overlap |
| Alu.SplitRotation | __main__.py:168-169 | v / p + v * q kept modulo 256 is the rotated byte, the low part of v moved to the top |
| Alu.ShiftsAreRotated | __main__.py:166-169 | the two shifts, added and kept modulo 256, give the circular right rotation by n |
| Alu.RotateValue | __main__.py:165-169 | definition of the value `rotate` writes; stated as a circular rotation by `Alu.RotateIsCircular` |
| Alu.RotateIsCircular | __main__.py:159-169 | the value `rotate` writes is the circular right rotation of the byte by x mod 8 |
| Alu.UnsplitRotation | __main__.py:159-169 | splitting a rotated byte at the complementary position gives the original byte back |
| Alu.RotatedRestores | __main__.py:159-169 | rotating by n and then by 8 - n gives the byte back |
| Alu.RotateByZero | __main__.py:165-169 | a rotation amount that is a multiple of 8 leaves the register unchanged |
| Alu.RotateRestores | __main__.py:159-169 | rotating by x and then by y, with x + y a multiple of 8, restores the original value |
| Alu.RotateThenBack | __main__.py:159-169 | rotating by x and then by y with y mod 8 = 8 - x mod 8 restores the original value |
| Alu.Pow2Add | __main__.py:166-167 | 2^(a+b) = 2^a * 2^b, the arithmetic behind the two shifts |
| Alu.HalfDiv | __main__.py:166 | halving v and then dividing by p is dividing v by 2p, one step of `>>` |
| Alu.DivUnique | __main__.py:165 | quotient and remainder are unique, the arithmetic behind `x % bits` |
| Semantics.LoadFromCell | __main__.py:54-59 | definition of the handler on a machine value; its whole effect, including the IndexError case, is stated by `Semantics.LoadFromCellEffect` |
| Semantics.LoadWith | __main__.py:64-69 | definition of the handler on a machine value; its whole effect, including the IndexError case, is stated by `Semantics.LoadWithEffect` |
| Semantics.Store | __main__.py:74-79 | definition of the handler on a machine value; its whole effect, including the IndexError case, is stated by `Semantics.StoreEffect` |
| Semantics.Move | __main__.py:84-88 | definition of the handler on a machine value; its whole effect, including the IndexError case, is stated by `Semantics.MoveEffect` |
| Semantics.AddComplement | __main__.py:94-112 | definition of the handler on a machine value; its whole effect, including the IndexError case, is stated by `Semantics.AddEffect` |
| Semantics.AddFloat | __main__.py:121-122 | definition of the handler on a machine value; its whole effect, including the IndexError case, is stated by `Semantics.AddFloatIsAddComplement` |
| Semantics.Logic | __main__.py:127-152 | definition of the handler on a machine value; its whole effect, including the IndexError case, is stated by `Semantics.LogicEffect` |
| Semantics.OrInstr | __main__.py:127-132 | definition of the handler on a machine value; its whole effect, including the IndexError case, is stated by `Semantics.LogicEffect` |
| Semantics.AndInstr | __main__.py:137-142 | definition of the handler on a machine value; its whole effect, including the IndexError case, is stated by `Semantics.LogicEffect` |
| Semantics.XorInstr | __main__.py:147-152 | definition of the handler on a machine value; its whole effect, including the IndexError case, is stated by `Semantics.LogicEffect` |
| Semantics.Rotate | __main__.py:159-169 | definition of the handler on a machine value; its whole effect, including the IndexError case, is stated by `Semantics.RotateEffect` |
| Semantics.Jump | __main__.py:175-178 | definition of the handler on a machine value; its whole effect, including the IndexError case, is stated by `Semantics.JumpEffect` |
| Semantics.Halt | __main__.py:182-184 | definition of the handler on a machine value; its whole effect, including the IndexError case, is stated by `Semantics.HaltEffect` |
| Semantics.ExecuteInstruction | __main__.py:12-43 | one instruction keeps the sizes of the memory bank and register file and never ends in a fetch failure |
| Semantics.OpcodeDigit | __main__.py:15-41 | each opcode test `opcode == '1'` ... `opcode == 'c'` holds exactly when the first byte's high nibble is that opcode |
| Semantics.CounterAdvances | __main__.py:16-41 | for every opcode but b the counter ends two past the instruction, whether the handler ran, raised or was missing |
| Semantics.UnrecognizedIsNoOp | __main__.py:42-43 | exactly opcodes 0, d, e and f are unrecognised, and they change nothing but the counter |
| Semantics.LoadFromCellEffect | __main__.py:54-59 | `1RXY` sets register R to cell XY and changes nothing else; an out-of-range R or XY raises and only the counter has moved |
| Semantics.LoadWithEffect | __main__.py:64-69 | `2RXY` sets register R to XY and changes nothing else; an out-of-range R raises |
| Semantics.StoreEffect | __main__.py:74-79 | `3RXY` sets cell XY to register R and changes nothing else; an out-of-range R or XY raises |
| Semantics.MoveEffect | __main__.py:84-88 | `4*RS` sets register S to register R, ignoring the second digit, and changes nothing else; an out-of-range R or S raises |
| Semantics.AddEffect | __main__.py:94-112 | `5RST` and `6RST` set register R to the add rule's value for S and T (each operand above 127 negated, a sum above 127 negated) kept modulo 256 and change nothing else |
| Semantics.AddFloatIsAddComplement | __main__.py:121-122 | opcode 6 behaves exactly as opcode 5 on every machine and operand |
| Semantics.LogicEffect | __main__.py:127-152 | `7RST`, `8RST`, `9RST` set register R to S or, and, xor T and change nothing else |
| Semantics.RotateEffect | __main__.py:159-169 | `aR*X` sets register R to its circular right rotation by register X mod 8, ignoring the third digit, and changes nothing else |
| Semantics.JumpEffect | __main__.py:175-178 | `bRXY` sets the counter to XY itself when register R equals register 0 and to two past the instruction otherwise; no cell, register or halt flag changes |
| Semantics.HaltEffect | __main__.py:182-184 | `c***` sets the halt flag and changes nothing but the counter |
| Semantics.Fetch | __main__.py:189-190 | the guarded fetch keeps the sizes of the memory bank and register file |
| Semantics.Execute | __main__.py:187-192 | a run keeps the sizes of the banks; a run-mode call that returns has halted or has fewer than three cells from the counter on; a single step with fuel always finishes |
| Semantics.Cycle | __main__.py:189-192 | one call with fuel keeps the sizes of the banks, returns in run mode only when halted or near the end of memory, and never runs out of fuel when single-stepping |
| Semantics.SingleStep | __main__.py:187-192 | `execute(True)` performs the fetch at the counter and nothing more |
| Semantics.FuelMonotone | __main__.py:187-192 | a run that finished within some fuel ends identically with any larger fuel |
| Semantics.CycleMonotone | __main__.py:189-192 | one call that finished within some fuel ends identically with any larger fuel |
| Semantics.HaltEndsRun | __main__.py:182-192 | a halt at the counter ends the run in either mode, with the halt flag set and only the counter otherwise changed |
| Semantics.FetchOnLastCellFaults | __main__.py:189-190 | with the counter on the last cell the fetch guard passes and reading the second byte raises, with nothing changed |
| Semantics.RunStopsBeforeLastTwoCells | __main__.py:191-192 | in run mode, an instruction that leaves the counter on the last two cells ends the run, though the instruction there is fully in memory |
| Semantics.RunSkipsFinalHalt | __main__.py:187-192 | run mode on `21 05 c0 00` from address 0 returns with register 1 = 5, the counter at 2 and the machine not halted |
| Semantics.TwoStepsHalt | __main__.py:182-192 | stepping the same program again executes the halt: counter 4, halted |
| Semantics.HaltedMachineStillSteps | __main__.py:187-190 | `execute` on a machine that is already halted still executes the instruction at the counter |
| Engine.Computer.constructor | __main__.py:211-219 | a fresh machine has the requested numbers of cells and registers, all zero, the given counter and the halt flag clear |
| Engine.Computer.LoadFromCell | __main__.py:54-59 | on success the register file is updated as `Semantics.LoadFromCell` says; on IndexError the state is unchanged |
| Engine.Computer.LoadWith | __main__.py:64-69 | the same, against `Semantics.LoadWith` |
| Engine.Computer.Store | __main__.py:74-79 | the same, against `Semantics.Store`, updating the memory bank in place |
| Engine.Computer.Move | __main__.py:84-88 | the same, against `Semantics.Move` |
| Engine.Computer.AddComplement | __main__.py:94-112 | the in-place negate-and-add code writes the value `Semantics.AddComplement` gives |
| Engine.Computer.AddFloat | __main__.py:121-122 | the same as `AddComplement`, against `Semantics.AddFloat` |
| Engine.Computer.Logic | __main__.py:127-152 | the shared or/and/xor code writes the value `Semantics.Logic` gives |
| Engine.Computer.OrInstr | __main__.py:127-132 | the same, against `Semantics.OrInstr` |
| Engine.Computer.AndInstr | __main__.py:137-142 | the same, against `Semantics.AndInstr` |
| Engine.Computer.Xor | __main__.py:147-152 | the same, against `Semantics.XorInstr` |
| Engine.Computer.Rotate | __main__.py:159-169 | the two shifts and the or, written to register R, give the state `Semantics.Rotate` gives |
| Engine.Computer.Jump | __main__.py:175-178 | the counter is reassigned as `Semantics.Jump` says; on IndexError nothing changes |
| Engine.Computer.Halt | __main__.py:182-184 | the halt flag is set and nothing else changes |
| Engine.Computer.ExecuteInstruction | __main__.py:12-43 | the in-place counter advance and dispatch leave the state and status `Semantics.ExecuteInstruction` gives |
| Engine.Computer.Fetch | __main__.py:189-190 | the guarded fetch leaves the state and status `Semantics.Fetch` gives |
| Engine.Computer.Execute | __main__.py:187-192 | the recursive run leaves the state and outcome `Semantics.Execute` gives |

## Left out

- `main` (`__main__.py:195` onward): the console prompts and the edit loops are I/O. Only the creation of zeroed cells and registers is modelled, by the constructor.
- `display` and the `print` for an unrecognised opcode: output only. An unrecognised opcode is the `Unrecognized` status.
- `processor.Cell` is not part of this model. Its write is taken to keep the value modulo 256 (`Cells.Trunc`), including the negative values the add hands to `hex(...)`. Its `tostr()` is taken to give two lower-case hex digits (`Cells.ToStr`).
- Cells.ToStr: upper-case or unpadded renderings are not modelled, so opcodes `A`..`C` cannot arise.
- Semantics.Execute: the recursion is bounded by a `fuel` argument, because a jump can loop forever; the `OutOfFuel` outcome has no counterpart in the source, and Python's own recursion limit is not modelled.
- Engine.Computer.Execute: the same fuel bound as `Semantics.Execute`.
- Semantics.Machine: the counter is a nat. A negative counter typed at the prompt (`__main__.py:206-207`), which Python would index from the end of the memory bank, is not modelled; neither is a negative start for `Engine.Computer.constructor`.
- Floating-point addition: opcode 6 only calls the integer add, so there is none to model.
- Cell identity (the address each `Cell` is created with) is not modelled; only values are.
