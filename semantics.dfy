// The execution engine as functions on a machine value: the twelve handlers,
// one instruction (`execute_instruction`), the guarded fetch, and the run
// (`execute`). The class in engine.dfy is proved against these functions.

module Semantics {
  import opened Cells
  import opened Instructions
  import opened Alu

  /** The engine's state: the memory bank, the register file, the instruction
      counter and the halt flag. */
  datatype Machine = Machine(cells: seq<Byte>, registers: seq<Byte>, icounter: nat, complete: bool)

  /** What a handler did: the new state, or an IndexError because a register
      or cell index from the instruction lies beyond its bank. */
  datatype Effect = Done(machine: Machine) | IndexError

  /** How one `execute_instruction` (or the fetch in front of it) ended. */
  datatype Status =
    | Executed      // a handler ran
    | Unrecognized  // opcode 0, d, e or f: a diagnostic is printed
    | OperandFault  // a handler raised IndexError
    | FetchFault    // the fetch of the instruction's second byte raised IndexError
    | NotFetched    // the fetch guard was false: nothing ran

  datatype Step = Step(machine: Machine, status: Status)

  /** How `execute` ended: it returned, an IndexError escaped it, or the fuel
      that stands in for its unbounded recursion ran out. */
  datatype Outcome = Returned | Fault | OutOfFuel

  datatype Run = Run(machine: Machine, outcome: Outcome)

  // ---------------------------------------------------------------- handlers
  // Each handler receives the state after the counter has moved past the
  // instruction, and the instruction's four hex digits.

  /** `1RXY`: register R := cell XY. */
  function LoadFromCell(m: Machine, instruction: string): Effect
    requires WellFormed(instruction)
  {
    var r, xy := Nibble(instruction, 1), Operand(instruction);
    if r < |m.registers| && xy < |m.cells|
    then Done(m.(registers := m.registers[r := Trunc(m.cells[xy])]))
    else IndexError
  }

  /** `2RXY`: register R := the byte XY. */
  function LoadWith(m: Machine, instruction: string): Effect
    requires WellFormed(instruction)
  {
    var r, value := Nibble(instruction, 1), Operand(instruction);
    if r < |m.registers|
    then Done(m.(registers := m.registers[r := Trunc(value)]))
    else IndexError
  }

  /** `3RXY`: cell XY := register R. */
  function Store(m: Machine, instruction: string): Effect
    requires WellFormed(instruction)
  {
    var r, xy := Nibble(instruction, 1), Operand(instruction);
    if r < |m.registers| && xy < |m.cells|
    then Done(m.(cells := m.cells[xy := Trunc(m.registers[r])]))
    else IndexError
  }

  /** `4*RS`: register S := register R; the second digit is not read. */
  function Move(m: Machine, instruction: string): Effect
    requires WellFormed(instruction)
  {
    var r, s := Nibble(instruction, 2), Nibble(instruction, 3);
    if r < |m.registers| && s < |m.registers|
    then Done(m.(registers := m.registers[s := Trunc(m.registers[r])]))
    else IndexError
  }

  /** `5RST`: register R := the sum of registers S and T, each negated when
      above 127, the sum negated when above 127. */
  function AddComplement(m: Machine, instruction: string): Effect
    requires WellFormed(instruction)
  {
    var r, s, t := Nibble(instruction, 1), Nibble(instruction, 2), Nibble(instruction, 3);
    if r < |m.registers| && s < |m.registers| && t < |m.registers|
    then Done(m.(registers := m.registers[r := Trunc(AddValue(m.registers[s], m.registers[t]))]))
    else IndexError
  }

  /** `6RST`: delegates to the add above; no floating point is involved. */
  function AddFloat(m: Machine, instruction: string): Effect
    requires WellFormed(instruction)
  {
    AddComplement(m, instruction)
  }

  /** `7RST`, `8RST`, `9RST`: register R := register S op register T. */
  function Logic(op: BitOp, m: Machine, instruction: string): Effect
    requires WellFormed(instruction)
  {
    var r, s, t := Nibble(instruction, 1), Nibble(instruction, 2), Nibble(instruction, 3);
    if r < |m.registers| && s < |m.registers| && t < |m.registers|
    then Done(m.(registers := m.registers[r := Trunc(Bitwise(op, m.registers[s], m.registers[t]))]))
    else IndexError
  }

  function OrInstr(m: Machine, instruction: string): Effect
    requires WellFormed(instruction)
  {
    Logic(OrOp, m, instruction)
  }

  function AndInstr(m: Machine, instruction: string): Effect
    requires WellFormed(instruction)
  {
    Logic(AndOp, m, instruction)
  }

  function XorInstr(m: Machine, instruction: string): Effect
    requires WellFormed(instruction)
  {
    Logic(XorOp, m, instruction)
  }

  /** `aR*X`: register R := register R rotated right by register X; the third
      digit is not read. */
  function Rotate(m: Machine, instruction: string): Effect
    requires WellFormed(instruction)
  {
    var r, x := Nibble(instruction, 1), Nibble(instruction, 3);
    if r < |m.registers| && x < |m.registers|
    then Done(m.(registers := m.registers[r := RotateValue(m.registers[r], m.registers[x])]))
    else IndexError
  }

  /** `bRXY`: if register R equals register 0, the counter becomes XY. */
  function Jump(m: Machine, instruction: string): Effect
    requires WellFormed(instruction)
  {
    var r := Nibble(instruction, 1);
    if r < |m.registers| && 0 < |m.registers|
    then Done(if m.registers[r] == m.registers[0] then m.(icounter := Operand(instruction)) else m)
    else IndexError
  }

  /** `c***`: set the halt flag. */
  function Halt(m: Machine): Machine
  {
    m.(complete := true)
  }

  // ---------------------------------------------------------------- one instruction

  /** The state once the counter has moved past the instruction. */
  function Advanced(m: Machine): Machine
  {
    m.(icounter := m.icounter + 2)
  }

  function Handled(e: Effect, m: Machine): Step
  {
    match e
    case Done(n) => Step(n, Executed)
    case IndexError => Step(m, OperandFault)
  }

  /** `execute_instruction(a, b)`: decode, move the counter past the
      instruction, then dispatch on the opcode digit. */
  function ExecuteInstruction(m: Machine, a: Byte, b: Byte): (s: Step)
    ensures |s.machine.cells| == |m.cells| && |s.machine.registers| == |m.registers|
    ensures s.status != FetchFault && s.status != NotFetched
  {
    var instruction := CreateInstruction(ToStr(a), ToStr(b));
    Fields(a, b);
    var opcode := instruction[0];
    var m' := Advanced(m);
    if opcode == '1' then Handled(LoadFromCell(m', instruction), m')
    else if opcode == '2' then Handled(LoadWith(m', instruction), m')
    else if opcode == '3' then Handled(Store(m', instruction), m')
    else if opcode == '4' then Handled(Move(m', instruction), m')
    else if opcode == '5' then Handled(AddComplement(m', instruction), m')
    else if opcode == '6' then Handled(AddFloat(m', instruction), m')
    else if opcode == '7' then Handled(OrInstr(m', instruction), m')
    else if opcode == '8' then Handled(AndInstr(m', instruction), m')
    else if opcode == '9' then Handled(XorInstr(m', instruction), m')
    else if opcode == 'a' then Handled(Rotate(m', instruction), m')
    else if opcode == 'b' then Handled(Jump(m', instruction), m')
    else if opcode == 'c' then Step(Halt(m'), Executed)
    else Step(m', Unrecognized)
  }

  // ---------------------------------------------------------------- the run

  /** Both bytes of an instruction at the counter lie in memory. */
  predicate CanFetch(m: Machine)
  {
    m.icounter + 1 < |m.cells|
  }

  /** The first half of `execute`: if `len(cells) >= icounter + 1`, read the
      two bytes at the counter and execute them. The guard also admits a
      counter on the last cell, whose second byte is then out of range. */
  function Fetch(m: Machine): (s: Step)
    ensures |s.machine.cells| == |m.cells| && |s.machine.registers| == |m.registers|
  {
    if |m.cells| < m.icounter + 1 then Step(m, NotFetched)
    else if !CanFetch(m) then Step(m, FetchFault)
    else ExecuteInstruction(m, m.cells[m.icounter], m.cells[m.icounter + 1])
  }

  /** The continuation test of `execute`. */
  predicate Continues(m: Machine, step: bool)
  {
    !m.complete && !step && |m.cells| >= m.icounter + 3
  }

  /** `execute(step)` with at most `fuel` nested calls: one fetch, then, unless
      single-stepping, halted or near the end of memory, the same again. */
  function Execute(m: Machine, step: bool, fuel: nat): (r: Run)
    decreases fuel, 1
    ensures |r.machine.cells| == |m.cells| && |r.machine.registers| == |m.registers|
    ensures r.outcome == Returned && !step ==> r.machine.complete || |r.machine.cells| < r.machine.icounter + 3
    ensures step && fuel > 0 ==> r.outcome != OutOfFuel
  {
    if fuel == 0 then Run(m, OutOfFuel) else Cycle(m, step, fuel)
  }

  /** One call of `execute` with fuel left: the fetch, then the decision to
      return or to recurse. */
  function Cycle(m: Machine, step: bool, fuel: nat): (r: Run)
    requires fuel > 0
    decreases fuel, 0
    ensures |r.machine.cells| == |m.cells| && |r.machine.registers| == |m.registers|
    ensures r.outcome == Returned && !step ==> r.machine.complete || |r.machine.cells| < r.machine.icounter + 3
    ensures step ==> r.outcome != OutOfFuel
  {
    var s := Fetch(m);
    if s.status == FetchFault || s.status == OperandFault then Run(s.machine, Fault)
    else if Continues(s.machine, step) then Execute(s.machine, false, fuel - 1)
    else Run(s.machine, Returned)
  }

  // ---------------------------------------------------------------- one instruction, opcode by opcode
  // Stated on the two fetched bytes a and b: the opcode is a / 16, R is
  // a % 16, XY is b, S is b / 16 and T is b % 16.

  /** The opcode digit of the instruction is the digit the dispatch tests. */
  lemma OpcodeDigit(a: Byte, b: Byte)
    ensures var opcode := CreateInstruction(ToStr(a), ToStr(b))[0];
      && (opcode == '1' <==> a / 16 == 1) && (opcode == '2' <==> a / 16 == 2)
      && (opcode == '3' <==> a / 16 == 3) && (opcode == '4' <==> a / 16 == 4)
      && (opcode == '5' <==> a / 16 == 5) && (opcode == '6' <==> a / 16 == 6)
      && (opcode == '7' <==> a / 16 == 7) && (opcode == '8' <==> a / 16 == 8)
      && (opcode == '9' <==> a / 16 == 9) && (opcode == 'a' <==> a / 16 == 10)
      && (opcode == 'b' <==> a / 16 == 11) && (opcode == 'c' <==> a / 16 == 12)
  {
    Fields(a, b);
  }

  /** Every opcode but `b` leaves the counter just past the instruction,
      whether its handler ran, failed or was missing. */
  lemma CounterAdvances(m: Machine, a: Byte, b: Byte)
    requires a / 16 != 11
    ensures ExecuteInstruction(m, a, b).machine.icounter == m.icounter + 2
  {
    Fields(a, b);
    OpcodeDigit(a, b);
  }

  /** Exactly the opcodes 0, d, e and f are unrecognised, and such an
      instruction changes nothing but the counter. */
  lemma UnrecognizedIsNoOp(m: Machine, a: Byte, b: Byte)
    ensures ExecuteInstruction(m, a, b).status == Unrecognized <==> a / 16 == 0 || a / 16 >= 13
    ensures ExecuteInstruction(m, a, b).status == Unrecognized ==> ExecuteInstruction(m, a, b).machine == Advanced(m)
  {
    Fields(a, b);
    OpcodeDigit(a, b);
  }

  /** `1RXY` copies cell XY to register R and changes nothing else. */
  lemma LoadFromCellEffect(m: Machine, a: Byte, b: Byte)
    requires a / 16 == 1
    ensures ExecuteInstruction(m, a, b) ==
      if a % 16 < |m.registers| && b < |m.cells|
      then Step(Advanced(m).(registers := m.registers[a % 16 := m.cells[b]]), Executed)
      else Step(Advanced(m), OperandFault)
  {
    Fields(a, b);
    OpcodeDigit(a, b);
  }

  /** `2RXY` writes XY to register R and changes nothing else. */
  lemma LoadWithEffect(m: Machine, a: Byte, b: Byte)
    requires a / 16 == 2
    ensures ExecuteInstruction(m, a, b) ==
      if a % 16 < |m.registers|
      then Step(Advanced(m).(registers := m.registers[a % 16 := b]), Executed)
      else Step(Advanced(m), OperandFault)
  {
    Fields(a, b);
    OpcodeDigit(a, b);
  }

  /** `3RXY` copies register R to cell XY and changes nothing else. */
  lemma StoreEffect(m: Machine, a: Byte, b: Byte)
    requires a / 16 == 3
    ensures ExecuteInstruction(m, a, b) ==
      if a % 16 < |m.registers| && b < |m.cells|
      then Step(Advanced(m).(cells := m.cells[b := m.registers[a % 16]]), Executed)
      else Step(Advanced(m), OperandFault)
  {
    Fields(a, b);
    OpcodeDigit(a, b);
  }

  /** `4*RS` copies register R to register S, whatever the second digit, and
      changes nothing else. */
  lemma MoveEffect(m: Machine, a: Byte, b: Byte)
    requires a / 16 == 4
    ensures ExecuteInstruction(m, a, b) ==
      if b / 16 < |m.registers| && b % 16 < |m.registers|
      then Step(Advanced(m).(registers := m.registers[b % 16 := m.registers[b / 16]]), Executed)
      else Step(Advanced(m), OperandFault)
  {
    Fields(a, b);
    OpcodeDigit(a, b);
  }

  /** `5RST` and `6RST` write the add rule's value for registers S and T,
      kept modulo 256, to register R and change nothing else. */
  lemma AddEffect(m: Machine, a: Byte, b: Byte)
    requires a / 16 == 5 || a / 16 == 6
    ensures ExecuteInstruction(m, a, b) ==
      if a % 16 < |m.registers| && b / 16 < |m.registers| && b % 16 < |m.registers|
      then Step(Advanced(m).(registers := m.registers[a % 16 := Trunc(AddValue(m.registers[b / 16], m.registers[b % 16]))]), Executed)
      else Step(Advanced(m), OperandFault)
  {
    Fields(a, b);
    OpcodeDigit(a, b);
  }

  /** Opcode 6 behaves exactly as opcode 5. */
  lemma AddFloatIsAddComplement(m: Machine, a: Byte, b: Byte)
    requires a / 16 == 6
    ensures ExecuteInstruction(m, a, b) == ExecuteInstruction(m, a - 16, b)
  {
    AddEffect(m, a, b);
    AddEffect(m, a - 16, b);
  }

  /** `7RST`, `8RST` and `9RST` write S | T, S & T and S ^ T to register R
      and change nothing else (the write keeps them as they are: BitwiseOnBytes). */
  lemma LogicEffect(m: Machine, a: Byte, b: Byte)
    requires 7 <= a / 16 <= 9
    ensures var op := if a / 16 == 7 then OrOp else if a / 16 == 8 then AndOp else XorOp;
      ExecuteInstruction(m, a, b) ==
      if a % 16 < |m.registers| && b / 16 < |m.registers| && b % 16 < |m.registers|
      then Step(Advanced(m).(registers := m.registers[a % 16 := Trunc(Bitwise(op, m.registers[b / 16], m.registers[b % 16]))]), Executed)
      else Step(Advanced(m), OperandFault)
  {
    Fields(a, b);
    OpcodeDigit(a, b);
  }

  /** `aR*X` rotates register R right by register X mod 8, whatever the third
      digit, and changes nothing else. */
  lemma RotateEffect(m: Machine, a: Byte, b: Byte)
    requires a / 16 == 10
    ensures ExecuteInstruction(m, a, b) ==
      if a % 16 < |m.registers| && b % 16 < |m.registers|
      then Step(Advanced(m).(registers := m.registers[a % 16 := Rotated(m.registers[a % 16], m.registers[b % 16] % 8)]), Executed)
      else Step(Advanced(m), OperandFault)
  {
    Fields(a, b);
    OpcodeDigit(a, b);
    if a % 16 < |m.registers| && b % 16 < |m.registers| {
      RotateIsCircular(m.registers[a % 16], m.registers[b % 16]);
    }
  }

  /** `bRXY`: when register R equals register 0 the counter becomes XY itself
      (an absolute address); otherwise it is two past the instruction. No cell,
      register or halt flag changes. */
  lemma JumpEffect(m: Machine, a: Byte, b: Byte)
    requires a / 16 == 11
    ensures ExecuteInstruction(m, a, b) ==
      if a % 16 < |m.registers|
      then Step(if m.registers[a % 16] == m.registers[0] then m.(icounter := b) else Advanced(m), Executed)
      else Step(Advanced(m), OperandFault)
  {
    Fields(a, b);
    OpcodeDigit(a, b);
  }

  /** `c***` sets the halt flag and changes nothing but the counter. */
  lemma HaltEffect(m: Machine, a: Byte, b: Byte)
    requires a / 16 == 12
    ensures ExecuteInstruction(m, a, b) == Step(Advanced(m).(complete := true), Executed)
  {
    Fields(a, b);
    OpcodeDigit(a, b);
  }

  // ---------------------------------------------------------------- the run

  /** `execute(True)` performs at most one instruction: the one at the counter. */
  lemma SingleStep(m: Machine, fuel: nat)
    requires fuel > 0
    ensures var s := Fetch(m);
      Execute(m, true, fuel) == Run(s.machine, if s.status == FetchFault || s.status == OperandFault then Fault else Returned)
  {
  }

  /** A run that ended without running out of fuel ends the same way with
      more fuel: the fuel bound does not change what a finished run does. */
  lemma {:induction false} FuelMonotone(m: Machine, step: bool, f: nat, g: nat)
    requires f <= g && Execute(m, step, f).outcome != OutOfFuel
    ensures Execute(m, step, g) == Execute(m, step, f)
    decreases f, 1
  {
    if f > 0 {
      CycleMonotone(m, step, f, g);
    }
  }

  lemma {:induction false} CycleMonotone(m: Machine, step: bool, f: nat, g: nat)
    requires 0 < f <= g && Cycle(m, step, f).outcome != OutOfFuel
    ensures Cycle(m, step, g) == Cycle(m, step, f)
    decreases f, 0
  {
    var s := Fetch(m);
    if s.status != FetchFault && s.status != OperandFault && Continues(s.machine, step) {
      FuelMonotone(s.machine, false, f - 1, g - 1);
    }
  }

  /** A halt at the counter ends the run, single step or not, with the halt
      flag set and only the counter otherwise changed. */
  lemma HaltEndsRun(m: Machine, step: bool, fuel: nat)
    requires fuel > 0 && CanFetch(m) && m.cells[m.icounter] / 16 == 12
    ensures Execute(m, step, fuel) == Run(Advanced(m).(complete := true), Returned)
  {
    HaltEffect(m, m.cells[m.icounter], m.cells[m.icounter + 1]);
  }

  /** The fetch guard admits a counter on the last cell; reading the second
      byte then raises IndexError before anything changes. */
  lemma FetchOnLastCellFaults(m: Machine, step: bool, fuel: nat)
    requires fuel > 0 && m.icounter + 1 == |m.cells|
    ensures Execute(m, step, fuel) == Run(m, Fault)
  {
  }

  /** In run mode, an instruction that leaves the counter on the last two
      cells ends the run: the instruction stored there is not executed, even
      though both its bytes are in memory. */
  lemma RunStopsBeforeLastTwoCells(m: Machine, fuel: nat)
    requires fuel > 0
    requires Fetch(m).status == Executed || Fetch(m).status == Unrecognized
    requires Fetch(m).machine.icounter + 2 == |m.cells|
    ensures CanFetch(Fetch(m).machine)
    ensures Execute(m, false, fuel) == Run(Fetch(m).machine, Returned)
  {
  }

  /** The program 21 05 c0 00 (load 5 into register 1, then halt) run from
      address 0 stops after the load: the halt in the last two cells is
      never reached. */
  lemma RunSkipsFinalHalt()
    ensures Execute(Machine([0x21, 0x05, 0xc0, 0x00], [0, 0], 0, false), false, 10)
         == Run(Machine([0x21, 0x05, 0xc0, 0x00], [0, 5], 2, false), Returned)
  {
    LoadWithEffect(Machine([0x21, 0x05, 0xc0, 0x00], [0, 0], 0, false), 0x21, 0x05);
  }

  /** Stepping the same program twice loads the register and halts. */
  lemma TwoStepsHalt()
    ensures Execute(Machine([0x21, 0x05, 0xc0, 0x00], [0, 5], 2, false), true, 1)
         == Run(Machine([0x21, 0x05, 0xc0, 0x00], [0, 5], 4, true), Returned)
  {
    HaltEffect(Machine([0x21, 0x05, 0xc0, 0x00], [0, 5], 2, false), 0xc0, 0x00);
  }

  /** `execute` does not test the halt flag before it fetches: a machine
      that is already halted still executes the instruction at the counter. */
  lemma HaltedMachineStillSteps()
    ensures Execute(Machine([0x21, 0x05], [0, 0], 0, true), true, 1)
         == Run(Machine([0x21, 0x05], [0, 5], 2, true), Returned)
  {
    LoadWithEffect(Machine([0x21, 0x05], [0, 0], 0, true), 0x21, 0x05);
  }
}
