// The execution engine as the source runs it: the memory bank and the
// register file are updated in place, the instruction counter and the halt
// flag are reassigned, and `execute` repeats until it halts or nears the end
// of memory. Every method is proved against the functions of Semantics.

module Engine {
  import opened Cells
  import opened Instructions
  import opened Alu
  import opened Semantics

  /** A handler method's result against its specification: on success the
      new state is the one the handler function gives; on IndexError the
      handler function fails too and nothing changed. */
  ghost predicate Applied(e: Effect, before: Machine, after: Machine, ok: bool)
  {
    if ok then e == Done(after) else e == IndexError && after == before
  }

  class Computer {
    const cells: array<Byte>
    const registers: array<Byte>
    var icounter: nat
    var complete: bool

    ghost predicate Valid()
      reads this
    {
      cells != registers
    }

    /** The state as a value. */
    ghost function State(): Machine
      reads this, cells, registers
    {
      Machine(cells[..], registers[..], icounter, complete)
    }

    /** A machine with every cell and register zero. */
    constructor (numCells: nat, numRegisters: nat, start: nat)
      requires 1 <= numCells <= 256 && 1 <= numRegisters <= 16
      ensures Valid() && fresh(cells) && fresh(registers)
      ensures State() == Machine(seq(numCells, _ => 0), seq(numRegisters, _ => 0), start, false)
    {
      cells := new Byte[numCells](_ => 0);
      registers := new Byte[numRegisters](_ => 0);
      icounter := start;
      complete := false;
    }

    // ------------------------------------------------------------ handlers

    method LoadFromCell(instruction: string) returns (ok: bool)
      requires Valid() && WellFormed(instruction)
      modifies registers
      ensures Applied(Semantics.LoadFromCell(old(State()), instruction), old(State()), State(), ok)
    {
      var r, xy := Nibble(instruction, 1), Operand(instruction);
      ok := r < registers.Length && xy < cells.Length;
      if ok {
        registers[r] := Trunc(cells[xy]);
      }
    }

    method LoadWith(instruction: string) returns (ok: bool)
      requires Valid() && WellFormed(instruction)
      modifies registers
      ensures Applied(Semantics.LoadWith(old(State()), instruction), old(State()), State(), ok)
    {
      var r, value := Nibble(instruction, 1), Operand(instruction);
      ok := r < registers.Length;
      if ok {
        registers[r] := Trunc(value);
      }
    }

    method Store(instruction: string) returns (ok: bool)
      requires Valid() && WellFormed(instruction)
      modifies cells
      ensures Applied(Semantics.Store(old(State()), instruction), old(State()), State(), ok)
    {
      var r, xy := Nibble(instruction, 1), Operand(instruction);
      ok := r < registers.Length && xy < cells.Length;
      if ok {
        cells[xy] := Trunc(registers[r]);
      }
    }

    method Move(instruction: string) returns (ok: bool)
      requires Valid() && WellFormed(instruction)
      modifies registers
      ensures Applied(Semantics.Move(old(State()), instruction), old(State()), State(), ok)
    {
      var r, s := Nibble(instruction, 2), Nibble(instruction, 3);
      ok := r < registers.Length && s < registers.Length;
      if ok {
        registers[s] := Trunc(registers[r]);
      }
    }

    method AddComplement(instruction: string) returns (ok: bool)
      requires Valid() && WellFormed(instruction)
      modifies registers
      ensures Applied(Semantics.AddComplement(old(State()), instruction), old(State()), State(), ok)
    {
      var r, s, t := Nibble(instruction, 1), Nibble(instruction, 2), Nibble(instruction, 3);
      ok := r < registers.Length && s < registers.Length && t < registers.Length;
      if ok {
        var sval, tval := registers[s] as int, registers[t] as int;
        if sval > 127 {
          sval := -sval;
        }
        if tval > 127 {
          tval := -tval;
        }
        var value := sval + tval;
        if value > 127 {
          value := -value;
        }
        registers[r] := Trunc(value);
      }
    }

    method AddFloat(instruction: string) returns (ok: bool)
      requires Valid() && WellFormed(instruction)
      modifies registers
      ensures Applied(Semantics.AddFloat(old(State()), instruction), old(State()), State(), ok)
    {
      ok := AddComplement(instruction);
    }

    method Logic(op: BitOp, instruction: string) returns (ok: bool)
      requires Valid() && WellFormed(instruction)
      modifies registers
      ensures Applied(Semantics.Logic(op, old(State()), instruction), old(State()), State(), ok)
    {
      var r, s, t := Nibble(instruction, 1), Nibble(instruction, 2), Nibble(instruction, 3);
      ok := r < registers.Length && s < registers.Length && t < registers.Length;
      if ok {
        registers[r] := Trunc(Bitwise(op, registers[s], registers[t]));
      }
    }

    method OrInstr(instruction: string) returns (ok: bool)
      requires Valid() && WellFormed(instruction)
      modifies registers
      ensures Applied(Semantics.OrInstr(old(State()), instruction), old(State()), State(), ok)
    {
      ok := Logic(OrOp, instruction);
    }

    method AndInstr(instruction: string) returns (ok: bool)
      requires Valid() && WellFormed(instruction)
      modifies registers
      ensures Applied(Semantics.AndInstr(old(State()), instruction), old(State()), State(), ok)
    {
      ok := Logic(AndOp, instruction);
    }

    method Xor(instruction: string) returns (ok: bool)
      requires Valid() && WellFormed(instruction)
      modifies registers
      ensures Applied(Semantics.XorInstr(old(State()), instruction), old(State()), State(), ok)
    {
      ok := Logic(XorOp, instruction);
    }

    method Rotate(instruction: string) returns (ok: bool)
      requires Valid() && WellFormed(instruction)
      modifies registers
      ensures Applied(Semantics.Rotate(old(State()), instruction), old(State()), State(), ok)
    {
      var r, x := Nibble(instruction, 1), Nibble(instruction, 3);
      ok := r < registers.Length && x < registers.Length;
      if ok {
        var n := registers[x] % 8;
        var a := ShiftRight(registers[r], n);
        var b := ShiftLeft(registers[r], (8 - n) % 256);
        registers[r] := Trunc(Bitwise(OrOp, a, b));
      }
    }

    method Jump(instruction: string) returns (ok: bool)
      requires Valid() && WellFormed(instruction)
      modifies this
      ensures Applied(Semantics.Jump(old(State()), instruction), old(State()), State(), ok)
    {
      var r := Nibble(instruction, 1);
      ok := r < registers.Length && 0 < registers.Length;
      if ok && registers[r] == registers[0] {
        icounter := Operand(instruction);
      }
    }

    method Halt()
      requires Valid()
      modifies this
      ensures State() == Semantics.Halt(old(State()))
    {
      complete := true;
    }

    // ------------------------------------------------------------ one instruction

    method ExecuteInstruction(a: Byte, b: Byte) returns (status: Status)
      requires Valid()
      modifies this, cells, registers
      ensures Valid()
      ensures Semantics.ExecuteInstruction(old(State()), a, b) == Step(State(), status)
    {
      var instruction := CreateInstruction(ToStr(a), ToStr(b));
      Fields(a, b);
      var opcode := instruction[0];
      icounter := icounter + 2;
      ghost var advanced := State();
      var ok := true;
      if opcode == '1' {
        ok := LoadFromCell(instruction);
      } else if opcode == '2' {
        ok := LoadWith(instruction);
      } else if opcode == '3' {
        ok := Store(instruction);
      } else if opcode == '4' {
        ok := Move(instruction);
      } else if opcode == '5' {
        ok := AddComplement(instruction);
      } else if opcode == '6' {
        ok := AddFloat(instruction);
      } else if opcode == '7' {
        ok := OrInstr(instruction);
      } else if opcode == '8' {
        ok := AndInstr(instruction);
      } else if opcode == '9' {
        ok := Xor(instruction);
      } else if opcode == 'a' {
        ok := Rotate(instruction);
      } else if opcode == 'b' {
        ok := Jump(instruction);
      } else if opcode == 'c' {
        Halt();
      } else {
        return Unrecognized;
      }
      status := if ok then Executed else OperandFault;
    }

    // ------------------------------------------------------------ the run

    /** The first half of `execute`: the guarded fetch and the instruction. */
    method Fetch() returns (status: Status)
      requires Valid()
      modifies this, cells, registers
      ensures Valid()
      ensures Semantics.Fetch(old(State())) == Step(State(), status)
    {
      if cells.Length < icounter + 1 {
        return NotFetched;
      }
      if icounter + 1 == cells.Length {
        return FetchFault;
      }
      status := ExecuteInstruction(cells[icounter], cells[icounter + 1]);
    }

    /** `execute(step)`: fetch and execute the instruction at the counter,
        then recurse unless single-stepping, halted or near the end of
        memory. `fuel` bounds the depth of the recursion. */
    method Execute(step: bool, fuel: nat) returns (outcome: Outcome)
      requires Valid()
      modifies this, cells, registers
      decreases fuel
      ensures Valid()
      ensures Semantics.Execute(old(State()), step, fuel) == Run(State(), outcome)
    {
      if fuel == 0 {
        return OutOfFuel;
      }
      var status := Fetch();
      if status == FetchFault || status == OperandFault {
        return Fault;
      }
      if !complete && !step && cells.Length >= icounter + 3 {
        outcome := Execute(false, fuel - 1);
      } else {
        outcome := Returned;
      }
    }
  }
}
