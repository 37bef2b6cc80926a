// Instruction decoding: two adjacent memory bytes become a four-digit hex
// string whose first digit is the opcode and whose other digits are the
// operand fields the handlers parse back with `int(..., 16)`.

module Instructions {
  import opened Cells

  /** `create_instruction`: the two rendered bytes, concatenated. */
  function CreateInstruction(a: string, b: string): string
  {
    a + b
  }

  /** The shape every handler relies on: four lower-case hex digits. */
  predicate WellFormed(instruction: string)
  {
    |instruction| == 4 && IsHex(instruction)
  }

  /** `int(instruction[i], 16)`: one operand nibble. */
  function Nibble(instruction: string, i: nat): (n: nat)
    requires WellFormed(instruction) && i < 4
    ensures n < 16
  {
    HexValue(instruction[i])
  }

  /** `int(instruction[2:], 16)`: the 8-bit address or immediate XY. */
  function Operand(instruction: string): (xy: nat)
    requires WellFormed(instruction)
    ensures xy < 256
    ensures xy == 16 * Nibble(instruction, 2) + Nibble(instruction, 3)
  {
    var low := instruction[2..];
    assert low[0] == instruction[2] && low[1] == instruction[3];
    assert low[..1] == [low[0]] && low[..1][..0] == [];
    assert ParseHex(low[..1]) == HexValue(low[0]);
    ParseHex(low)
  }

  /** The instruction built from bytes `a` and `b` is well formed, its opcode
      digit is the high nibble of `a`, its R field the low nibble of `a`, its
      XY field `b`, and its S and T fields the nibbles of `b`. */
  lemma Fields(a: Byte, b: Byte)
    ensures var instruction := CreateInstruction(ToStr(a), ToStr(b));
      && WellFormed(instruction)
      && instruction[0] == HexDigit(a / 16)
      && Nibble(instruction, 1) == a % 16
      && Nibble(instruction, 2) == b / 16
      && Nibble(instruction, 3) == b % 16
      && Operand(instruction) == b
  {
    var instruction := CreateInstruction(ToStr(a), ToStr(b));
    assert instruction[0] == ToStr(a)[0] && instruction[1] == ToStr(a)[1];
    assert instruction[2] == ToStr(b)[0] && instruction[3] == ToStr(b)[1];
  }
}
