// The storage cell shared by the memory bank and the register file.
// The cell class itself (processor.Cell) is not part of this model: its
// write (`setvalue(hex(v))`) is assumed to keep v modulo 256, and its
// rendering (`tostr()`) is assumed to give two lower-case hex digits.

module Cells {

  /** The value one memory cell or register holds. */
  type Byte = x: int | 0 <= x < 256

  /** The value a cell holds after `setvalue(hex(v))`: v kept modulo 256.
      Rotate and add hand values outside 0..255 (negative ones too) to the write. */
  function Trunc(v: int): (r: Byte)
    ensures (v - r) % 256 == 0
    ensures 0 <= v < 256 ==> r == v
  {
    v % 256
  }

  /** A lower-case hexadecimal digit, as `tostr()` and the opcode tests use them. */
  predicate IsHexDigit(c: char)
  {
    '0' <= c <= '9' || 'a' <= c <= 'f'
  }

  /** The digit for a nibble. */
  function HexDigit(n: nat): (c: char)
    requires n < 16
    ensures IsHexDigit(c)
    ensures n < 10 <==> '0' <= c <= '9'
  {
    if n < 10 then ('0' as int + n) as char else ('a' as int + n - 10) as char
  }

  /** `int(c, 16)` for one digit. */
  function HexValue(c: char): (n: nat)
    requires IsHexDigit(c)
    ensures n < 16
    ensures HexDigit(n) == c
  {
    if '0' <= c <= '9' then c as int - '0' as int else c as int - 'a' as int + 10
  }

  predicate IsHex(s: string)
  {
    forall i | 0 <= i < |s| :: IsHexDigit(s[i])
  }

  /** `int(s, 16)` for a string of lower-case hex digits. */
  function ParseHex(s: string): (n: nat)
    requires IsHex(s)
  {
    if s == [] then 0 else 16 * ParseHex(s[..|s| - 1]) + HexValue(s[|s| - 1])
  }

  /** `Cell.tostr()`: the value as two lower-case hex digits, most significant first. */
  function ToStr(b: Byte): (s: string)
    ensures |s| == 2 && IsHex(s)
    ensures HexValue(s[0]) == b / 16 && HexValue(s[1]) == b % 16
    ensures ParseHex(s) == b
  {
    var s := [HexDigit(b / 16), HexDigit(b % 16)];
    assert s[..1] == [s[0]] && s[..1][..0] == [];
    assert ParseHex(s[..1]) == b / 16;
    s
  }
}
