// The values the arithmetic, logic and rotate handlers compute before they
// write them to register R, on Python's unbounded non-negative integers.

module Alu {
  import opened Cells

  /** 2 to the k. */
  function Pow2(k: nat): (p: nat)
    ensures p >= 1
  {
    if k == 0 then 1 else 2 * Pow2(k - 1)
  }

  /** Bit i (0 = least significant) of v: Python's `(v >> i) & 1 == 1`. */
  predicate Bit(v: nat, i: nat)
    decreases i
  {
    if i == 0 then v % 2 == 1 else Bit(v / 2, i - 1)
  }

  // ---------------------------------------------------------------- add

  /** The sign rule of the add handler: a byte above 127 counts as its own negation. */
  function Signed(v: Byte): (r: int)
    ensures -255 <= r <= 127
    ensures r < 0 <==> v > 127
    ensures r == v || r == -(v as int)
  {
    if v > 127 then -(v as int) else v
  }

  /** The value `add_complement` hands to `setvalue`: the sum of the two signed
      operands, negated once more if it exceeds 127. It can be negative, so
      what the register receives rests on the modulo-256 write. */
  function AddValue(s: Byte, t: Byte): (r: int)
    ensures -510 <= r <= 127
    ensures s + t <= 127 ==> r == s + t
    ensures s <= 127 && t <= 127 && s + t > 127 ==> r == -(s + t)
    ensures s > 127 || t > 127 ==> r == Signed(s) + Signed(t)
  {
    var value := Signed(s) + Signed(t);
    if value > 127 then -value else value
  }

  lemma AddValueCommutes(s: Byte, t: Byte)
    ensures AddValue(s, t) == AddValue(t, s)
  {
  }

  /** The rule is not two's-complement addition: 0xff + 0x01 gives 0x02, where
      two's complement (-1 + 1) gives 0x00; 0xc8 + 0xc8 gives 0x70 (-400 kept
      modulo 256), where two's complement gives 0x90. */
  lemma AddIsNotTwosComplement()
    ensures Trunc(AddValue(0xff, 0x01)) == 0x02 && Trunc(0xff + 0x01) == 0x00
    ensures Trunc(AddValue(0xc8, 0xc8)) == 0x70 && Trunc(0xc8 + 0xc8) == 0x90
  {
  }

  // ---------------------------------------------------------------- bitwise

  datatype BitOp = OrOp | AndOp | XorOp

  function ApplyBit(op: BitOp, a: bool, b: bool): bool
  {
    match op
    case OrOp => a || b
    case AndOp => a && b
    case XorOp => a != b
  }

  /** Python's `x | y`, `x & y` and `x ^ y` on non-negative integers, bit by bit
      from the least significant end. */
  function Bitwise(op: BitOp, x: nat, y: nat): nat
    decreases x + y
  {
    if x == 0 && y == 0 then 0
    else 2 * Bitwise(op, x / 2, y / 2) + (if ApplyBit(op, x % 2 == 1, y % 2 == 1) then 1 else 0)
  }

  /** Each bit of the result is the operation applied to the operands' bits. */
  lemma {:induction false} BitwiseBit(op: BitOp, x: nat, y: nat, i: nat)
    ensures Bit(Bitwise(op, x, y), i) == ApplyBit(op, Bit(x, i), Bit(y, i))
    decreases i
  {
    if i == 0 {
    } else {
      BitwiseBit(op, x / 2, y / 2, i - 1);
      if x == 0 && y == 0 {
        BitwiseBit(op, 0, 0, i - 1);
      }
    }
  }

  /** Operands below 2^k give a result below 2^k: on bytes, a byte. */
  lemma {:induction false} BitwiseBound(op: BitOp, x: nat, y: nat, k: nat)
    requires x < Pow2(k) && y < Pow2(k)
    ensures Bitwise(op, x, y) < Pow2(k)
    decreases k
  {
    if k > 0 && !(x == 0 && y == 0) {
      BitwiseBound(op, x / 2, y / 2, k - 1);
    }
  }

  /** Or-ing a value below 2^k with a value shifted left by k adds them. */
  lemma {:induction false} OrDisjoint(a: nat, c: nat, k: nat)
    requires a < Pow2(k)
    ensures Bitwise(OrOp, a, ShiftLeft(c, k)) == a + ShiftLeft(c, k)
    decreases k
  {
    if k == 0 {
      OrZero(c);
    } else {
      OrDisjoint(a / 2, c, k - 1);
    }
  }

  lemma {:induction false} OrZero(c: nat)
    ensures Bitwise(OrOp, 0, c) == c
    decreases c
  {
    if c > 0 {
      OrZero(c / 2);
    }
  }

  // ---------------------------------------------------------------- rotate

  /** Python's `v >> n`. */
  function ShiftRight(v: nat, n: nat): nat
    decreases n
  {
    if n == 0 then v else ShiftRight(v / 2, n - 1)
  }

  /** Python's `v << n`. */
  function ShiftLeft(v: nat, n: nat): nat
    decreases n
  {
    if n == 0 then v else 2 * ShiftLeft(v, n - 1)
  }

  lemma {:induction false} Pow2Add(a: nat, b: nat)
    ensures Pow2(a + b) == Pow2(a) * Pow2(b)
    decreases a
  {
    if a > 0 {
      Pow2Add(a - 1, b);
    }
  }

  /** Quotient and remainder are unique. */
  lemma DivUnique(a: nat, p: nat, q: nat, r: nat)
    requires p > 0 && a == p * q + r && r < p
    ensures a / p == q && a % p == r
  {
    var q', r' := a / p, a % p;
    assert p * (q' - q) == r - r';
    MulBounds(p, q' - q);
  }

  lemma MulBounds(p: int, d: int)
    requires p > 0
    ensures d >= 1 ==> p * d >= p
    ensures d <= -1 ==> p * d <= -p
  {
  }

  lemma HalfDiv(v: nat, p: nat)
    requires p > 0
    ensures (v / 2) / p == v / (2 * p)
  {
    var q, r := v / (2 * p), v % (2 * p);
    assert v == 2 * p * q + r && 0 <= r < 2 * p;
    assert v / 2 == p * q + r / 2;
    DivUnique(v / 2, p, q, r / 2);
  }

  /** `v >> n` divides by 2^n. */
  lemma {:induction false} ShiftRightIsDiv(v: nat, n: nat)
    ensures ShiftRight(v, n) == v / Pow2(n)
    decreases n
  {
    if n > 0 {
      ShiftRightIsDiv(v / 2, n - 1);
      HalfDiv(v, Pow2(n - 1));
    }
  }

  /** `v << n` multiplies by 2^n. */
  lemma {:induction false} ShiftLeftIsMul(v: nat, n: nat)
    ensures ShiftLeft(v, n) == v * Pow2(n)
    decreases n
  {
    if n > 0 {
      ShiftLeftIsMul(v, n - 1);
      assert v * Pow2(n) == 2 * (v * Pow2(n - 1));
    }
  }

  /** Circular right rotation of a byte by n <= 8 places: the low n bits move
      to the top n positions and the rest shift down. */
  function Rotated(v: Byte, n: nat): (r: Byte)
    requires n <= 8
  {
    Pow2Add(n, 8 - n);
    RotatedInRange(v, Pow2(n), Pow2(8 - n));
    v / Pow2(n) + (v % Pow2(n)) * Pow2(8 - n)
  }

  /** With p * q == 256, the high part v / p fits below q and the rotated
      value fits in a byte. */
  lemma RotatedInRange(v: Byte, p: nat, q: nat)
    requires p > 0 && p * q == 256
    ensures v / p < q
    ensures v / p + (v % p) * q < 256
  {
    var k, r := v / p, v % p;
    assert v == p * k + r;
    MulBounds(p, k - q + 1);
    assert p * (k - q + 1) == p * k - p * q + p;
    MulNonnegative(p - 1 - r, q);
    assert (p - 1 - r) * q == p * q - q - r * q;
  }

  lemma MulNonnegative(a: int, b: int)
    requires a >= 0 && b >= 0
    ensures a * b >= 0
  {
  }

  /** The value `rotate` writes: `(v >> n) | (v << ((8 - n) % 256))` with
      n = x mod 8, kept modulo 256 by the write. */
  function RotateValue(v: Byte, x: Byte): Byte
  {
    var n := x % 8;
    Trunc(Bitwise(OrOp, ShiftRight(v, n), ShiftLeft(v, (8 - n) % 256)))
  }

  /** The arithmetic behind the rotation: with p * q == 256, the sum
      v / p + v * q is the rotated byte plus a multiple of 256. */
  lemma SplitRotation(v: Byte, p: nat, q: nat)
    requires p > 0 && p * q == 256
    ensures (v / p + v * q) % 256 == v / p + (v % p) * q
  {
    var k, low := v / p, v % p * q;
    assert k < q by {
      assert v < p * q;
    }
    assert low <= (p - 1) * q;
    assert v * q == 256 * k + low by {
      assert v == p * k + v % p;
      assert v * q == (p * k + v % p) * q == p * q * k + low;
    }
    DivUnique(k + v * q, 256, k, k + low);
  }

  /** The two shifts, added and kept modulo 256, are the rotation. */
  lemma ShiftsAreRotated(v: Byte, n: nat)
    requires n <= 8
    ensures Trunc(v / Pow2(n) + v * Pow2(8 - n)) == Rotated(v, n)
  {
    Pow2Add(n, 8 - n);
    SplitRotation(v, Pow2(n), Pow2(8 - n));
  }

  /** `(v >> n) | (v << (8 - n))` adds the two shifted values: their bits do
      not overlap. */
  lemma OrOfShifts(v: Byte, n: nat)
    requires n <= 8
    ensures Bitwise(OrOp, ShiftRight(v, n), ShiftLeft(v, 8 - n)) == v / Pow2(n) + v * Pow2(8 - n)
  {
    Pow2Add(n, 8 - n);
    ShiftRightIsDiv(v, n);
    ShiftLeftIsMul(v, 8 - n);
    RotatedInRange(v, Pow2(n), Pow2(8 - n));
    OrDisjoint(v / Pow2(n), v, 8 - n);
  }

  /** `rotate` writes the circular right rotation by x mod 8. */
  lemma RotateIsCircular(v: Byte, x: Byte)
    ensures RotateValue(v, x) == Rotated(v, x % 8)
  {
    var n := x % 8;
    assert (8 - n) % 256 == 8 - n;
    OrOfShifts(v, n);
    ShiftsAreRotated(v, n);
  }

  lemma UnsplitRotation(v: Byte, p: nat, q: nat)
    requires p > 0 && p * q == 256
    ensures var w := v / p + (v % p) * q; w / q + (w % q) * p == v
  {
    var w := v / p + (v % p) * q;
    assert v / p < q by {
      assert v < p * q;
    }
    DivUnique(w, q, v % p, v / p);
  }

  /** Rotating by n and then by 8 - n gives the byte back. */
  lemma RotatedRestores(v: Byte, n: nat)
    requires n <= 8
    ensures Rotated(Rotated(v, n), 8 - n) == v
  {
    Pow2Add(n, 8 - n);
    assert 8 - (8 - n) == n;
    UnsplitRotation(v, Pow2(n), Pow2(8 - n));
  }

  /** A rotation amount that is a multiple of 8 leaves the register unchanged. */
  lemma RotateByZero(v: Byte, x: Byte)
    requires x % 8 == 0
    ensures RotateValue(v, x) == v
  {
    RotateIsCircular(v, x);
    assert Pow2(0) == 1 && Pow2(8) == 256;
  }

  /** Rotating by x and then by y, where x + y is a multiple of 8 (n then 8 - n),
      restores the original value. */
  lemma RotateRestores(v: Byte, x: Byte, y: Byte)
    requires (x % 8 + y % 8) % 8 == 0
    ensures RotateValue(RotateValue(v, x), y) == v
  {
    if x % 8 == 0 {
      RotateByZero(v, x);
      RotateByZero(RotateValue(v, x), y);
    } else {
      RotateThenBack(v, x, y);
    }
  }

  lemma RotateThenBack(v: Byte, x: Byte, y: Byte)
    requires y % 8 == 8 - x % 8
    ensures RotateValue(RotateValue(v, x), y) == v
  {
    RotateIsCircular(v, x);
    RotateIsCircular(RotateValue(v, x), y);
    RotatedRestores(v, x % 8);
  }

  /** On two bytes `|`, `&` and `^` give a byte, so the write keeps them as they are. */
  lemma BitwiseOnBytes(op: BitOp, s: Byte, t: Byte)
    ensures Bitwise(op, s, t) < 256
    ensures Trunc(Bitwise(op, s, t)) == Bitwise(op, s, t)
  {
    assert Pow2(8) == 256;
    BitwiseBound(op, s, t, 8);
  }
}
