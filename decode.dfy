/** The bit fields of a 16-bit instruction word, `0xFXYN`, with `NN` the low
    byte and `NNN` the low twelve bits. The source extracts them with masks
    and shifts, `(op & 0x0F00) >> 8` and so on; on a non-negative word a
    mask of low bits is a remainder and a right shift a quotient by a power
    of two, which is how they are written here, and `FieldsAreMasks` proves
    the two forms agree. */
module Decode {
  import opened Bytes

  /** The family nibble, bits 15-12: `(op & 0xF000) >> 12`. */
  function Family(op: u16): (r: nat)
    ensures r < 0x10
  {
    op / 0x1000
  }

  /** The first register operand, bits 11-8: `(op & 0x0F00) >> 8`. */
  function X(op: u16): (r: nat)
    ensures r < 0x10
  {
    (op / 0x100) % 0x10
  }

  /** The second register operand, bits 7-4: `(op & 0x00F0) >> 4`. */
  function Y(op: u16): (r: nat)
    ensures r < 0x10
  {
    (op / 0x10) % 0x10
  }

  /** The low nibble, bits 3-0: `op & 0x000F`. */
  function N(op: u16): (r: nat)
    ensures r < 0x10
  {
    op % 0x10
  }

  /** The low byte: `op & 0x00FF`. */
  function NN(op: u16): byte {
    op % 0x100
  }

  /** The low twelve bits: `op & 0x0FFF`. */
  function NNN(op: u16): (r: u16)
    ensures r < 0x1000
  {
    op % 0x1000
  }

  /** The source's masks and shifts extract the same fields: `op & 0xF000`
      is the family times 0x1000, `(op & 0x0F00) >> 8` is X,
      `(op & 0x00F0) >> 4` is Y, and `op & 0x000F`, `op & 0x00FF` and
      `op & 0x0FFF` are N, NN and NNN. */
  lemma FieldsAreMasks(op: u16)
    ensures Combine(And, op, 0xF000, 16) == Family(op) * 0x1000
    ensures Combine(And, op, 0x0F00, 16) / 0x100 == X(op)
    ensures Combine(And, op, 0x00F0, 16) / 0x10 == Y(op)
    ensures Combine(And, op, 0x000F, 16) == N(op)
    ensures Combine(And, op, 0x00FF, 16) == NN(op)
    ensures Combine(And, op, 0x0FFF, 16) == NNN(op)
  {
    FamilyMask(op);
    MiddleMasks(op);
    LowMasks(op);
  }

  lemma FamilyMask(op: u16)
    ensures Combine(And, op, 0xF000, 16) == Family(op) * 0x1000
  {
    assert Pow2(4) == 0x10 && Pow2(12) == 0x1000;
    var f := Family(op);
    assert f % 0x10 == f;
    assert Scaled(0xF, 12) == 0xF000;
    AndScaled(op, 0xF, 12, 16);
    HalvedIsQuotient(op, 12);
    AndLowMask(f, 4, 4);
    ScaledIsProduct(f, 12);
  }

  lemma MiddleMasks(op: u16)
    ensures Combine(And, op, 0x0F00, 16) / 0x100 == X(op)
    ensures Combine(And, op, 0x00F0, 16) / 0x10 == Y(op)
  {
    assert Pow2(4) == 0x10 && Pow2(8) == 0x100;
    assert Combine(And, op, 0x0F00, 16) == X(op) * 0x100 by {
      assert Scaled(0xF, 8) == 0x0F00;
      AndScaled(op, 0xF, 8, 16);
      HalvedIsQuotient(op, 8);
      AndLowMask(op / 0x100, 4, 8);
      ScaledIsProduct(X(op), 8);
    }
    DivisionUnique(X(op) * 0x100, 0x100, X(op), 0);
    assert Combine(And, op, 0x00F0, 16) == Y(op) * 0x10 by {
      assert Scaled(0xF, 4) == 0x00F0;
      AndScaled(op, 0xF, 4, 16);
      HalvedIsQuotient(op, 4);
      AndLowMask(op / 0x10, 4, 12);
      ScaledIsProduct(Y(op), 4);
    }
    DivisionUnique(Y(op) * 0x10, 0x10, Y(op), 0);
  }

  lemma LowMasks(op: u16)
    ensures Combine(And, op, 0x000F, 16) == N(op)
    ensures Combine(And, op, 0x00FF, 16) == NN(op)
    ensures Combine(And, op, 0x0FFF, 16) == NNN(op)
  {
    assert Pow2(4) == 0x10 && Pow2(8) == 0x100 && Pow2(12) == 0x1000;
    AndLowMask(op, 4, 16);
    AndLowMask(op, 8, 16);
    AndLowMask(op, 12, 16);
  }

  /** The instruction word with the four given nibbles. */
  function Assemble(f: nat, x: nat, y: nat, n: nat): (op: u16)
    requires f < 0x10 && x < 0x10 && y < 0x10 && n < 0x10
  {
    f * 0x1000 + x * 0x100 + y * 0x10 + n
  }

  /** Dividing by 16 and then by `d` is dividing by `16 * d`. */
  lemma DivideTwice(a: nat, d: nat)
    requires d == 0x10 || d == 0x100
    ensures a / 0x10 / d == a / (0x10 * d)
  {
    var q, r := a / 0x10, a % 0x10;
    var p, t := q / d, q % d;
    assert a == p * (0x10 * d) + (t * 0x10 + r);
  }

  /** Splitting a word into nibbles and reassembling it gives the word back. */
  lemma SplitAssemble(op: u16)
    ensures Assemble(Family(op), X(op), Y(op), N(op)) == op
  {
    DivideTwice(op, 0x10);
    DivideTwice(op / 0x10, 0x10);
    DivideTwice(op, 0x100);
    var q := op / 0x10;
    var p := q / 0x10;
    assert op == q * 0x10 + N(op);
    assert q == p * 0x10 + Y(op);
    assert p == Family(op) * 0x10 + X(op);
  }

  /** Assembling four nibbles and splitting the word gives them back, and
      NN and NNN are the low two and three nibbles. */
  lemma AssembleSplit(f: nat, x: nat, y: nat, n: nat)
    requires f < 0x10 && x < 0x10 && y < 0x10 && n < 0x10
    ensures var op := Assemble(f, x, y, n);
      Family(op) == f && X(op) == x && Y(op) == y && N(op) == n &&
      NN(op) == y * 0x10 + n && NNN(op) == x * 0x100 + y * 0x10 + n
  {
    var op := Assemble(f, x, y, n);
    assert op / 0x100 == f * 0x10 + x;
    assert op / 0x10 == f * 0x100 + x * 0x10 + y;
  }

  /** The 9XY0 arm reads its second register as `(op & 0x00FF) >> 4`, which
      is the same field Y. */
  lemma LowByteHighNibble(op: u16)
    ensures NN(op) / 0x10 == Y(op)
  {
    var q, r := op / 0x100, op % 0x100;
    assert op == q * 0x100 + r;
    assert op / 0x10 == q * 0x10 + r / 0x10;
  }
}
