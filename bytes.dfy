/** Machine words of the interpreter: the C# `byte` and `ushort` as bounded
    integers, and the bit operations the opcode arms use on them. */
module Bytes {

  /** A C# `byte`. */
  type byte = b: int | 0 <= b < 0x100

  /** A C# `ushort`. */
  type u16 = w: int | 0 <= w < 0x1_0000

  /** Truncating cast `(byte)v`: keeps the low eight bits (Euclidean `%`, so
      negative differences wrap the way two's complement does). */
  function ToByte(v: int): (r: byte)
    ensures (r - v) % 0x100 == 0
    ensures 0 <= v < 0x100 ==> r == v
  {
    v % 0x100
  }

  /** Truncating cast `(ushort)v`. */
  function ToU16(v: int): (r: u16)
    ensures (r - v) % 0x1_0000 == 0
    ensures 0 <= v < 0x1_0000 ==> r == v
  {
    v % 0x1_0000
  }

  /** The three bitwise operators the opcode arms use. */
  datatype Gate = Or | And | Xor

  /** The gate applied to two single bits. */
  function Gate1(g: Gate, p: nat, q: nat): (r: nat)
    requires p < 2 && q < 2
    ensures r < 2
  {
    match g
    case Or => if p == 1 || q == 1 then 1 else 0
    case And => if p == 1 && q == 1 then 1 else 0
    case Xor => if p != q then 1 else 0
  }

  /** The gate applied bit by bit to the low k bits of a and b, least
      significant bit first. */
  function Combine(g: Gate, a: nat, b: nat, k: nat): (r: nat)
    ensures r < Pow2(k)
  {
    if k == 0 then 0 else Gate1(g, a % 2, b % 2) + 2 * Combine(g, a / 2, b / 2, k - 1)
  }

  /** C# `a | b`, `a & b` and `a ^ b` on bytes: all eight bits combined. */
  function Or8(a: byte, b: byte): byte {
    assert Pow2(8) == 256;
    Combine(Or, a, b, 8)
  }

  function And8(a: byte, b: byte): byte {
    assert Pow2(8) == 256;
    Combine(And, a, b, 8)
  }

  function Xor8(a: byte, b: byte): byte {
    assert Pow2(8) == 256;
    Combine(Xor, a, b, 8)
  }

  function Pow2(n: nat): (r: nat)
    ensures r >= 1
  {
    if n == 0 then 1 else 2 * Pow2(n - 1)
  }

  /** `(b >> s) & 1` for a non-negative `int` b: bit s of b. */
  function BitAt(b: int, s: nat): (r: int)
    requires b >= 0
    ensures r == 0 || r == 1
  {
    (b / Pow2(s)) % 2
  }

  lemma {:induction false} Pow2Monotone(a: nat, b: nat)
    requires a <= b
    ensures Pow2(a) <= Pow2(b)
  {
    if a < b {
      Pow2Monotone(a, b - 1);
    }
  }

  /** A byte has no bit at position 8 or above. */
  lemma BitAtHighIsZero(b: byte, s: nat)
    requires s >= 8
    ensures BitAt(b, s) == 0
  {
    Pow2Monotone(8, s);
    assert Pow2(8) == 256;
  }

  lemma MultiplyMonotone(a: nat, b: nat, d: nat)
    requires a <= b
    ensures a * d <= b * d
  {
  }

  /** A quotient and remainder that rebuild a are the quotient of a. */
  lemma DivisionUnique(a: nat, d: nat, q: nat, r: nat)
    requires d > 0 && a == q * d + r && r < d
    ensures a / d == q && a % d == r
  {
    var q' := a / d;
    if q' < q {
      MultiplyMonotone(q' + 1, q, d);
      assert false;
    } else if q' > q {
      MultiplyMonotone(q + 1, q', d);
      assert false;
    }
  }

  lemma LowBit(b: nat)
    ensures BitAt(b, 0) == b % 2
  {
    assert Pow2(0) == 1;
  }

  /** Halving and then dividing by p is dividing by 2p; the remainder by
      2p is rebuilt from the two steps. */
  lemma HalveThenDivide(b: nat, p: nat)
    requires p > 0
    ensures b / 2 / p == b / (2 * p)
    ensures b % (2 * p) == 2 * (b / 2 % p) + b % 2
  {
    var t, u := b / 2 / p, b / 2 % p;
    assert b / 2 == t * p + u;
    assert b == t * (2 * p) + (2 * u + b % 2);
    DivisionUnique(b, 2 * p, t, 2 * u + b % 2);
  }

  /** Bit s + 1 of b is bit s of b halved. */
  lemma BitOfHalf(b: nat, s: nat)
    ensures BitAt(b, s + 1) == BitAt(b / 2, s)
  {
    HalveThenDivide(b, Pow2(s));
  }

  /** Each of the low k bits of `Combine(g, a, b, k)` is the gate applied to
      the same bit of a and of b: `|`, `&` and `^` act bit by bit. */
  lemma {:induction false} BitOfCombine(g: Gate, a: nat, b: nat, k: nat, s: nat)
    requires s < k
    ensures BitAt(Combine(g, a, b, k), s) == Gate1(g, BitAt(a, s), BitAt(b, s))
  {
    if s == 0 {
      LowBit(Combine(g, a, b, k));
      LowBit(a);
      LowBit(b);
    } else {
      BitOfHalf(Combine(g, a, b, k), s - 1);
      BitOfHalf(a, s - 1);
      BitOfHalf(b, s - 1);
      BitOfCombine(g, a / 2, b / 2, k - 1, s - 1);
    }
  }

  /** XOR with b twice gives back every number of at most k bits. */
  lemma {:induction false} XorInvolution(a: nat, b: nat, k: nat)
    requires a < Pow2(k)
    ensures Combine(Xor, Combine(Xor, a, b, k), b, k) == a
  {
    if k > 0 {
      var r := Combine(Xor, a, b, k);
      assert r % 2 == Gate1(Xor, a % 2, b % 2) && r / 2 == Combine(Xor, a / 2, b / 2, k - 1);
      XorInvolution(a / 2, b / 2, k - 1);
    }
  }

  lemma {:induction false} XorNothing(a: nat, k: nat)
    requires a < Pow2(k)
    ensures Combine(Xor, a, 0, k) == a
  {
    if k > 0 {
      XorNothing(a / 2, k - 1);
    }
  }

  lemma {:induction false} AndNothing(a: nat, k: nat)
    ensures Combine(And, a, 0, k) == 0
  {
    if k > 0 {
      AndNothing(a / 2, k - 1);
    }
  }

  /** The result of `&` keeps no bit that the mask lacks: or-ing it back
      into the mask changes nothing. */
  lemma {:induction false} AndInsideMask(a: nat, mask: nat, k: nat)
    requires mask < Pow2(k)
    ensures Combine(Or, Combine(And, a, mask, k), mask, k) == mask
  {
    if k > 0 {
      var r := Combine(And, a, mask, k);
      assert r % 2 == Gate1(And, a % 2, mask % 2) && r / 2 == Combine(And, a / 2, mask / 2, k - 1);
      AndInsideMask(a / 2, mask / 2, k - 1);
    }
  }

  /** A byte XORed with 1 is 1 exactly when the byte was 0. */
  lemma XorOneIsOne(d: byte)
    ensures Xor8(d, 1) == 1 <==> d == 0
  {
    XorSelfInverse(d, 1);
    assert Xor8(1, 1) == 0;
    assert Xor8(0, 1) == 1;
  }

  lemma {:induction false} OrNothing(a: nat, k: nat)
    requires a < Pow2(k)
    ensures Combine(Or, a, 0, k) == a
  {
    if k > 0 {
      OrNothing(a / 2, k - 1);
    }
  }

  /** Or-ing a number below 2^s into `h << s` adds it: the bits do not
      overlap. */
  lemma {:induction false} OrScaled(h: nat, lo: nat, s: nat, k: nat)
    requires lo < Pow2(s) && Scaled(h, s) + lo < Pow2(k)
    ensures Combine(Or, Scaled(h, s), lo, k) == Scaled(h, s) + lo
  {
    if s == 0 {
      OrNothing(h, k);
    } else if k > 0 {
      var a := Scaled(h, s);
      CombineStep(Or, a, lo, k);
      assert a % 2 == 0 && a / 2 == Scaled(h, s - 1);
      OrScaled(h, lo / 2, s - 1, k - 1);
    }
  }

  /** One step of Combine: the lowest bit, then the rest shifted down. */
  lemma CombineStep(g: Gate, a: nat, b: nat, k: nat)
    requires k > 0
    ensures Combine(g, a, b, k) == Gate1(g, a % 2, b % 2) + 2 * Combine(g, a / 2, b / 2, k - 1)
  {
  }

  /** `2^t - 1`, the t low bits set. */
  function Ones(t: nat): nat {
    if t == 0 then 0 else 2 * Ones(t - 1) + 1
  }

  /** The t low bits of a, least significant first. */
  function Low(a: nat, t: nat): nat {
    if t == 0 then 0 else a % 2 + 2 * Low(a / 2, t - 1)
  }

  lemma {:induction false} OnesIsMask(t: nat)
    ensures Ones(t) == Pow2(t) - 1
  {
    if t > 0 {
      OnesIsMask(t - 1);
    }
  }

  lemma {:induction false} LowIsRemainder(a: nat, t: nat)
    ensures Low(a, t) == a % Pow2(t)
  {
    if t > 0 {
      LowIsRemainder(a / 2, t - 1);
      HalveThenDivide(a, Pow2(t - 1));
    }
  }

  lemma {:induction false} AndOnes(a: nat, t: nat, k: nat)
    requires t <= k
    ensures Combine(And, a, Ones(t), k) == Low(a, t)
  {
    if t == 0 {
      AndNothing(a, k);
    } else {
      CombineStep(And, a, Ones(t), k);
      assert Ones(t) % 2 == 1 && Ones(t) / 2 == Ones(t - 1);
      AndOnes(a / 2, t - 1, k - 1);
    }
  }

  /** Masking with the t low bits, `a & (2^t - 1)`, is the remainder by
      2^t. */
  lemma AndLowMask(a: nat, t: nat, k: nat)
    requires t <= k
    ensures Combine(And, a, Pow2(t) - 1, k) == a % Pow2(t)
  {
    OnesIsMask(t);
    AndOnes(a, t, k);
    LowIsRemainder(a, t);
  }

  /** `m << s`, doubling s times. */
  function Scaled(m: nat, s: nat): nat {
    if s == 0 then m else 2 * Scaled(m, s - 1)
  }

  /** `a >> s`, halving s times. */
  function Halved(a: nat, s: nat): nat {
    if s == 0 then a else Halved(a / 2, s - 1)
  }

  lemma {:induction false} ScaledIsProduct(m: nat, s: nat)
    ensures Scaled(m, s) == m * Pow2(s)
  {
    if s > 0 {
      ScaledIsProduct(m, s - 1);
      var p := Pow2(s - 1);
      assert m * (2 * p) == 2 * (m * p);
    }
  }

  lemma {:induction false} HalvedIsQuotient(a: nat, s: nat)
    ensures Halved(a, s) == a / Pow2(s)
  {
    if s > 0 {
      HalvedIsQuotient(a / 2, s - 1);
      HalveThenDivide(a, Pow2(s - 1));
    }
  }

  /** A mask whose s low bits are clear, `m << s`, masks the bits of
      `a >> s` with m and shifts the result back. */
  lemma {:induction false} AndScaled(a: nat, m: nat, s: nat, k: nat)
    requires s <= k
    ensures Combine(And, a, Scaled(m, s), k) == Scaled(Combine(And, Halved(a, s), m, k - s), s)
  {
    if s > 0 {
      var h := Scaled(m, s - 1);
      CombineStep(And, a, 2 * h, k);
      assert (2 * h) % 2 == 0 && (2 * h) / 2 == h;
      AndScaled(a / 2, m, s - 1, k - 1);
    }
  }

  /** Masking with 1 keeps the lowest bit. */
  lemma AndLowBit(b: nat, k: nat)
    requires k > 0
    ensures Combine(And, b, 1, k) == b % 2
  {
    AndNothing(b / 2, k - 1);
  }

  /** Masking with the single bit k keeps exactly that bit. */
  lemma {:induction false} AndTopBit(b: nat, k: nat)
    requires b < Pow2(k + 1)
    ensures Combine(And, b, Pow2(k), k + 1) == if b >= Pow2(k) then Pow2(k) else 0
  {
    if k == 0 {
      AndNothing(b / 2, 0);
    } else {
      AndTopBit(b / 2, k - 1);
    }
  }

  /** XOR with a fixed byte is an involution: the property behind the
      sprite blit undoing itself. */
  lemma XorSelfInverse(a: byte, b: byte)
    ensures Xor8(Xor8(a, b), b) == a
  {
    XorInvolution(a, b, 8);
  }

  lemma XorZero(a: byte)
    ensures Xor8(a, 0) == a
  {
    XorNothing(a, 8);
  }

  /** The result of `&` keeps no bit that the mask lacks. */
  lemma AndWithinMask(a: byte, mask: byte)
    ensures Or8(And8(a, mask), mask) == mask
  {
    AndInsideMask(a, mask, 8);
  }

  /** The source's mask tests `(b & 1)` and `(b & 0x80) == 0x80` read
      arithmetically as `b % 2` and `b >= 0x80`. */
  lemma MaskForms(b: byte)
    ensures And8(b, 1) == b % 2
    ensures And8(b, 0x80) == 0x80 <==> b >= 0x80
  {
    AndLowBit(b, 8);
    var top := Pow2(7);
    assert top == 0x80 && Pow2(8) == 0x100;
    AndTopBit(b, 7);
  }
}
