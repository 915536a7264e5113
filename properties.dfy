/** What one instruction word does to the machine, arm by arm, and how
    several of them compose: the properties the interpreter's design
    promises, proved of Semantics.Execute. */
module Properties {
  import opened Bytes
  import opened Decode
  import opened Semantics

  /** Registers other than `a` and `b` are as before. */
  predicate KeepsOtherRegisters(v: seq<byte>, w: seq<byte>, a: nat, b: nat)
    requires |v| == RegisterCount && |w| == RegisterCount
  {
    forall k :: 0 <= k < RegisterCount && k != a && k != b ==> w[k] == v[k]
  }

  // -----------------------------------------------------------------------
  // Loads and immediate arithmetic

  /** 6XNN sets V[X] to NN and changes nothing else. */
  lemma LoadImmediate(m: Machine, op: u16, rnd: nat)
    requires m.WellFormed() && Family(op) == 0x6
    ensures Execute(m, op, rnd).Ok?
    ensures var r := Execute(m, op, rnd).value;
      r.v[X(op)] == NN(op) && KeepsOtherRegisters(m.v, r.v, X(op), X(op)) && r == m.(v := r.v)
  {
  }

  /** 7XNN adds NN to V[X] modulo 256, and VF is not a carry flag here. */
  lemma AddImmediate(m: Machine, op: u16, rnd: nat)
    requires m.WellFormed() && Family(op) == 0x7
    ensures Execute(m, op, rnd).Ok?
    ensures var r := Execute(m, op, rnd).value;
      r.v[X(op)] == (m.v[X(op)] + NN(op)) % 256 &&
      KeepsOtherRegisters(m.v, r.v, X(op), X(op)) && r == m.(v := r.v)
  {
  }

  /** ANNN sets I to NNN and changes nothing else. */
  lemma SetIndex(m: Machine, op: u16, rnd: nat)
    requires m.WellFormed() && Family(op) == 0xA
    ensures Execute(m, op, rnd) == Ok(m.(i := NNN(op)))
  {
  }

  /** CXNN stores the random value masked by NN: no bit outside NN is set,
      and every byte inside NN is what some random value gives. */
  lemma RandomMasked(m: Machine, op: u16, rnd: nat)
    requires m.WellFormed() && Family(op) == 0xC
    ensures Execute(m, op, rnd).Ok?
    ensures var r := Execute(m, op, rnd).value;
      r.v[X(op)] == And8(ToByte(rnd), NN(op)) && Or8(r.v[X(op)], NN(op)) == NN(op) &&
      KeepsOtherRegisters(m.v, r.v, X(op), X(op)) && r == m.(v := r.v)
  {
    AndWithinMask(ToByte(rnd), NN(op));
  }

  lemma RandomReachesMasked(m: Machine, op: u16, b: byte)
    requires m.WellFormed() && Family(op) == 0xC && And8(b, NN(op)) == b
    ensures Execute(m, op, b).Ok? && Execute(m, op, b).value.v[X(op)] == b
  {
    RandomMasked(m, op, b);
  }

  // -----------------------------------------------------------------------
  // Family 0x8

  /** 8XY0 to 8XY3: copy, or, and, xor into V[X]; VF untouched (unless it
      is X). */
  lemma Logic(m: Machine, op: u16, rnd: nat)
    requires m.WellFormed() && Family(op) == 0x8 && N(op) <= 3
    ensures Execute(m, op, rnd).Ok?
    ensures var r := Execute(m, op, rnd).value;
      var vx, vy: int := m.v[X(op)], m.v[Y(op)];
      r.v[X(op)] == (match N(op)
                     case 0 => vy
                     case 1 => Or8(vx, vy)
                     case 2 => And8(vx, vy)
                     case _ => Xor8(vx, vy)) &&
      KeepsOtherRegisters(m.v, r.v, X(op), X(op)) && r == m.(v := r.v)
  {
  }

  /** 8XY4 with X and Y other than VF: VF is 1 exactly when the unsigned sum
      exceeds 255, and V[X] is the sum modulo 256. */
  lemma AddWithCarry(m: Machine, op: u16, rnd: nat)
    requires m.WellFormed() && Family(op) == 0x8 && N(op) == 0x4
    requires X(op) != Flag && Y(op) != Flag
    ensures Execute(m, op, rnd).Ok?
    ensures var r := Execute(m, op, rnd).value;
      var vx, vy: int := m.v[X(op)], m.v[Y(op)];
      (r.v[Flag] == 1 <==> vx + vy > 255) && (r.v[Flag] == 0 <==> vx + vy <= 255) &&
      r.v[X(op)] == (vx + vy) % 256 &&
      KeepsOtherRegisters(m.v, r.v, X(op), Flag) && r == m.(v := r.v)
  {
  }

  /** 8XY4 with Y = VF adds the carry just written, not the old VF. */
  lemma AddWithCarryReadsNewFlag(m: Machine, op: u16, rnd: nat)
    requires m.WellFormed() && Family(op) == 0x8 && N(op) == 0x4
    requires X(op) != Flag && Y(op) == Flag
    ensures Execute(m, op, rnd).Ok?
    ensures var r := Execute(m, op, rnd).value;
      var carry := if m.v[X(op)] as int + m.v[Flag] > 255 then 1 else 0;
      r.v[Flag] == carry && r.v[X(op)] == (m.v[X(op)] as int + carry) % 256 &&
      KeepsOtherRegisters(m.v, r.v, X(op), Flag) && r == m.(v := r.v)
  {
  }

  /** 8FY4 overwrites the carry with the sum of the carry and V[Y]. */
  lemma AddWithCarryIntoFlag(m: Machine, op: u16, rnd: nat)
    requires m.WellFormed() && Family(op) == 0x8 && N(op) == 0x4
    requires X(op) == Flag && Y(op) != Flag
    ensures Execute(m, op, rnd).Ok?
    ensures var r := Execute(m, op, rnd).value;
      var carry := if m.v[Flag] as int + m.v[Y(op)] > 255 then 1 else 0;
      r.v[Flag] == (carry as int + m.v[Y(op)]) % 256 &&
      KeepsOtherRegisters(m.v, r.v, Flag, Flag) && r == m.(v := r.v)
  {
  }

  /** 8FF4 adds the carry just written to itself: VF ends as 2 when 2 * VF
      exceeds 255, else 0. */
  lemma AddFlagToItself(m: Machine, op: u16, rnd: nat)
    requires m.WellFormed() && Family(op) == 0x8 && N(op) == 0x4
    requires X(op) == Flag && Y(op) == Flag
    ensures Execute(m, op, rnd).Ok?
    ensures var r := Execute(m, op, rnd).value;
      (r.v[Flag] == 2 <==> 2 * (m.v[Flag] as int) > 255) && (r.v[Flag] == 0 <==> 2 * (m.v[Flag] as int) <= 255) &&
      KeepsOtherRegisters(m.v, r.v, Flag, Flag) && r == m.(v := r.v)
  {
  }

  /** 8XY5 with X and Y other than VF: VF is 1 exactly when V[X] is
      strictly greater than V[Y] (so 0 when they are equal), and V[X] is the
      difference modulo 256. */
  lemma SubtractWithBorrow(m: Machine, op: u16, rnd: nat)
    requires m.WellFormed() && Family(op) == 0x8 && N(op) == 0x5
    requires X(op) != Flag && Y(op) != Flag
    ensures Execute(m, op, rnd).Ok?
    ensures var r := Execute(m, op, rnd).value;
      var vx, vy: int := m.v[X(op)], m.v[Y(op)];
      (r.v[Flag] == 1 <==> vx > vy) && (r.v[Flag] == 0 <==> vx <= vy) &&
      r.v[X(op)] == (vx - vy) % 256 &&
      KeepsOtherRegisters(m.v, r.v, X(op), Flag) && r == m.(v := r.v)
  {
  }

  /** 8XY7 with X and Y other than VF: VF is 1 exactly when V[Y] is greater
      than V[X], but V[X] becomes V[X] - V[Y] (not V[Y] - V[X]). */
  lemma SubtractReversedFlag(m: Machine, op: u16, rnd: nat)
    requires m.WellFormed() && Family(op) == 0x8 && N(op) == 0x7
    requires X(op) != Flag && Y(op) != Flag
    ensures Execute(m, op, rnd).Ok?
    ensures var r := Execute(m, op, rnd).value;
      var vx, vy: int := m.v[X(op)], m.v[Y(op)];
      (r.v[Flag] == 1 <==> vy > vx) && (r.v[Flag] == 0 <==> vy <= vx) &&
      r.v[X(op)] == (vx - vy) % 256 &&
      KeepsOtherRegisters(m.v, r.v, X(op), Flag) && r == m.(v := r.v)
  {
  }

  /** 8XF5 and 8XF7 with X other than VF subtract the borrow flag just
      written, not the old VF. */
  lemma SubtractReadsNewFlag(m: Machine, op: u16, rnd: nat)
    requires m.WellFormed() && Family(op) == 0x8 && (N(op) == 0x5 || N(op) == 0x7)
    requires X(op) != Flag && Y(op) == Flag
    ensures Execute(m, op, rnd).Ok?
    ensures var r := Execute(m, op, rnd).value;
      var vx, vf: int := m.v[X(op)], m.v[Flag];
      var flag := if (if N(op) == 0x5 then vx > vf else vf > vx) then 1 else 0;
      r.v[Flag] == flag && r.v[X(op)] == (vx - flag) % 256 &&
      KeepsOtherRegisters(m.v, r.v, X(op), Flag) && r == m.(v := r.v)
  {
  }

  /** 8FY5 and 8FY7 with Y other than VF overwrite the flag with the flag
      minus V[Y]. */
  lemma SubtractIntoFlag(m: Machine, op: u16, rnd: nat)
    requires m.WellFormed() && Family(op) == 0x8 && (N(op) == 0x5 || N(op) == 0x7)
    requires X(op) == Flag && Y(op) != Flag
    ensures Execute(m, op, rnd).Ok?
    ensures var r := Execute(m, op, rnd).value;
      var vf, vy: int := m.v[Flag], m.v[Y(op)];
      var flag := if (if N(op) == 0x5 then vf > vy else vy > vf) then 1 else 0;
      r.v[Flag] == (flag - vy) % 256 &&
      KeepsOtherRegisters(m.v, r.v, Flag, Flag) && r == m.(v := r.v)
  {
  }

  /** 8FF5 and 8FF7 compare VF with itself, so the flag is 0, and then
      store 0 - 0: VF ends as 0. */
  lemma SubtractFlagFromItself(m: Machine, op: u16, rnd: nat)
    requires m.WellFormed() && Family(op) == 0x8 && (N(op) == 0x5 || N(op) == 0x7)
    requires X(op) == Flag && Y(op) == Flag
    ensures Execute(m, op, rnd).Ok?
    ensures var r := Execute(m, op, rnd).value;
      r.v[Flag] == 0 && KeepsOtherRegisters(m.v, r.v, Flag, Flag) && r == m.(v := r.v)
  {
  }

  /** 8XY6 with X other than VF: VF is the bit shifted out of V[X], which is
      halved; Y plays no part. */
  lemma ShiftRight(m: Machine, op: u16, rnd: nat)
    requires m.WellFormed() && Family(op) == 0x8 && N(op) == 0x6 && X(op) != Flag
    ensures Execute(m, op, rnd).Ok?
    ensures var r := Execute(m, op, rnd).value;
      var vx: int := m.v[X(op)];
      r.v[Flag] == vx % 2 && r.v[Flag] == And8(m.v[X(op)], 1) &&
      r.v[X(op)] == vx / 2 && 2 * r.v[X(op)] + r.v[Flag] == vx &&
      KeepsOtherRegisters(m.v, r.v, X(op), Flag) && r == m.(v := r.v)
  {
    MaskForms(m.v[X(op)]);
  }

  /** 8FY6 shifts the flag it has just written: VF ends as 0. */
  lemma ShiftRightFlag(m: Machine, op: u16, rnd: nat)
    requires m.WellFormed() && Family(op) == 0x8 && N(op) == 0x6 && X(op) == Flag
    ensures Execute(m, op, rnd).Ok?
    ensures var r := Execute(m, op, rnd).value;
      r.v[Flag] == 0 && KeepsOtherRegisters(m.v, r.v, Flag, Flag) && r == m.(v := r.v)
  {
  }

  /** 8XYE with X other than VF: VF is the bit shifted out at the top, and
      V[X] is doubled modulo 256. */
  lemma ShiftLeft(m: Machine, op: u16, rnd: nat)
    requires m.WellFormed() && Family(op) == 0x8 && N(op) == 0xE && X(op) != Flag
    ensures Execute(m, op, rnd).Ok?
    ensures var r := Execute(m, op, rnd).value;
      var vx: int := m.v[X(op)];
      (r.v[Flag] == 1 <==> vx >= 0x80) && (r.v[Flag] == 0 <==> vx < 0x80) &&
      (r.v[Flag] == 1 <==> And8(m.v[X(op)], 0x80) == 0x80) &&
      r.v[X(op)] == (2 * vx) % 256 && r.v[X(op)] + 256 * (r.v[Flag] as int) == 2 * vx &&
      KeepsOtherRegisters(m.v, r.v, X(op), Flag) && r == m.(v := r.v)
  {
    MaskForms(m.v[X(op)]);
  }

  /** 8FYE shifts the flag it has just written: VF ends as 2 when its old
      top bit was set, else 0. */
  lemma ShiftLeftFlag(m: Machine, op: u16, rnd: nat)
    requires m.WellFormed() && Family(op) == 0x8 && N(op) == 0xE && X(op) == Flag
    ensures Execute(m, op, rnd).Ok?
    ensures var r := Execute(m, op, rnd).value;
      (r.v[Flag] == 2 <==> m.v[Flag] >= 0x80) && (r.v[Flag] == 0 <==> m.v[Flag] < 0x80) &&
      KeepsOtherRegisters(m.v, r.v, Flag, Flag) && r == m.(v := r.v)
  {
  }

  /** The worked cases for 8014 and 8015. */
  lemma ArithmeticExamples(m: Machine, rnd: nat)
    requires m.WellFormed()
    ensures m.v[0] == 0xFF && m.v[1] == 0x01 ==>
      var r := Execute(m, 0x8014, rnd).value; r.v[0] == 0x00 && r.v[Flag] == 1
    ensures m.v[0] == 0x01 && m.v[1] == 0x01 ==>
      var r := Execute(m, 0x8014, rnd).value; r.v[0] == 0x02 && r.v[Flag] == 0
    ensures m.v[0] == 0x05 && m.v[1] == 0x03 ==>
      var r := Execute(m, 0x8015, rnd).value; r.v[0] == 0x02 && r.v[Flag] == 1
    ensures m.v[0] == 0x01 && m.v[1] == 0x03 ==>
      var r := Execute(m, 0x8015, rnd).value; r.v[0] == 0xFE && r.v[Flag] == 0
    ensures m.v[0] == 0x03 && m.v[1] == 0x03 ==>
      var r := Execute(m, 0x8015, rnd).value; r.v[0] == 0x00 && r.v[Flag] == 0
  {
    assert Family(0x8014) == 8 && X(0x8014) == 0 && Y(0x8014) == 1 && N(0x8014) == 4;
    assert Family(0x8015) == 8 && X(0x8015) == 0 && Y(0x8015) == 1 && N(0x8015) == 5;
  }

  // -----------------------------------------------------------------------
  // Skips: PC moves on by 2 (wrapping at 2^16) when the condition holds,
  // and nothing else ever changes.

  predicate SkipsWhen(m: Machine, r: Result<Machine>, cond: bool) {
    r == Ok(m.(pc := if cond then Skip(m.pc) else m.pc))
  }

  lemma SkipIfEqual(m: Machine, op: u16, rnd: nat)
    requires m.WellFormed() && Family(op) == 0x3
    ensures SkipsWhen(m, Execute(m, op, rnd), m.v[X(op)] == NN(op))
  {
  }

  lemma SkipIfNotEqual(m: Machine, op: u16, rnd: nat)
    requires m.WellFormed() && Family(op) == 0x4
    ensures SkipsWhen(m, Execute(m, op, rnd), m.v[X(op)] != NN(op))
  {
  }

  /** 5XYN skips only when N is 0 and V[X] equals V[Y]. */
  lemma SkipIfRegistersEqual(m: Machine, op: u16, rnd: nat)
    requires m.WellFormed() && Family(op) == 0x5
    ensures SkipsWhen(m, Execute(m, op, rnd), m.v[X(op)] == m.v[Y(op)] && N(op) == 0)
  {
  }

  /** 9XYN skips when V[X] differs from V[Y], whatever N is. */
  lemma SkipIfRegistersDiffer(m: Machine, op: u16, rnd: nat)
    requires m.WellFormed() && Family(op) == 0x9
    ensures SkipsWhen(m, Execute(m, op, rnd), m.v[X(op)] != m.v[Y(op)])
  {
    LowByteHighNibble(op);
  }

  lemma SkipIfKeyPressed(m: Machine, op: u16, rnd: nat)
    requires m.WellFormed() && Family(op) == 0xE && NN(op) == 0x9E
    ensures SkipsWhen(m, Execute(m, op, rnd), KeyBit(m.keyboard, m.v[X(op)]) == 1)
  {
  }

  lemma SkipIfKeyReleased(m: Machine, op: u16, rnd: nat)
    requires m.WellFormed() && Family(op) == 0xE && NN(op) == 0xA1
    ensures SkipsWhen(m, Execute(m, op, rnd), KeyBit(m.keyboard, m.v[X(op)]) != 1)
  {
  }

  /** The key test uses the register's value modulo 32 as the bit number,
      and the keyboard byte has no bit 8 to 31: EX9E then never skips. */
  lemma KeyBitBeyondByte(keyboard: byte, vx: byte)
    requires vx % 32 >= 8
    ensures KeyBit(keyboard, vx) == 0
  {
    BitAtHighIsZero(keyboard, vx % 32);
  }

  // -----------------------------------------------------------------------
  // Jumps, call and return

  lemma Jump(m: Machine, op: u16, rnd: nat)
    requires m.WellFormed() && Family(op) == 0x1
    ensures Execute(m, op, rnd) == Ok(m.(pc := NNN(op)))
  {
  }

  /** BNNN jumps to NNN + V0, which never exceeds 0x10FE, so the cast to
      `ushort` loses nothing. */
  lemma JumpOffset(m: Machine, op: u16, rnd: nat)
    requires m.WellFormed() && Family(op) == 0xB
    ensures Execute(m, op, rnd) == Ok(m.(pc := NNN(op) + m.v[0]))
    ensures NNN(op) + m.v[0] <= 0x10FE
  {
  }

  /** 2NNN pushes the current PC (not the address of the next word) and
      jumps; the stack grows without bound. */
  lemma Call(m: Machine, op: u16, rnd: nat)
    requires m.WellFormed() && Family(op) == 0x2
    ensures Execute(m, op, rnd) == Ok(m.(stack := m.stack + [m.pc], pc := NNN(op)))
  {
  }

  /** 00EE pops the top of the stack into PC, or raises EmptyStack. */
  lemma Return(m: Machine, rnd: nat)
    requires m.WellFormed()
    ensures |m.stack| == 0 ==> Execute(m, 0x00EE, rnd) == Err(EmptyStack)
    ensures |m.stack| > 0 ==>
      Execute(m, 0x00EE, rnd) == Ok(m.(pc := m.stack[|m.stack| - 1], stack := m.stack[..|m.stack| - 1]))
  {
    assert X(0x00EE) == 0;
  }

  /** A call followed by a return gives back the machine as it was before the
      call: same PC, same stack, everything else untouched. */
  lemma CallThenReturn(m: Machine, op: u16, rnd: nat, rnd': nat)
    requires m.WellFormed() && Family(op) == 0x2
    ensures Execute(m, op, rnd).Ok?
    ensures Execute(Execute(m, op, rnd).value, 0x00EE, rnd') == Ok(m)
  {
    var called := Execute(m, op, rnd).value;
    assert called.stack[..|called.stack| - 1] == m.stack;
    Return(called, rnd');
  }

  // -----------------------------------------------------------------------
  // Clear

  /** 00E0 zeroes every display cell and changes nothing else; a second
      00E0 changes nothing. */
  lemma ClearDisplay(m: Machine, rnd: nat, rnd': nat)
    requires m.WellFormed()
    ensures Execute(m, 0x00E0, rnd).Ok?
    ensures var r := Execute(m, 0x00E0, rnd).value;
      (forall k :: 0 <= k < |r.display| ==> r.display[k] == 0) && r == m.(display := r.display) &&
      Execute(r, 0x00E0, rnd') == Ok(r)
  {
    assert Family(0x00E0) == 0;
  }

  // -----------------------------------------------------------------------
  // Draw

  /** Indices for the sprite's rows and columns, `(x + j) + (y + i) * 64`,
      are the cells the blit covers, each for exactly one (i, j). */
  lemma CoveredCells(x: int, y: int, n: int, k: int)
    ensures Visited(k, x, y, n, 0) <==>
      exists i, j :: 0 <= i < n && 0 <= j < 8 && k == CellIndex(x, y, i, j)
    ensures forall i, j :: 0 <= i && 0 <= j < 8 && k == CellIndex(x, y, i, j) ==>
      i == Offset(k, x, y) / DisplayWidth && j == Offset(k, x, y) % DisplayWidth
  {
    var t := Offset(k, x, y);
    if Visited(k, x, y, n, 0) {
      var i, j := t / DisplayWidth, t % DisplayWidth;
      assert k == CellIndex(x, y, i, j);
    }
    forall i, j | 0 <= i && 0 <= j < 8 && k == CellIndex(x, y, i, j)
      ensures i == t / DisplayWidth && j == t % DisplayWidth
    {
      assert t == j + i * DisplayWidth;
    }
  }

  /** Row i, column j of the sprite: the cell the source writes becomes the
      old value xor the sprite bit; cells outside the sprite keep their values. */
  lemma DrawCells(m: Machine, op: u16, rnd: nat)
    requires m.WellFormed() && Family(op) == 0xD && DrawFits(m, op)
    ensures Execute(m, op, rnd).Ok?
    ensures var r, x, y := Execute(m, op, rnd).value, m.v[X(op)], m.v[Y(op)];
      (forall i, j :: 0 <= i < N(op) && 0 <= j < 8 ==>
         0 <= CellIndex(x, y, i, j) < DisplaySize &&
         r.display[CellIndex(x, y, i, j)] == Xor8(m.display[CellIndex(x, y, i, j)], SpriteBit(m.ram[m.i], j))) &&
      (forall k :: 0 <= k < DisplaySize && !Visited(k, x, y, N(op), 0) ==> r.display[k] == m.display[k])
  {
    var r, x, y := Execute(m, op, rnd).value, m.v[X(op)], m.v[Y(op)];
    forall i, j | 0 <= i < N(op) && 0 <= j < 8
      ensures 0 <= CellIndex(x, y, i, j) < DisplaySize
      ensures r.display[CellIndex(x, y, i, j)] == Xor8(m.display[CellIndex(x, y, i, j)], SpriteBit(m.ram[m.i], j))
    {
      var c := CellIndex(x, y, i, j);
      assert c <= x + 7 + (y + N(op) - 1) * DisplayWidth;
      CoveredCells(x, y, N(op), c);
    }
  }

  /** DXYN clears VF and then sets it exactly when some covered cell with a
      set sprite bit held 1; no other register, and nothing but the display,
      changes. */
  lemma DrawFlag(m: Machine, op: u16, rnd: nat)
    requires m.WellFormed() && Family(op) == 0xD && DrawFits(m, op)
    ensures Execute(m, op, rnd).Ok?
    ensures var r, x, y := Execute(m, op, rnd).value, m.v[X(op)], m.v[Y(op)];
      (r.v[Flag] == 1 <==> exists k :: 0 <= k < DisplaySize && Hit(m.display, x, y, N(op), 0, SpriteRow(m, op), k)) &&
      (r.v[Flag] == 0 <==> !exists k :: 0 <= k < DisplaySize && Hit(m.display, x, y, N(op), 0, SpriteRow(m, op), k)) &&
      KeepsOtherRegisters(m.v, r.v, Flag, Flag) && r == m.(v := r.v, display := r.display)
  {
  }

  /** Drawing the same sprite twice at the same place restores the display,
      provided neither coordinate register is VF (the draw overwrites VF). */
  lemma DrawTwiceRestores(m: Machine, op: u16, rnd: nat, rnd': nat)
    requires m.WellFormed() && Family(op) == 0xD && DrawFits(m, op)
    requires X(op) != Flag && Y(op) != Flag
    ensures Execute(m, op, rnd).Ok?
    ensures var once := Execute(m, op, rnd).value;
      DrawFits(once, op) && Execute(once, op, rnd').Ok? &&
      Execute(once, op, rnd').value.display == m.display
  {
    var once := Execute(m, op, rnd).value;
    var x, y, s := m.v[X(op)], m.v[Y(op)], SpriteRow(m, op);
    assert once.v[X(op)] == x && once.v[Y(op)] == y && SpriteRow(once, op) == s;
    var twice := Execute(once, op, rnd').value;
    forall k | 0 <= k < DisplaySize
      ensures twice.display[k] == m.display[k]
    {
      if Visited(k, x, y, N(op), 0) {
        XorSelfInverse(m.display[k], SpriteBit(s, Offset(k, x, y) % DisplayWidth));
      }
    }
  }

  /** A non-zero byte has some bit set among its eight. */
  lemma SomeSpriteBitSet(s: byte)
    requires s != 0
    ensures exists j :: 0 <= j < 8 && SpriteBit(s, j) == 1
  {
    assert Pow2(1) == 2 && Pow2(2) == 4 && Pow2(3) == 8 && Pow2(4) == 16;
    assert Pow2(5) == 32 && Pow2(6) == 64 && Pow2(7) == 128;
    if s >= 128 { assert SpriteBit(s, 0) == 1; }
    else if s >= 64 { assert SpriteBit(s, 1) == 1; }
    else if s >= 32 { assert SpriteBit(s, 2) == 1; }
    else if s >= 16 { assert SpriteBit(s, 3) == 1; }
    else if s >= 8 { assert SpriteBit(s, 4) == 1; }
    else if s >= 4 { assert SpriteBit(s, 5) == 1; }
    else if s >= 2 { assert SpriteBit(s, 6) == 1; }
    else { assert SpriteBit(s, 7) == 1; }
  }

  /** Drawing the same sprite twice at the same place, with neither
      coordinate register VF: the second draw sets VF exactly when some
      covered cell with a set sprite bit held 0 before the first draw (the
      first draw turned it to 1). */
  lemma DrawTwiceCollides(m: Machine, op: u16, rnd: nat, rnd': nat)
    requires m.WellFormed() && Family(op) == 0xD && DrawFits(m, op)
    requires X(op) != Flag && Y(op) != Flag
    ensures Execute(m, op, rnd).Ok?
    ensures var once := Execute(m, op, rnd).value;
      var x, y, s := m.v[X(op)], m.v[Y(op)], SpriteRow(m, op);
      DrawFits(once, op) && Execute(once, op, rnd').Ok? &&
      (Execute(once, op, rnd').value.v[Flag] == 1 <==>
         exists k :: 0 <= k < DisplaySize && Visited(k, x, y, N(op), 0) &&
           SpriteBit(s, Offset(k, x, y) % DisplayWidth) == 1 && m.display[k] == 0)
  {
    var once := Execute(m, op, rnd).value;
    var x, y, n, s := m.v[X(op)], m.v[Y(op)], N(op), SpriteRow(m, op);
    DrawTwiceRestores(m, op, rnd, rnd');
    assert once.v[X(op)] == x && once.v[Y(op)] == y && SpriteRow(once, op) == s;
    DrawFlag(once, op, rnd');
    forall k | 0 <= k < DisplaySize
      ensures Hit(once.display, x, y, n, 0, s, k) <==>
        Visited(k, x, y, n, 0) && SpriteBit(s, Offset(k, x, y) % DisplayWidth) == 1 && m.display[k] == 0
    {
      if Visited(k, x, y, n, 0) && SpriteBit(s, Offset(k, x, y) % DisplayWidth) == 1 {
        XorOneIsOne(m.display[k]);
      }
    }
  }

  /** On a cleared display the first draw of a sprite finds no collision and
      the second draw of it, at the same place, finds one exactly when the
      sprite has rows and a set bit; the display is then clear again. The
      cleared start matters: on other displays the first draw may itself
      collide and clear the cells, so the second finds nothing. */
  lemma DrawTwiceAfterClear(m: Machine, op: u16, rnd: nat)
    requires m.WellFormed() && Family(op) == 0xD
    requires X(op) != Flag && Y(op) != Flag
    requires var cleared := m.(display := Cleared()); DrawFits(cleared, op)
    ensures var cleared := m.(display := Cleared());
      var once := Execute(cleared, op, rnd).value;
      DrawFits(once, op) &&
      once.v[Flag] == 0 &&
      (Execute(once, op, rnd).value.v[Flag] == 1 <==> N(op) > 0 && m.ram[m.i] != 0) &&
      Execute(once, op, rnd).value.display == Cleared()
  {
    var cleared := m.(display := Cleared());
    var x, y, n := m.v[X(op)], m.v[Y(op)], N(op);
    var s := SpriteRow(cleared, op);
    DrawTwiceRestores(cleared, op, rnd, rnd);
    DrawTwiceCollides(cleared, op, rnd, rnd);
    if n > 0 && m.ram[m.i] != 0 {
      SomeSpriteBitSet(s);
      var j :| 0 <= j < 8 && SpriteBit(s, j) == 1;
      var c := CellIndex(x, y, 0, j);
      assert c <= x + 7 + (y + n - 1) * DisplayWidth;
      VisitStep(c, x, y, 0, j);
      CoveredCells(x, y, n, c);
      assert Visited(c, x, y, n, 0) && SpriteBit(s, Offset(c, x, y) % DisplayWidth) == 1;
    }
  }

  // -----------------------------------------------------------------------
  // The program counter

  /** The arms that neither jump, call, return nor skip leave PC as it
      was. */
  lemma NoAutoAdvance(m: Machine, op: u16, rnd: nat)
    requires m.WellFormed() && DrawFits(m, op)
    requires Family(op) in {0x6, 0x7, 0x8, 0xA, 0xC, 0xD, 0xF} || op == 0x00E0
    ensures Execute(m, op, rnd).Ok? ==> Execute(m, op, rnd).value.pc == m.pc
  {
  }

  // -----------------------------------------------------------------------
  // Faults

  /** The words that raise a fault, and which fault. */
  predicate Unsupported(op: u16) {
    (Family(op) == 0x0 && op != 0x00E0 && op != 0x00EE) ||
    (Family(op) == 0x8 && !(N(op) <= 7 || N(op) == 0xE)) ||
    (Family(op) == 0xE && NN(op) != 0x9E && NN(op) != 0xA1) ||
    (Family(op) == 0xF && NN(op) !in MiscSubOpcodes)
  }

  /** Execute fails exactly on the unsupported words, with
      UnsupportedOpcode naming the word, and on 00EE with an empty stack;
      ExecuteOpcode then leaves the state as it was. */
  lemma FaultIff(m: Machine, op: u16, rnd: nat)
    requires m.WellFormed() && DrawFits(m, op)
    ensures Execute(m, op, rnd) == Err(UnsupportedOpcode(op)) <==> Unsupported(op)
    ensures Execute(m, op, rnd) == Err(EmptyStack) <==> op == 0x00EE && |m.stack| == 0
    ensures Execute(m, op, rnd).Err? <==> Unsupported(op) || (op == 0x00EE && |m.stack| == 0)
  {
    if op == 0x00EE {
      assert Family(op) == 0;
    }
  }

  /** The listed family-0xF sub-opcodes do nothing at all. */
  lemma MiscIsNoOp(m: Machine, op: u16, rnd: nat)
    requires m.WellFormed() && Family(op) == 0xF && NN(op) in MiscSubOpcodes
    ensures Execute(m, op, rnd) == Ok(m)
  {
  }

  lemma UnsupportedExamples(m: Machine, rnd: nat)
    requires m.WellFormed()
    ensures Execute(m, 0xFFFF, rnd) == Err(UnsupportedOpcode(0xFFFF))
    ensures Execute(m, 0x0123, rnd) == Err(UnsupportedOpcode(0x0123))
    ensures Execute(m, 0x8018, rnd) == Err(UnsupportedOpcode(0x8018))
    ensures Execute(m, 0xE1A2, rnd) == Err(UnsupportedOpcode(0xE1A2))
  {
    assert Family(0xFFFF) == 0xF && NN(0xFFFF) == 0xFF;
    assert Family(0x0123) == 0x0;
    assert Family(0x8018) == 0x8 && N(0x8018) == 8;
    assert Family(0xE1A2) == 0xE && NN(0xE1A2) == 0xA2;
  }
}
