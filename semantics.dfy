/** The effect of one instruction word on the interpreter's state, as a
    function from the old state to the new one. The class in module Cpu
    carries out the same effect in place and is proved against Execute. */
module Semantics {
  import opened Bytes
  import opened Decode

  const RamSize: nat := 4096
  const RegisterCount: nat := 16
  const DisplayWidth: nat := 64
  const DisplaySize: nat := 64 * 32
  /** VF, the register the arithmetic, shift and draw arms use as a flag. */
  const Flag: nat := 15

  /** The sub-opcodes of family 0xF that the source accepts (and does
      nothing for). */
  const MiscSubOpcodes: set<byte> := {0x07, 0x0A, 0x15, 0x18, 0x1E, 0x29, 0x33, 0x55, 0x65}

  datatype Option<T> = None | Some(value: T)

  /** The exceptions ExecuteOpcode can raise: its own "Unsupported Opcode"
      exception, which names the word, and the one `Stack.Pop` raises on an
      empty stack. */
  datatype Fault = UnsupportedOpcode(opcode: u16) | EmptyStack

  datatype Result<T> = Ok(value: T) | Err(error: Fault)

  /** The CPU's fields. The stack's top is the last element. */
  datatype Machine = Machine(
    ram: seq<byte>,
    v: seq<byte>,
    pc: u16,
    i: u16,
    stack: seq<u16>,
    delayTimer: byte,
    soundTimer: byte,
    keyboard: byte,
    display: seq<byte>)
  {
    predicate WellFormed() {
      |ram| == RamSize && |v| == RegisterCount && |display| == DisplaySize
    }
  }

  /** `PC += 2` on a `ushort`. */
  function Skip(pc: u16): (r: u16)
    ensures pc < 0xFFFE ==> r == pc + 2
    ensures pc >= 0xFFFE ==> r == pc + 2 - 0x1_0000
  {
    ToU16(pc + 2)
  }

  /** `(Keyboard >> vx) & 1` in C#: the byte is promoted to `int`, whose
      shift count is taken modulo 32. */
  function KeyBit(keyboard: byte, vx: byte): (r: int)
    ensures r == 0 || r == 1
  {
    BitAt(keyboard, vx % 32)
  }

  /** `(mem >> (7 - j)) & 1`: column j of a sprite row, most significant bit
      first. */
  function SpriteBit(sprite: byte, j: int): (r: byte)
    requires 0 <= j < 8
    ensures r == 0 || r == 1
  {
    BitAt(sprite, 7 - j)
  }

  // ---------------------------------------------------------------------
  // Sprite geometry. The blit writes cell `(x + j) + (y + i) * 64` for row i
  // and column j. Cell k therefore belongs to the sprite exactly when its
  // offset from cell `x + y * 64` has a column below 8 (the row is the
  // quotient by 64).

  /** The cell the blit writes for row i, column j. */
  function CellIndex(x: int, y: int, i: int, j: int): int {
    (x + j) + (y + i) * DisplayWidth
  }

  function Offset(k: int, x: int, y: int): int {
    k - (x + y * DisplayWidth)
  }

  /** Cell k has been written once the blit has done `rows` whole rows and
      `cols` columns of the next one. */
  predicate Visited(k: int, x: int, y: int, rows: int, cols: int) {
    var t := Offset(k, x, y);
    t >= 0 && t % DisplayWidth < 8 &&
    (t / DisplayWidth < rows || (t / DisplayWidth == rows && t % DisplayWidth < cols))
  }

  /** The display after that much of the blit of `sprite` at (x, y). */
  function Blit(d: seq<byte>, x: int, y: int, rows: int, cols: int, sprite: byte): (r: seq<byte>)
    ensures |r| == |d|
  {
    seq(|d|, k requires 0 <= k < |d| =>
      if Visited(k, x, y, rows, cols) then Xor8(d[k], SpriteBit(sprite, Offset(k, x, y) % DisplayWidth))
      else d[k])
  }

  /** Cell k is a collision: written with a set bit while it held 1. */
  predicate Hit(d: seq<byte>, x: int, y: int, rows: int, cols: int, sprite: byte, k: int) {
    0 <= k < |d| && Visited(k, x, y, rows, cols) &&
    SpriteBit(sprite, Offset(k, x, y) % DisplayWidth) == 1 && d[k] == 1
  }

  predicate Collision(d: seq<byte>, x: int, y: int, rows: int, cols: int, sprite: byte) {
    exists k :: 0 <= k < |d| && Hit(d, x, y, rows, cols, sprite, k)
  }

  /** Writing cell (i, j) moves the blit on by one column. */
  lemma VisitStep(k: int, x: int, y: int, i: int, j: int)
    requires 0 <= i && 0 <= j < 8
    ensures Visited(k, x, y, i, j + 1) <==> Visited(k, x, y, i, j) || k == CellIndex(x, y, i, j)
    ensures !Visited(CellIndex(x, y, i, j), x, y, i, j)
    ensures Offset(CellIndex(x, y, i, j), x, y) % DisplayWidth == j
  {
    var c := CellIndex(x, y, i, j);
    assert Offset(c, x, y) == j + i * DisplayWidth;
    var t := Offset(k, x, y);
    if t >= 0 {
      assert t == (t / DisplayWidth) * DisplayWidth + t % DisplayWidth;
    }
  }

  /** One more column of the blit: one more cell written, and the collision
      flag set if that cell was a collision. */
  lemma BlitStep(d: seq<byte>, x: int, y: int, i: int, j: int, sprite: byte)
    requires 0 <= i && 0 <= j < 8 && 0 <= CellIndex(x, y, i, j) < |d|
    ensures var c := CellIndex(x, y, i, j);
      Blit(d, x, y, i, j, sprite)[c] == d[c] &&
      Blit(d, x, y, i, j + 1, sprite) == Blit(d, x, y, i, j, sprite)[c := Xor8(d[c], SpriteBit(sprite, j))] &&
      (Collision(d, x, y, i, j + 1, sprite) <==>
         Collision(d, x, y, i, j, sprite) || (SpriteBit(sprite, j) == 1 && d[c] == 1))
  {
    var c := CellIndex(x, y, i, j);
    VisitStep(c, x, y, i, j);
    forall k | 0 <= k < |d|
      ensures Visited(k, x, y, i, j + 1) <==> Visited(k, x, y, i, j) || k == c
    {
      VisitStep(k, x, y, i, j);
    }
    if Collision(d, x, y, i, j + 1, sprite) {
      var k :| 0 <= k < |d| && Hit(d, x, y, i, j + 1, sprite, k);
      if k != c {
        assert Visited(k, x, y, i, j);
        assert Hit(d, x, y, i, j, sprite, k);
      }
    }
    if Collision(d, x, y, i, j, sprite) {
      var k :| 0 <= k < |d| && Hit(d, x, y, i, j, sprite, k);
      assert Visited(k, x, y, i, j + 1);
      assert Hit(d, x, y, i, j + 1, sprite, k);
    }
    if SpriteBit(sprite, j) == 1 && d[c] == 1 {
      assert Hit(d, x, y, i, j + 1, sprite, c);
    }
  }

  /** Eight columns done is the next row started. */
  lemma RowEnd(d: seq<byte>, x: int, y: int, i: int, sprite: byte)
    ensures Blit(d, x, y, i, 8, sprite) == Blit(d, x, y, i + 1, 0, sprite)
    ensures Collision(d, x, y, i, 8, sprite) <==> Collision(d, x, y, i + 1, 0, sprite)
  {
    assert forall k :: Visited(k, x, y, i, 8) <==> Visited(k, x, y, i + 1, 0);
    if Collision(d, x, y, i, 8, sprite) {
      var k :| 0 <= k < |d| && Hit(d, x, y, i, 8, sprite, k);
      assert Visited(k, x, y, i + 1, 0);
      assert Hit(d, x, y, i + 1, 0, sprite, k);
    }
    if Collision(d, x, y, i + 1, 0, sprite) {
      var k :| 0 <= k < |d| && Hit(d, x, y, i + 1, 0, sprite, k);
      assert Visited(k, x, y, i, 8);
      assert Hit(d, x, y, i, 8, sprite, k);
    }
  }

  // ---------------------------------------------------------------------
  // The opcode arms.

  /** The draw arm indexes `RAM[I]` and the display without checks; the
      model asks that every index it will use is in range. */
  predicate DrawFits(m: Machine, op: u16)
    requires m.WellFormed()
  {
    Family(op) == 0xD && N(op) > 0 ==>
      m.i < RamSize && m.v[X(op)] + 7 + (m.v[Y(op)] + N(op) - 1) * DisplayWidth < DisplaySize
  }

  /** A display with every cell 0. */
  function Cleared(): (d: seq<byte>)
    ensures |d| == DisplaySize && forall k :: 0 <= k < |d| ==> d[k] == 0
  {
    seq(DisplaySize, _ => 0)
  }

  /** Family 0x0: 00E0 clears the display, 00EE pops the return address. */
  function ExecSystem(m: Machine, op: u16): Result<Machine>
    requires m.WellFormed() && Family(op) == 0x0
  {
    if op == 0x00E0 then
      Ok(m.(display := Cleared()))
    else if op == 0x00EE then
      if |m.stack| == 0 then Err(EmptyStack)
      else Ok(m.(pc := m.stack[|m.stack| - 1], stack := m.stack[..|m.stack| - 1]))
    else
      Err(UnsupportedOpcode(op))
  }

  /** Family 0x8 on the register file: the operation selected by the low
      nibble, or None for a nibble the source does not accept. The flag is
      written first and the result is then computed from the updated
      registers, as the source does. */
  function Alu(v: seq<byte>, x: nat, y: nat, n: nat): (r: Option<seq<byte>>)
    requires |v| == RegisterCount && x < RegisterCount && y < RegisterCount
    ensures r.Some? ==> |r.value| == RegisterCount
  {
    match n
    case 0x0 => Some(v[x := v[y]])
    case 0x1 => Some(v[x := Or8(v[x], v[y])])
    case 0x2 => Some(v[x := And8(v[x], v[y])])
    case 0x3 => Some(v[x := Xor8(v[x], v[y])])
    case 0x4 =>
      var w := v[Flag := if v[x] as int + v[y] > 255 then 1 else 0];
      Some(w[x := ToByte(w[x] + w[y])])
    case 0x5 =>
      var w := v[Flag := if v[x] > v[y] then 1 else 0];
      Some(w[x := ToByte(w[x] - w[y])])
    case 0x6 =>
      var w := v[Flag := v[x] % 2];
      Some(w[x := w[x] / 2])
    case 0x7 =>
      var w := v[Flag := if v[y] > v[x] then 1 else 0];
      Some(w[x := ToByte(w[x] - w[y])])
    case 0xE =>
      var w := v[Flag := if v[x] >= 0x80 then 1 else 0];
      Some(w[x := ToByte(w[x] * 2)])
    case _ => None
  }

  function ExecArith(m: Machine, op: u16): Result<Machine>
    requires m.WellFormed() && Family(op) == 0x8
  {
    match Alu(m.v, X(op), Y(op), N(op))
    case Some(v) => Ok(m.(v := v))
    case None => Err(UnsupportedOpcode(op))
  }

  /** The byte the draw arm reads as every row of the sprite. */
  function SpriteRow(m: Machine, op: u16): byte
    requires m.WellFormed() && DrawFits(m, op) && Family(op) == 0xD
  {
    if N(op) == 0 then 0 else m.ram[m.i]
  }

  /** DXYN: VF cleared, then the N-row blit at (V[X], V[Y]) with VF set on a
      collision. The coordinates are read before VF is cleared. */
  function ExecDraw(m: Machine, op: u16): Machine
    requires m.WellFormed() && DrawFits(m, op) && Family(op) == 0xD
  {
    var x, y, n, s := m.v[X(op)], m.v[Y(op)], N(op), SpriteRow(m, op);
    m.(v := m.v[Flag := if Collision(m.display, x, y, n, 0, s) then 1 else 0],
       display := Blit(m.display, x, y, n, 0, s))
  }

  /** EX9E and EXA1: skip on key bit V[X] set, or clear. */
  function ExecKeys(m: Machine, op: u16): Result<Machine>
    requires m.WellFormed() && Family(op) == 0xE
  {
    var pressed := KeyBit(m.keyboard, m.v[X(op)]) == 1;
    if NN(op) == 0x9E then
      Ok(if pressed then m.(pc := Skip(m.pc)) else m)
    else if NN(op) == 0xA1 then
      Ok(if !pressed then m.(pc := Skip(m.pc)) else m)
    else
      Err(UnsupportedOpcode(op))
  }

  /** Family 0xF: the listed sub-opcodes have empty bodies. */
  function ExecMisc(m: Machine, op: u16): Result<Machine>
    requires Family(op) == 0xF
  {
    if NN(op) in MiscSubOpcodes then Ok(m) else Err(UnsupportedOpcode(op))
  }

  /** One call of ExecuteOpcode. `rnd` is the value `rng.Next()` returns,
      which is non-negative; only the CXNN arm uses it. */
  function Execute(m: Machine, op: u16, rnd: nat): (r: Result<Machine>)
    requires m.WellFormed() && DrawFits(m, op)
    ensures r.Ok? ==> r.value.WellFormed()
    ensures r.Ok? ==> r.value.ram == m.ram && r.value.keyboard == m.keyboard
    ensures r.Ok? ==> r.value.delayTimer == m.delayTimer && r.value.soundTimer == m.soundTimer
    ensures r.Ok? && Family(op) != 0x0 && Family(op) != 0x2 ==> r.value.stack == m.stack
    ensures r.Ok? && Family(op) != 0x0 && Family(op) != 0xD ==> r.value.display == m.display
  {
    match Family(op)
    case 0x0 => ExecSystem(m, op)
    case 0x1 => Ok(m.(pc := NNN(op)))
    case 0x2 => Ok(m.(stack := m.stack + [m.pc], pc := NNN(op)))
    case 0x3 => Ok(if m.v[X(op)] == NN(op) then m.(pc := Skip(m.pc)) else m)
    case 0x4 => Ok(if m.v[X(op)] != NN(op) then m.(pc := Skip(m.pc)) else m)
    case 0x5 => Ok(if m.v[X(op)] == m.v[Y(op)] && N(op) == 0 then m.(pc := Skip(m.pc)) else m)
    case 0x6 => Ok(m.(v := m.v[X(op) := NN(op)]))
    case 0x7 => Ok(m.(v := m.v[X(op) := ToByte(m.v[X(op)] + NN(op))]))
    case 0x8 => ExecArith(m, op)
    case 0x9 => Ok(if m.v[X(op)] != m.v[NN(op) / 0x10] then m.(pc := Skip(m.pc)) else m)
    case 0xA => Ok(m.(i := NNN(op)))
    case 0xB => Ok(m.(pc := ToU16(NNN(op) + m.v[0])))
    case 0xC => Ok(m.(v := m.v[X(op) := And8(ToByte(rnd), NN(op))]))
    case 0xD => Ok(ExecDraw(m, op))
    case 0xE => ExecKeys(m, op)
    case 0xF => ExecMisc(m, op)
    case _ => Err(UnsupportedOpcode(op))
  }

  /** How a call of ExecuteOpcode relates the state before, the fault it
      raised if any, and the state after: an exception leaves the state as
      it was. */
  predicate Transition(before: Machine, r: Result<Machine>, fault: Option<Fault>, after: Machine) {
    match r
    case Ok(m) => fault == None && after == m
    case Err(e) => fault == Some(e) && after == before
  }
}
