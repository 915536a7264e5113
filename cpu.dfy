/** The `CPU` class: its fields, and ExecuteOpcode updating them in place.
    Every method is proved to have the effect that Semantics.Execute
    describes, and to leave the state untouched when it raises a fault. */
module Cpu {
  import opened Bytes
  import opened Decode
  import opened Semantics

  class CPU {
    var RAM: array<byte>
    var V: array<byte>
    var PC: u16
    var I: u16
    /** `Stack<ushort>`, top last; it has no size limit. */
    var Stack: seq<u16>
    var DelayTimer: byte
    var SoundTimer: byte
    var Keyboard: byte
    var Display: array<byte>

    /** The array sizes. The three arrays have different lengths, so they
        are three different objects. */
    ghost predicate Valid()
      reads this
    {
      RAM.Length == RamSize && V.Length == RegisterCount && Display.Length == DisplaySize
    }

    ghost function State(): (m: Machine)
      reads this, RAM, V, Display
      requires Valid()
      ensures m.WellFormed()
    {
      Machine(RAM[..], V[..], PC, I, Stack, DelayTimer, SoundTimer, Keyboard, Display[..])
    }

    /** A new CPU: every array zero-filled, every register 0, empty stack. */
    constructor ()
      ensures Valid() && fresh(RAM) && fresh(V) && fresh(Display)
      ensures State() == Machine(seq(RamSize, _ => 0), seq(RegisterCount, _ => 0), 0, 0, [],
                                 0, 0, 0, seq(DisplaySize, _ => 0))
    {
      RAM := new byte[RamSize](_ => 0);
      V := new byte[RegisterCount](_ => 0);
      PC := 0;
      I := 0;
      Stack := [];
      DelayTimer := 0;
      SoundTimer := 0;
      Keyboard := 0;
      Display := new byte[DisplaySize](_ => 0);
    }

    /** Executes one instruction word. `rnd` stands for the value of
        `rng.Next()` that the CXNN arm consumes. */
    method ExecuteOpcode(opcode: u16, rnd: nat) returns (fault: Option<Fault>)
      requires Valid() && DrawFits(State(), opcode)
      modifies this, V, Display
      ensures Valid() && RAM == old(RAM) && V == old(V) && Display == old(Display)
      ensures Transition(old(State()), Execute(old(State()), opcode, rnd), fault, State())
    {
      var family := opcode / 0x1000;
      var x := X(opcode);
      fault := None;
      if family == 0x0 {
        fault := ExecuteSystem(opcode);
      } else if family == 0x1 {
        PC := NNN(opcode);
      } else if family == 0x2 {
        Stack := Stack + [PC];
        PC := NNN(opcode);
      } else if family == 0x3 {
        if V[x] == NN(opcode) { PC := Skip(PC); }
      } else if family == 0x4 {
        if V[x] != NN(opcode) { PC := Skip(PC); }
      } else if family == 0x5 {
        if V[x] == V[Y(opcode)] && N(opcode) == 0 { PC := Skip(PC); }
      } else if family == 0x6 {
        V[x] := NN(opcode);
      } else if family == 0x7 {
        V[x] := ToByte(V[x] + NN(opcode));
      } else if family == 0x8 {
        fault := ExecuteArithmetic(opcode);
      } else if family == 0x9 {
        if V[x] != V[NN(opcode) / 0x10] { PC := Skip(PC); }
      } else if family == 0xA {
        I := NNN(opcode);
      } else if family == 0xB {
        PC := ToU16(NNN(opcode) + V[0]);
      } else if family == 0xC {
        V[x] := And8(ToByte(rnd), NN(opcode));
      } else if family == 0xD {
        ExecuteDraw(opcode);
      } else if family == 0xE {
        fault := ExecuteKeys(opcode);
      } else {
        fault := ExecuteMisc(opcode);
      }
    }

    /** 00E0 and 00EE. */
    method ExecuteSystem(opcode: u16) returns (fault: Option<Fault>)
      requires Valid() && Family(opcode) == 0x0
      modifies this`PC, this`Stack, Display
      ensures Transition(old(State()), ExecSystem(old(State()), opcode), fault, State())
    {
      fault := None;
      if opcode == 0x00E0 {
        for k := 0 to Display.Length
          modifies Display
          invariant forall c :: 0 <= c < k ==> Display[c] == 0
        {
          Display[k] := 0;
        }
        assert Display[..] == Cleared();
      } else if opcode == 0x00EE {
        if |Stack| == 0 {
          fault := Some(EmptyStack);
          return;
        }
        PC := Stack[|Stack| - 1];
        Stack := Stack[..|Stack| - 1];
      } else {
        fault := Some(UnsupportedOpcode(opcode));
      }
    }

    /** 8XY0 to 8XYE. */
    method ExecuteArithmetic(opcode: u16) returns (fault: Option<Fault>)
      requires Valid() && Family(opcode) == 0x8
      modifies V
      ensures match Alu(old(V[..]), X(opcode), Y(opcode), N(opcode))
              case Some(w) => fault == None && V[..] == w
              case None => fault == Some(UnsupportedOpcode(opcode)) && V[..] == old(V[..])
    {
      var x, y := X(opcode), Y(opcode);
      fault := None;
      match N(opcode)
      case 0x0 => V[x] := V[y];
      case 0x1 => V[x] := Or8(V[x], V[y]);
      case 0x2 => V[x] := And8(V[x], V[y]);
      case 0x3 => V[x] := Xor8(V[x], V[y]);
      case 0x4 =>
        V[Flag] := if V[x] as int + V[y] > 255 then 1 else 0;
        V[x] := ToByte(V[x] as int + V[y]);
      case 0x5 =>
        V[Flag] := if V[x] > V[y] then 1 else 0;
        V[x] := ToByte(V[x] as int - V[y]);
      case 0x6 =>
        V[Flag] := V[x] % 2;
        V[x] := V[x] / 2;
      case 0x7 =>
        V[Flag] := if V[y] > V[x] then 1 else 0;
        V[x] := ToByte(V[x] as int - V[y]);
      case 0xE =>
        V[Flag] := if V[x] >= 0x80 then 1 else 0;
        V[x] := ToByte(V[x] as int * 2);
      case _ =>
        fault := Some(UnsupportedOpcode(opcode));
    }

    /** DXYN: the nested row/column loop of the blit. */
    method ExecuteDraw(opcode: u16)
      requires Valid() && Family(opcode) == 0xD && DrawFits(State(), opcode)
      modifies V, Display
      ensures State() == ExecDraw(old(State()), opcode)
    {
      var x, y, n := V[X(opcode)], V[Y(opcode)], N(opcode);
      ghost var s := SpriteRow(State(), opcode);
      ghost var v0, d0 := V[..], Display[..];
      V[Flag] := 0;
      for i := 0 to n
        invariant V[..] == v0[Flag := if Collision(d0, x, y, i, 0, s) then 1 else 0]
        invariant Display[..] == Blit(d0, x, y, i, 0, s)
      {
        var mem := RAM[I];
        assert mem == s;
        for j := 0 to 8
          invariant V[..] == v0[Flag := if Collision(d0, x, y, i, j, s) then 1 else 0]
          invariant Display[..] == Blit(d0, x, y, i, j, s)
        {
          var pixel := SpriteBit(mem, j);
          var index := CellIndex(x, y, i, j);
          BlitStep(d0, x, y, i, j, s);
          if pixel == 1 && Display[index] == 1 {
            V[Flag] := 1;
          }
          Display[index] := Xor8(Display[index], pixel);
        }
        RowEnd(d0, x, y, i, s);
      }
    }

    /** EX9E and EXA1. */
    method ExecuteKeys(opcode: u16) returns (fault: Option<Fault>)
      requires Valid() && Family(opcode) == 0xE
      modifies this`PC
      ensures Transition(old(State()), ExecKeys(old(State()), opcode), fault, State())
    {
      fault := None;
      if NN(opcode) == 0x9E {
        if KeyBit(Keyboard, V[X(opcode)]) == 1 { PC := Skip(PC); }
      } else if NN(opcode) == 0xA1 {
        if KeyBit(Keyboard, V[X(opcode)]) != 1 { PC := Skip(PC); }
      } else {
        fault := Some(UnsupportedOpcode(opcode));
      }
    }

    /** The family 0xF arms, all empty. */
    method ExecuteMisc(opcode: u16) returns (fault: Option<Fault>)
      requires Family(opcode) == 0xF
      ensures fault == if NN(opcode) in MiscSubOpcodes then None else Some(UnsupportedOpcode(opcode))
    {
      match NN(opcode)
      case 0x07 => fault := None;
      case 0x0A => fault := None;
      case 0x15 => fault := None;
      case 0x18 => fault := None;
      case 0x1E => fault := None;
      case 0x29 => fault := None;
      case 0x33 => fault := None;
      case 0x55 => fault := None;
      case 0x65 => fault := None;
      case _ => fault := Some(UnsupportedOpcode(opcode));
    }
  }
}
