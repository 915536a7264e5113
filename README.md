# CHIP-8 CPU core

A model of the `CPU` class of a small C# CHIP-8 interpreter: the machine
state it owns (4 KB of RAM, sixteen 8-bit registers V0..VF, the 16-bit `PC`
and `I`, an unbounded return stack, a keyboard byte and a 64x32 display of
one byte per cell), the instruction decoder `ExecuteOpcode`, which updates
that state in place for one 16-bit instruction word, and the routine that
turns the bytes of a ROM image into instruction words.

Layout:

- `bytes.dfy` (module `Bytes`): `byte` and `ushort` as bounded integers, the
  truncating casts, and `&`, `|`, `^` on bytes, defined bit by bit on the
  eight bits of a byte (`Combine`), with the identities the arms rely on
  proved by induction over the bit count.
- `decode.dfy` (module `Decode`): the bit fields `Family`, `X`, `Y`, `N`,
  `NN`, `NNN` of an instruction word, written as quotients and remainders
  and proved equal to the source's masks and shifts.
- `semantics.dfy` (module `Semantics`): the state as a value (`Machine`),
  the faults, and `Execute`, the effect of one word as a function,
  including the sprite blit and its collision flag.
- `cpu.dfy` (module `Cpu`): the `CPU` class with arrays for `RAM`, `V` and
  `Display` and a sequence for the stack; `ExecuteOpcode` and its per-family
  helpers update the fields in place and are proved to produce exactly the
  state `Execute` gives, or, when they raise a fault, to leave every field
  as it was.
- `properties.dfy` (module `Properties`): what each arm does and how arms
  compose: carry and borrow flags, skips, call/return round trip, clear and
  draw, and exactly which words fault.
- `rom.dfy` (module `Rom`): the big-endian byte-pair decoding of a ROM image
  and its inverse.

The model follows the code as written, which differs from the conventional
CHIP-8 instruction set in these ways (each proved in a lemma below):

- No instruction advances `PC` by itself; a satisfied skip adds 2 (modulo
  2^16), and `2NNN` pushes the current `PC`.
- The stack has no depth limit, so a call never overflows; a return on an
  empty stack raises the fault `Stack.Pop` raises, before anything changes.
- `8XY5` sets VF when `V[X] > V[Y]` (strictly); `8XY7` sets VF when
  `V[Y] > V[X]` but stores `V[X] - V[Y]`.
- The flag is written before the result, and the result is computed from
  the updated registers: when X or Y is VF the flag is lost or read back.
- `9XYN` does not look at N; `5XYN` skips only for N = 0.
- The draw arm reads `RAM[I]` for every row, writes cell
  `(x + j) + (y + i) * 64` with no wrap or clip, and counts a collision only
  where the cell held exactly 1.
- The key tests shift the keyboard byte, promoted to `int`, by `V[X]`
  modulo 32; bits 8 and above are 0.
- The nine accepted `FXNN` sub-opcodes have empty bodies and change nothing.

## Model

| member | source | states |
|---|---|---|
| `Decode.Family` | Program.cs:76 | the first nibble `opcode & 0xF000`, as a value below 16 that selects the arm |
| `Decode.X` | Program.cs:125 | the register index `(opcode & 0x0F00) >> 8`, below 16 |
| `Decode.Y` | Program.cs:126 | the register index `(opcode & 0x00F0) >> 4`, below 16 |
| `Decode.N` | Program.cs:127 | the low nibble `opcode & 0x000F`, below 16 |
| `Decode.NN` | Program.cs:117 | the low byte `opcode & 0x00FF` |
| `Decode.NNN` | Program.cs:96 | the address `opcode & 0x0FFF`, below 0x1000 |
| `Decode.SplitAssemble` | Program.cs:76 | splitting a word into its four nibbles and reassembling them gives the word back |
| `Decode.AssembleSplit` | Program.cs:96 | the fields of an assembled word are the nibbles it was built from; NN and NNN are its low two and three nibbles |
| `Decode.FieldsAreMasks` | Program.cs:76-127 | the source's masks and shifts, `op & 0xF000`, `(op & 0x0F00) >> 8`, `(op & 0x00F0) >> 4`, `op & 0x000F`, `op & 0x00FF` and `op & 0x0FFF`, computed bit by bit on 16 bits, give the family times 0x1000, X, Y, N, NN and NNN |
| `Bytes.AndLowMask` | Program.cs:117-127 | masking with the low t bits set is the remainder by 2^t |
| `Bytes.AndScaled` | Program.cs:76-126 | masking with a mask shifted left by s is masking the operand shifted right by s, then shifting back |
| `Decode.LowByteHighNibble` | Program.cs:163 | the 9XY0 arm's `(op & 0x00FF) >> 4` is the same register index Y as the other arms use |
| `Semantics.Skip` | Program.cs:105 | `PC += 2` on a ushort: PC + 2, wrapping to 0 or 1 at the top of the range |
| `Semantics.SpriteRow` | Program.cs:186 | the byte every row of the sprite reads: `RAM[I]`, whatever the row |
| `Semantics.CellIndex` | Program.cs:190 | the cell index `(x + j) + (y + i) * 64` of row i, column j |
| `Semantics.KeyBit` | Program.cs:199 | the key test yields 0 or 1 |
| `Semantics.SpriteBit` | Program.cs:189 | the extracted sprite pixel is 0 or 1 |
| `Semantics.Visited` | Program.cs:184-190 | whether cell k has been written by the loop once it has finished `rows` rows and `cols` columns of the next, at origin (x, y) |
| `Semantics.Blit` | Program.cs:184-194 | the display after that many iterations: each written cell XOR its sprite bit, every other cell as before, same length |
| `Semantics.Hit` | Program.cs:191 | cell k is written, its sprite bit is 1 and it held exactly 1: the collision test |
| `Semantics.Collision` | Program.cs:182-191 | VF after that many iterations: some written cell was a hit |
| `Semantics.DrawFits` | Program.cs:186-192 | for DXYN with N > 0: `I` indexes RAM and the last cell, `x + 7 + (y + N - 1) * 64`, indexes the display |
| `Semantics.VisitStep` | Program.cs:190 | writing cell `(x+j)+(y+i)*64` adds exactly that cell to the cells written so far, the cell was not written before, and its column is j |
| `Semantics.BlitStep` | Program.cs:186-192 | one inner iteration XORs exactly one not-yet-written cell with bit j of the sprite and sets the collision flag exactly when that cell was a collision |
| `Semantics.RowEnd` | Program.cs:184-187 | finishing eight columns is starting the next row, for the display and for the flag |
| `Semantics.Cleared` | Program.cs:83 | the cleared display has 2048 cells, all 0 |
| `Semantics.ExecSystem` | Program.cs:80-93 | 00E0 zeroes the display, 00EE pops the top of the stack into PC or raises EmptyStack, any other 0NNN raises UnsupportedOpcode |
| `Semantics.Alu` | Program.cs:127-159 | the registers after an 8XYN arm: VF written first, then V[X] from the updated registers; None for N outside 0-7 and E |
| `Semantics.ExecArith` | Program.cs:124-160 | the 8XYN arm on the machine: the registers `Alu` gives, or UnsupportedOpcode |
| `Semantics.ExecDraw` | Program.cs:178-195 | DXYN: VF from `Collision` and the display from `Blit` over N rows and eight columns, with coordinates read before VF is cleared |
| `Semantics.ExecKeys` | Program.cs:196-207 | EX9E and EXA1 skip on the key bit; any other EXNN raises UnsupportedOpcode |
| `Semantics.ExecMisc` | Program.cs:208-250 | the nine listed FXNN sub-opcodes leave the machine as it was; any other raises UnsupportedOpcode |
| `Semantics.Execute` | Program.cs:74-255 | one instruction word never changes RAM, the keyboard or the timers; only families 0x0 and 0x2 change the stack, only 0x0 and 0xD the display; register and display sizes are kept |
| `Bytes.ToByte` | Program.cs:135 | the cast `(byte)v`: differs from v by a multiple of 256, and is v itself when v already fits |
| `Bytes.ToU16` | Program.cs:171 | the cast `(ushort)v`: differs from v by a multiple of 65536, and is v itself when v already fits |
| `Bytes.Combine` | Program.cs:130-132 | a bitwise operator on the low k bits, least significant first; the result has at most k bits |
| `Bytes.BitOfCombine` | Program.cs:130-132 | each bit of the result is the gate applied to the same bit of both operands |
| `Bytes.Or8` | Program.cs:130 | bitwise OR of two bytes |
| `Bytes.And8` | Program.cs:131 | bitwise AND of two bytes |
| `Bytes.Xor8` | Program.cs:132 | bitwise XOR of two bytes |
| `Bytes.XorSelfInverse` | Program.cs:192 | XOR with the same byte twice restores a display cell |
| `Bytes.XorOneIsOne` | Program.cs:191-192 | a cell XOR a set sprite bit is 1 iff the cell held 0 |
| `Bytes.OrScaled` | Program.cs:47 | OR of a value shifted left by s with a value below 2^s is their sum |
| `Bytes.AndWithinMask` | Program.cs:175 | the masked random byte has no bit outside the mask |
| `Bytes.MaskForms` | Program.cs:144-154 | `b & 1` is `b % 2` and `(b & 0x80) == 0x80` holds iff `b >= 0x80` |
| `Cpu.CPU.constructor` | Program.cs:59-72 | a new CPU has zero-filled RAM, registers and display, PC = I = 0 and an empty stack |
| `Cpu.CPU.ExecuteOpcode` | Program.cs:74-255 | the fields afterwards are exactly the state Execute gives; when it raises a fault, that fault is the one Execute names and no field has changed |
| `Cpu.CPU.ExecuteSystem` | Program.cs:80-93 | 00E0 zeroes every display cell in a loop; 00EE pops into PC or faults with nothing changed; any other 0NNN faults |
| `Cpu.CPU.ExecuteArithmetic` | Program.cs:124-160 | the 8XYN arms write VF and then V[X] exactly as Alu describes, or fault with the registers unchanged |
| `Cpu.CPU.ExecuteDraw` | Program.cs:178-195 | the nested row/column loop leaves V and the display as ExecDraw describes |
| `Cpu.CPU.ExecuteKeys` | Program.cs:196-207 | EX9E and EXA1 skip on the key bit, any other EXNN faults with nothing changed |
| `Cpu.CPU.ExecuteMisc` | Program.cs:208-250 | the nine listed FXNN words succeed, every other FXNN faults with the word |
| `Properties.LoadImmediate` | Program.cs:116-118 | 6XNN sets V[X] to NN and changes nothing else |
| `Properties.AddImmediate` | Program.cs:120-122 | 7XNN sets V[X] to (V[X] + NN) mod 256, no flag, nothing else changes |
| `Properties.SetIndex` | Program.cs:166-168 | ANNN sets I to NNN and changes nothing else |
| `Properties.RandomMasked` | Program.cs:174-176 | CXNN stores the random value AND NN, with no bit outside NN, and changes nothing else |
| `Properties.RandomReachesMasked` | Program.cs:175 | every byte whose bits lie within NN is the result for some random value |
| `Properties.Logic` | Program.cs:129-132 | 8XY0..8XY3 store V[Y], V[X] OR V[Y], V[X] AND V[Y], V[X] XOR V[Y] into V[X], nothing else changes |
| `Properties.AddWithCarry` | Program.cs:133-136 | 8XY4 (X, Y not VF): VF is 1 iff V[X] + V[Y] > 255 and 0 otherwise; V[X] is the sum mod 256; nothing else changes |
| `Properties.AddWithCarryReadsNewFlag` | Program.cs:134-135 | 8XF4 adds the carry just written, not the old VF; nothing but V[X] and VF changes |
| `Properties.AddWithCarryIntoFlag` | Program.cs:134-135 | 8FY4 leaves VF = (carry + V[Y]) mod 256; nothing else changes |
| `Properties.AddFlagToItself` | Program.cs:134-135 | 8FF4 leaves VF = 2 when 2 * VF > 255 and 0 otherwise; nothing else changes |
| `Properties.SubtractWithBorrow` | Program.cs:138-141 | 8XY5: VF is 1 iff V[X] > V[Y] (strict); V[X] is the difference mod 256; nothing else changes |
| `Properties.SubtractReversedFlag` | Program.cs:148-151 | 8XY7: VF is 1 iff V[Y] > V[X]; V[X] becomes V[X] - V[Y] mod 256 |
| `Properties.SubtractReadsNewFlag` | Program.cs:138-151 | 8XF5 and 8XF7 (X not VF): VF is the new flag and V[X] is V[X] minus that flag mod 256; nothing else changes |
| `Properties.SubtractIntoFlag` | Program.cs:138-151 | 8FY5 and 8FY7 (Y not VF): VF ends as the new flag minus V[Y] mod 256; nothing else changes |
| `Properties.SubtractFlagFromItself` | Program.cs:138-151 | 8FF5 and 8FF7 leave VF = 0 and change nothing else |
| `Properties.ShiftRight` | Program.cs:143-146 | 8XY6: VF is the old low bit, both as `V[X] % 2` and as `V[X] & 1`; V[X] is the old value halved, and together they rebuild the old value |
| `Properties.ShiftRightFlag` | Program.cs:144-145 | 8FY6 leaves VF = 0 and changes nothing else |
| `Properties.ShiftLeft` | Program.cs:153-156 | 8XYE: VF is 1 iff `(V[X] & 0x80) == 0x80`, that is iff V[X] >= 0x80; V[X] is the old value doubled mod 256, and together they rebuild twice the old value |
| `Properties.ShiftLeftFlag` | Program.cs:153-156 | 8FYE leaves VF = 2 when its old top bit was set and 0 otherwise; nothing else changes |
| `Properties.ArithmeticExamples` | Program.cs:133-141 | 8014 on FF+01 gives 00 with VF 1 and on 01+01 gives 02 with VF 0; 8015 on 05-03 gives 02 with VF 1, on 01-03 gives FE with VF 0, on 03-03 gives 00 with VF 0 |
| `Properties.SkipIfEqual` | Program.cs:104-106 | 3XNN adds 2 to PC iff V[X] == NN, otherwise nothing changes; nothing else ever changes |
| `Properties.SkipIfNotEqual` | Program.cs:108-110 | 4XNN adds 2 to PC iff V[X] != NN; nothing else changes |
| `Properties.SkipIfRegistersEqual` | Program.cs:112-114 | 5XYN adds 2 to PC iff V[X] == V[Y] and N == 0; nothing else changes |
| `Properties.SkipIfRegistersDiffer` | Program.cs:162-164 | 9XYN adds 2 to PC iff V[X] != V[Y], whatever N is; nothing else changes |
| `Properties.SkipIfKeyPressed` | Program.cs:197-200 | EX9E adds 2 to PC iff the key bit is 1; nothing else changes |
| `Properties.SkipIfKeyReleased` | Program.cs:202-205 | EXA1 adds 2 to PC iff the key bit is not 1; nothing else changes |
| `Properties.KeyBitBeyondByte` | Program.cs:199 | a register value whose low five bits are 8 or more tests a bit the keyboard byte does not have, which reads 0 |
| `Properties.Jump` | Program.cs:95-97 | 1NNN sets PC to NNN and changes nothing else |
| `Properties.JumpOffset` | Program.cs:170-172 | BNNN sets PC to NNN + V0, which stays below 0x10FF, and changes nothing else |
| `Properties.Call` | Program.cs:99-102 | 2NNN pushes the current PC and sets PC to NNN, nothing else changes |
| `Properties.Return` | Program.cs:85-88 | 00EE on an empty stack is the EmptyStack fault; otherwise PC becomes the top and the top is removed |
| `Properties.CallThenReturn` | Program.cs:85-102 | a call followed by a return gives back exactly the machine before the call |
| `Properties.ClearDisplay` | Program.cs:81-84 | 00E0 zeroes every display cell, changes nothing else, and a second 00E0 changes nothing |
| `Properties.CoveredCells` | Program.cs:184-190 | the cells the blit covers are exactly the indices `(x+j)+(y+i)*64` for i < N and j < 8, each for one (i, j) |
| `Properties.DrawCells` | Program.cs:184-194 | every written index is in range and becomes its old value XOR bit j of `RAM[I]`; every other cell keeps its value |
| `Properties.DrawFlag` | Program.cs:182-191 | after DXYN, VF is 1 iff some covered cell with a set sprite bit held 1, else 0; no other register and nothing but the display changes |
| `Properties.DrawTwiceRestores` | Program.cs:178-195 | drawing the same sprite twice with X and Y not VF restores the display, and the second draw's indices are still in range |
| `Properties.SomeSpriteBitSet` | Program.cs:187-189 | a non-zero sprite byte has a set pixel among its eight columns |
| `Properties.DrawTwiceCollides` | Program.cs:178-195 | with X and Y not VF, the second of two identical draws fits the display and sets VF to 1 iff some covered cell with a set sprite bit held 0 before the first draw |
| `Properties.DrawTwiceAfterClear` | Program.cs:178-195 | derived from `DrawTwiceCollides`: starting from a cleared display, the first draw leaves VF 0, the second sets VF to 1 iff N > 0 and the sprite byte is non-zero, and the display is clear again; the cleared start is needed, because on a display whose covered cells already hold 1 the first draw collides and clears them and the second finds no collision |
| `Properties.NoAutoAdvance` | Program.cs:116-250 | 00E0 and the 6, 7, 8, A, C, D and F families leave PC as it was: none of these arms changes PC |
| `Properties.FaultIff` | Program.cs:85-252 | Execute faults exactly for unsupported words (with that word) and for 00EE on an empty stack, in both directions: the `Stack.Pop` at 87 and the throws at 91, 158, 207 and 248; the `default` throw at 252 cannot be reached, since all sixteen families have a case, like `Execute`'s `case _` |
| `Properties.MiscIsNoOp` | Program.cs:211-245 | each listed FXNN word leaves the machine exactly as it was |
| `Properties.UnsupportedExamples` | Program.cs:247-248 | FFFF, 0123, 8018 and E1A2 raise UnsupportedOpcode with that word |
| `Rom.Word` | Program.cs:47 | the big-endian word of two bytes, high byte times 256 plus low byte |
| `Rom.WordIsOr` | Program.cs:47 | the source's `hi << 8` OR `lo`, the OR computed bit by bit on 16 bits, is that word |
| `Rom.WordBytes` | Program.cs:47 | the high and low bytes of a word built from two bytes are those bytes, and every word is built from its own two bytes |
| `Rom.Opcodes` | Program.cs:42-43 | an even-length image has half as many words as bytes |
| `Rom.OpcodesAt` | Program.cs:46-48 | word k of an image is `bytes[2k] * 256 + bytes[2k+1]` |
| `Rom.OpcodesOfImage` | Program.cs:47 | decoding the byte image of any word sequence gives those words back |
| `Rom.ImageOfOpcodes` | Program.cs:47 | re-encoding the words of an even-length image gives the image back |
| `Rom.ExtractOpcodes` | Program.cs:40-51 | the read loop succeeds iff the image has even length, and then returns exactly Opcodes of the image, word k from bytes 2k and 2k+1; an odd length ends in the end-of-stream exception |

## Left out

- `Program.Main` (Program.cs:15-37): opening the ROM file, the loop that
  feeds each word of the file (not the word at `PC`) to `ExecuteOpcode`,
  printing exception messages and waiting for a key are I/O.
- The random generator (Program.cs:72, 175) is seeded from the clock; the
  value `rng.Next()` returns is a parameter of `ExecuteOpcode` and `Execute`.
- The draw arm's out-of-range accesses (Program.cs:186, 190-192). An `I` of
  4096 or more throws at the first read of `RAM[I]`, after VF has been
  cleared and before any cell is written. A cell index of 2048 or more
  throws after VF has been cleared and the cells before it have been XORed,
  so VF may already be 1. `DrawFits` makes in-range indices a precondition
  of the draw arm instead, so neither partial state is modelled.
- The exception message text ("Unsupported Opcode: XXXX"); the fault carries
  the word itself.
- `ExtractOpcodes` takes the stream's contents as a sequence of bytes; the
  `BinaryReader` and the stream position are not modelled, beyond the
  position arithmetic that picks the array slot.
- `DelayTimer` and `SoundTimer` are fields of the state that no arm reads or
  writes; nothing decrements them.
