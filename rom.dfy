/** Turning the bytes of a ROM image into instruction words: each pair of
    bytes is one word, high byte first. */
module Rom {
  import opened Bytes

  /** The word with high byte `hi` and low byte `lo`, written as a sum;
      `WordIsOr` shows that it is the source's `(ushort)((hi << 8) | lo)`. */
  function Word(hi: byte, lo: byte): (w: u16) {
    hi * 0x100 + lo
  }

  /** The shifted high byte has no bit in common with the low byte, so the
      OR that builds the word is the sum. */
  lemma WordIsOr(hi: byte, lo: byte)
    ensures Combine(Or, hi * 0x100, lo, 16) == Word(hi, lo)
  {
    assert Pow2(8) == 0x100 && Pow2(16) == 0x1_0000;
    ScaledIsProduct(hi, 8);
    OrScaled(hi, lo, 8, 16);
  }

  function HighByte(w: u16): byte {
    w / 0x100
  }

  function LowByte(w: u16): byte {
    w % 0x100
  }

  /** A word determines its two bytes and is determined by them. */
  lemma WordBytes(hi: byte, lo: byte, w: u16)
    ensures HighByte(Word(hi, lo)) == hi && LowByte(Word(hi, lo)) == lo
    ensures Word(HighByte(w), LowByte(w)) == w
  {
  }

  /** The words of an even-length image, in order. */
  function Opcodes(rom: seq<byte>): (ws: seq<u16>)
    requires |rom| % 2 == 0
    ensures |ws| == |rom| / 2
    decreases |rom|
  {
    if |rom| == 0 then [] else [Word(rom[0], rom[1])] + Opcodes(rom[2..])
  }

  /** The image whose words are `ws`, each written high byte first. */
  function Image(ws: seq<u16>): (rom: seq<byte>)
    ensures |rom| == 2 * |ws|
  {
    if ws == [] then [] else [HighByte(ws[0]), LowByte(ws[0])] + Image(ws[1..])
  }

  /** Word k of an image is built from bytes 2k and 2k+1. */
  lemma {:induction false} OpcodesAt(rom: seq<byte>, k: nat)
    requires |rom| % 2 == 0 && k < |rom| / 2
    ensures Opcodes(rom)[k] == Word(rom[2 * k], rom[2 * k + 1])
    decreases |rom|
  {
    if k > 0 {
      OpcodesAt(rom[2..], k - 1);
    }
  }

  /** Decoding the image of a word sequence gives the words back. */
  lemma {:induction false} OpcodesOfImage(ws: seq<u16>)
    ensures Opcodes(Image(ws)) == ws
  {
    if ws != [] {
      var rom := Image(ws);
      assert rom[2..] == Image(ws[1..]);
      OpcodesOfImage(ws[1..]);
      WordBytes(HighByte(ws[0]), LowByte(ws[0]), ws[0]);
    }
  }

  /** Re-encoding the words of an even-length image gives the image back. */
  lemma {:induction false} ImageOfOpcodes(rom: seq<byte>)
    requires |rom| % 2 == 0
    ensures Image(Opcodes(rom)) == rom
    decreases |rom|
  {
    if |rom| > 0 {
      var ws := Opcodes(rom);
      assert ws[1..] == Opcodes(rom[2..]);
      ImageOfOpcodes(rom[2..]);
      WordBytes(rom[0], rom[1], ws[0]);
      assert rom == [rom[0], rom[1]] + rom[2..];
    }
  }

  /** What reading the image yields: its words, or the end-of-stream
      exception that `BinaryReader.ReadByte` raises when the image has an
      odd length and the last word lacks its low byte. */
  datatype Extraction = Words(words: seq<u16>) | EndOfStream

  /** `ExtractChip8RomOpcodes` over the stream's bytes: reads two bytes per
      iteration and stores the word at `Position / 2 - 1`. */
  method ExtractOpcodes(rom: seq<byte>) returns (r: Extraction)
    ensures r.Words? <==> |rom| % 2 == 0
    ensures r.Words? ==> |r.words| == |rom| / 2
    ensures r.Words? ==> forall k :: 0 <= k < |r.words| ==> r.words[k] == Word(rom[2 * k], rom[2 * k + 1])
    ensures r.Words? ==> r.words == Opcodes(rom)
  {
    var result := new u16[|rom| / 2];
    var position := 0;
    while position < |rom|
      invariant 0 <= position <= |rom| && position % 2 == 0
      invariant forall k :: 0 <= k < position / 2 ==> result[k] == Word(rom[2 * k], rom[2 * k + 1])
    {
      var hi := rom[position];
      position := position + 1;
      if position == |rom| {
        return EndOfStream;
      }
      var lo := rom[position];
      position := position + 1;
      result[position / 2 - 1] := Word(hi, lo);
    }
    forall k | 0 <= k < result.Length
      ensures result[k] == Opcodes(rom)[k]
    {
      OpcodesAt(rom, k);
    }
    return Words(result[..]);
  }
}
