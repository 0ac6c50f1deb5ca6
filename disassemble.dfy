/** The CHIP-8 disassembler of disassemble.js: byte-to-hex formatting, pairing of hex
    bytes into instruction words, and the decoding of one two-byte instruction into a line
    of text (address, raw word, mnemonic). */
module Disassemble {
  import opened JsRuntime

  datatype Option<T> = None | Some(value: T)

  /** CHIP-8 programs are loaded at 0x200; the printed address is relative to it. */
  const ADDRESS_BASE := 0x200

  /** The padding decodeRom and createHexArrayFromBuffer apply to a single digit: a
      leading "0" makes it two digits long without changing the number it denotes or the
      case of its letters. Longer strings are left as they are. */
  function Pad(s: string): (r: string)
    ensures |s| == 1 ==> |r| == 2 && r[1] == s[0]
    ensures |s| != 1 ==> r == s
    ensures AllHex(s) ==> AllHex(r) && HexValue(r) == HexValue(s)
    ensures AllLowerHex(s) ==> AllLowerHex(r)
    ensures AllUpperHex(s) ==> AllUpperHex(r)
  {
    if |s| == 1 then
      if AllHex(s) then HexValueAppend("0", s); "0" + s else "0" + s
    else s
  }

  /** A byte as decodeRom first writes it (byte1HexString, byte2HexString): toString(16)
      padded to two lower-case digits. */
  function PaddedHex(b: Byte): (s: string)
    ensures |s| == 2 && AllLowerHex(s) && HexValue(s) == b
  {
    Pad(ToHex(b))
  }

  /** One entry of createHexArrayFromBuffer: toString(16), upper-cased, then padded. */
  function ByteHex(b: Byte): (s: string)
    ensures |s| == 2 && AllUpperHex(s) && HexValue(s) == b
  {
    UpperHexValue(ToHex(b));
    Pad(Upper(ToHex(b)))
  }

  /** Upper-casing the lower-case form gives the entry createHexArrayFromBuffer makes. */
  lemma UpperPaddedHex(b: Byte)
    ensures Upper(PaddedHex(b)) == ByteHex(b)
  {
    var digits := ToHex(b);
    if |digits| == 1 {
      UpperAppend("0", digits);
    }
  }

  /** The array createHexArrayFromBuffer returns: one entry per byte of the buffer. */
  function HexArray(buffer: seq<Byte>): (hexArr: seq<string>)
    ensures |hexArr| == |buffer|
    ensures forall i :: 0 <= i < |buffer| ==> hexArr[i] == ByteHex(buffer[i])
  {
    if buffer == [] then []
    else HexArray(buffer[..|buffer| - 1]) + [ByteHex(buffer[|buffer| - 1])]
  }

  /** createHexArrayFromBuffer: the forEach over the bytes that pushes each one's hex. */
  method CreateHexArrayFromBuffer(buffer: seq<Byte>) returns (hexArr: seq<string>)
    ensures hexArr == HexArray(buffer)
  {
    hexArr := [];
    for i := 0 to |buffer|
      invariant hexArr == HexArray(buffer[..i])
    {
      var hex := Upper(ToHex(buffer[i]));
      if |hex| == 1 {
        hex := "0" + hex;
      }
      hexArr := hexArr + [hex];
      assert buffer[..i + 1][..i] == buffer[..i];
    }
    assert buffer[..|buffer|] == buffer;
  }

  /** The array createInstructionsArray returns: entries 2k and 2k + 1 joined, and a last
      odd entry on its own. */
  function Paired(hexArray: seq<string>): (instructions: seq<string>)
    ensures |instructions| == (|hexArray| + 1) / 2
    ensures forall k :: 0 <= k < |instructions| ==>
      instructions[k] == hexArray[2 * k] + (if 2 * k + 1 < |hexArray| then hexArray[2 * k + 1] else "")
    decreases |hexArray|
  {
    if |hexArray| <= 1 then hexArray
    else [hexArray[0] + hexArray[1]] + Paired(hexArray[2..])
  }

  /** createInstructionsArray: a forEach that, at each even index, pushes the entry joined
      with the next one when that one is truthy, or the entry alone. An empty string is
      falsy, but joining it changes nothing, so the result is the same either way. */
  method CreateInstructionsArray(hexArray: seq<string>) returns (instructionsArr: seq<string>)
    ensures instructionsArr == Paired(hexArray)
  {
    instructionsArr := [];
    for index := 0 to |hexArray|
      invariant |instructionsArr| == (index + 1) / 2
      invariant forall k :: 0 <= k < |instructionsArr| ==>
        instructionsArr[k] == hexArray[2 * k] + (if 2 * k + 1 < |hexArray| then hexArray[2 * k + 1] else "")
    {
      if index % 2 == 0 {
        var byte := hexArray[index];
        if index + 1 < |hexArray| && hexArray[index + 1] != "" {
          instructionsArr := instructionsArr + [byte + hexArray[index + 1]];
        } else {
          assert index + 1 < |hexArray| ==> byte + hexArray[index + 1] == byte;
          instructionsArr := instructionsArr + [byte];
        }
      }
    }
    var expected := Paired(hexArray);
    assert |instructionsArr| == |expected|;
    assert forall k :: 0 <= k < |expected| ==> instructionsArr[k] == expected[k];
  }

  /** Pairing the hex array of a buffer: word k is four upper-case hex digits whose value is
      the big-endian word of bytes 2k and 2k + 1; a trailing odd byte stays two digits. */
  lemma {:induction false} InstructionWord(buffer: seq<Byte>, k: nat)
    requires k < (|buffer| + 1) / 2
    ensures var word := Paired(HexArray(buffer))[k];
      && AllUpperHex(word)
      && (2 * k + 1 < |buffer| ==> |word| == 4 && HexValue(word) == buffer[2 * k] as int * 256 + buffer[2 * k + 1])
      && (2 * k + 1 == |buffer| ==> word == ByteHex(buffer[2 * k]))
  {
    var hexArr := HexArray(buffer);
    var word := Paired(hexArr)[k];
    if 2 * k + 1 < |buffer| {
      var a, b := ByteHex(buffer[2 * k]), ByteHex(buffer[2 * k + 1]);
      assert word == a + b;
      HexValueAppend(a, b);
      assert ShiftDigits(HexValue(a), 1) == HexValue(a) * 16;
    } else {
      assert word == hexArr[2 * k] + "";
    }
  }

  // The operand strings decodeRom builds; toString(16) writes them in lower case.

  /** registerX: the low nibble of byte1. */
  function RegisterX(byte1: Byte): (s: string)
    ensures |s| == 1 && AllLowerHex(s) && HexValue(s) == byte1 % 16
  {
    ToHex(byte1 % 16)
  }

  /** registerY: the high nibble of byte2. */
  function RegisterY(byte2: Byte): (s: string)
    ensures |s| == 1 && AllLowerHex(s) && HexValue(s) == byte2 / 16
  {
    ToHex(byte2 / 16)
  }

  /** lowNibble: the low nibble of byte2. */
  function LowNibble(byte2: Byte): (s: string)
    ensures |s| == 1 && AllLowerHex(s) && HexValue(s) == byte2 % 16
  {
    ToHex(byte2 % 16)
  }

  /** `${addressHi}${byte2HexString}`: addressHi is the high nibble of byte2, not the low
      nibble of byte1, so the operand printed is byte2's high nibble followed by byte2. */
  function AddressOperand(byte2: Byte): (s: string)
    ensures |s| == 3 && AllLowerHex(s)
    ensures HexValue(s) == byte2 / 16 * 256 + byte2
  {
    var hi, lo := ToHex(byte2 / 16), PaddedHex(byte2);
    HexValueAppend(hi, lo);
    assert ShiftDigits(HexValue(hi), 1) == HexValue(hi) * 16;
    hi + lo
  }

  lemma HexHasNoNewline(s: string)
    requires AllLowerHex(s)
    ensures '\n' !in s
  {
  }

  const NOT_HANDLED_0 := "this 0x00 case not handled, NO OP?"
  const NOT_HANDLED_8 := "this 0x08 case not handled yet"
  const NOT_HANDLED_E := "this 0x0E not handled yet"
  const NOT_HANDLED_F := "this 0x0F not handled yet"
  const UNRECOGNIZED := "unrecongized opcode - something went wrong"

  /** Class 8: the register-to-register operations, chosen by byte2's low nibble. */
  function ClassEightMnemonic(x: string, y: string, lowNibble: nat): (text: string)
    requires '\n' !in x && '\n' !in y
    ensures '\n' !in text
  {
    match lowNibble
    case 0x0 => "LD V" + x + ", V" + y
    case 0x1 => "OR V" + x + ", V" + y
    case 0x2 => "AND V" + x + ", V" + y
    case 0x3 => "XOR V" + x + ", V" + y
    case 0x4 => "ADD V" + x + ", V" + y
    case 0x5 => "SUB V" + x + ", V" + y
    case 0x6 => "SHR V" + x + " {, V" + y + "}"
    case 0x7 => "SUBN V" + x + ", V" + y
    case 0xE => "SHL V" + x + " {, V" + y + "}"
    case _ => NOT_HANDLED_8
  }

  /** Class F: the timer, key, index and memory operations, chosen by byte2. */
  function ClassFMnemonic(x: string, byte2: Byte): (text: string)
    requires '\n' !in x
    ensures '\n' !in text
  {
    match byte2
    case 0x07 => "LD V" + x + ", DT"
    case 0x0A => "LD V" + x + ", K"
    case 0x15 => "LD DT, V" + x
    case 0x18 => "LD ST, V" + x
    case 0x1E => "ADD I, V" + x
    case 0x29 => "LD F, V" + x
    case 0x33 => "LD B, V" + x
    case 0x55 => "LD [I], V" + x
    case 0x65 => "LD V" + x + ", [I]"
    case _ => NOT_HANDLED_F
  }

  /** decodedString: the switch on byte1's high nibble, with sub-switches on byte2 for
      classes 0, E and F and on byte2's low nibble for class 8. */
  function Mnemonic(byte1: Byte, byte2: Byte): (text: string)
    ensures '\n' !in text
  {
    var x, y, n, b := RegisterX(byte1), RegisterY(byte2), LowNibble(byte2), PaddedHex(byte2);
    HexHasNoNewline(x); HexHasNoNewline(y); HexHasNoNewline(n); HexHasNoNewline(b);
    HexHasNoNewline(AddressOperand(byte2));
    match byte1 / 16
    case 0x0 =>
      if byte2 == 0xE0 then "CLS"
      else if byte2 == 0xEE then "RET"
      else NOT_HANDLED_0
    case 0x1 => "JP #$" + AddressOperand(byte2)
    case 0x2 => "CALL #$" + AddressOperand(byte2)
    case 0x3 => "SE V" + x + ", #$" + b
    case 0x4 => "SNE V" + x + ", #$" + b
    case 0x5 => "SE V" + x + ", V" + y
    case 0x6 => "LD V" + x + ", #$" + b
    case 0x7 => "ADD V" + x + ", #$" + b
    case 0x8 => ClassEightMnemonic(x, y, byte2 % 16)
    case 0x9 => "SNE V" + x + ", V" + y
    case 0xA => "LD I, #$" + AddressOperand(byte2)
    case 0xB => "JP V0, #$" + AddressOperand(byte2)
    case 0xC => "RND V" + x + ", #$" + b
    case 0xD => "DRW V" + x + ", V" + y + ", " + n
    case 0xE =>
      if byte2 == 0x9E then "SKP V" + x
      else if byte2 == 0xA1 then "SKNP V" + x
      else NOT_HANDLED_E
    case 0xF => ClassFMnemonic(x, byte2)
    case _ => UNRECOGNIZED
  }

  /** addressAndHexInfo: the address, ": $", the two bytes and a newline, upper-cased. The
      text ends in its only newline and holds no lower-case letter. */
  function AddressAndHexInfo(programCounter: nat, byte1: Byte, byte2: Byte): (info: string)
    ensures |info| == |ToHex(ADDRESS_BASE + programCounter)| + 8
    ensures info[|info| - 1] == '\n' && '\n' !in info[..|info| - 1]
    ensures forall i :: 0 <= i < |info| ==> !IsLowerLetter(info[i])
  {
    Upper(Upper(ToHex(ADDRESS_BASE + programCounter)) + ": $" + PaddedHex(byte1) + PaddedHex(byte2) + "\n")
  }

  /** decodeRom(romBuffer, programCounter). Reading a byte past the end of the buffer gives
      `undefined`, whose toString throws: None stands for that TypeError. The line that is
      returned contains no lower-case letter. */
  function DecodeRom(romBuffer: seq<Byte>, programCounter: nat): (line: Option<string>)
    ensures line.Some? <==> programCounter + 1 < |romBuffer|
    ensures line.Some? ==> forall i :: 0 <= i < |line.value| ==> !IsLowerLetter(line.value[i])
  {
    if programCounter + 1 < |romBuffer| then
      var byte1, byte2 := romBuffer[programCounter], romBuffer[programCounter + 1];
      Some(Upper(AddressAndHexInfo(programCounter, byte1, byte2) + Mnemonic(byte1, byte2)))
    else
      None
  }

  /** The layout of a decoded line: the upper-case hex of 0x200 + pc, ": $", the two bytes
      as two upper-case digits each, a newline, then the upper-cased mnemonic. */
  lemma DecodeRomLayout(romBuffer: seq<Byte>, programCounter: nat)
    requires programCounter + 1 < |romBuffer|
    ensures var byte1, byte2 := romBuffer[programCounter], romBuffer[programCounter + 1];
      var address := Upper(ToHex(ADDRESS_BASE + programCounter));
      && AllHex(address) && HexValue(address) == ADDRESS_BASE + programCounter
      && DecodeRom(romBuffer, programCounter).value
         == address + ": $" + ByteHex(byte1) + ByteHex(byte2) + "\n" + Upper(Mnemonic(byte1, byte2))
  {
    var byte1, byte2 := romBuffer[programCounter], romBuffer[programCounter + 1];
    UpperHexValue(ToHex(ADDRESS_BASE + programCounter));
    AddressAndHexInfoLayout(programCounter, byte1, byte2);
    var info := AddressAndHexInfo(programCounter, byte1, byte2);
    UpperKeepsNonLower(info);
    UpperAppend(info, Mnemonic(byte1, byte2));
  }

  lemma AddressAndHexInfoLayout(programCounter: nat, byte1: Byte, byte2: Byte)
    ensures AddressAndHexInfo(programCounter, byte1, byte2)
         == Upper(ToHex(ADDRESS_BASE + programCounter)) + ": $" + ByteHex(byte1) + ByteHex(byte2) + "\n"
  {
    var address := Upper(ToHex(ADDRESS_BASE + programCounter));
    var h1, h2 := PaddedHex(byte1), PaddedHex(byte2);
    UpperIdempotent(ToHex(ADDRESS_BASE + programCounter));
    UpperPaddedHex(byte1);
    UpperPaddedHex(byte2);
    UpperKeepsNonLower(": $");
    UpperKeepsNonLower("\n");
    UpperAppend(address, ": $");
    UpperAppend(address + ": $", h1);
    UpperAppend(address + ": $" + h1, h2);
    UpperAppend(address + ": $" + h1 + h2, "\n");
  }

  /** Class 0 is decided by byte2 alone: E0 is CLS, EE is RET, anything else the "not
      handled" text; the low nibble of byte1 plays no part. */
  lemma ClassZeroByLowByte(byte1: Byte, byte2: Byte)
    requires byte1 / 16 == 0
    ensures Mnemonic(byte1, byte2) == Mnemonic(0, byte2)
    ensures Mnemonic(byte1, byte2) == "CLS" <==> byte2 == 0xE0
    ensures Mnemonic(byte1, byte2) == "RET" <==> byte2 == 0xEE
    ensures Mnemonic(byte1, byte2) == NOT_HANDLED_0 <==> byte2 !in {0xE0, 0xEE}
  {
  }

  /** JP, CALL, LD I and JP V0 print the address operand of byte2 alone: two instructions
      that differ only in byte1's low nibble disassemble to the same text. */
  lemma AddressOperandIgnoresByte1(byte1: Byte, other: Byte, byte2: Byte)
    requires byte1 / 16 in {0x1, 0x2, 0xA, 0xB} && other / 16 == byte1 / 16
    ensures Mnemonic(byte1, byte2) == Mnemonic(other, byte2)
    ensures exists prefix: string :: Mnemonic(byte1, byte2) == prefix + AddressOperand(byte2)
  {
    var prefix := match byte1 / 16
      case 0x1 => "JP #$"
      case 0x2 => "CALL #$"
      case 0xA => "LD I, #$"
      case _ => "JP V0, #$";
    assert Mnemonic(byte1, byte2) == prefix + AddressOperand(byte2);
  }

  /** Class 8 is handled exactly when byte2's low nibble is 0 to 7 or E. */
  lemma ClassEightDispatch(byte1: Byte, byte2: Byte)
    requires byte1 / 16 == 8
    ensures Mnemonic(byte1, byte2) == NOT_HANDLED_8
        <==> byte2 % 16 !in {0x0, 0x1, 0x2, 0x3, 0x4, 0x5, 0x6, 0x7, 0xE}
  {
  }

  /** Class E is handled exactly for byte2 = 9E (SKP) and A1 (SKNP). */
  lemma ClassEDispatch(byte1: Byte, byte2: Byte)
    requires byte1 / 16 == 0xE
    ensures Mnemonic(byte1, byte2) == NOT_HANDLED_E <==> byte2 !in {0x9E, 0xA1}
  {
  }

  /** Class F is handled exactly for the nine listed low bytes. */
  lemma ClassFDispatch(byte1: Byte, byte2: Byte)
    requires byte1 / 16 == 0xF
    ensures Mnemonic(byte1, byte2) == NOT_HANDLED_F
        <==> byte2 !in {0x07, 0x0A, 0x15, 0x18, 0x1E, 0x29, 0x33, 0x55, 0x65}
  {
  }

  /** Every high nibble of a byte has a case, so the "unrecongized opcode" default is never
      reached. */
  lemma NeverUnrecognized(byte1: Byte, byte2: Byte)
    ensures Mnemonic(byte1, byte2) != UNRECOGNIZED
  {
  }
}
