/** The disassembler (disassemble.js) and the interpreter (js/cpu.js) both take an
    instruction word apart. This module compares the two: the register, nibble and byte
    operands the disassembler prints are exactly the fields the interpreter decodes, while
    the printed address operand is the interpreter's nnn only in a special case. */
module DecodeAgreement {
  import opened JsRuntime
  import Cpu
  import Disassemble

  /** The class the disassembler switches on, and the Vx digit, Vy digit, nibble and byte it
      prints, are the interpreter's highNibble, x, y, n and kk of the same word. */
  lemma OperandFieldsAgree(byte1: Byte, byte2: Byte)
    ensures var f := Cpu.Decode(byte1 as int * 256 + byte2);
      && f.highNibble == byte1 / 16
      && |Disassemble.RegisterX(byte1)| == 1 && HexValue(Disassemble.RegisterX(byte1)) == f.x
      && |Disassemble.RegisterY(byte2)| == 1 && HexValue(Disassemble.RegisterY(byte2)) == f.y
      && |Disassemble.LowNibble(byte2)| == 1 && HexValue(Disassemble.LowNibble(byte2)) == f.n
      && HexValue(Disassemble.PaddedHex(byte2)) == f.kk
  {
    Cpu.DecodeBytes(byte1, byte2);
  }

  /** The address operand that JP, CALL, LD I and JP V0 print denotes the interpreter's nnn
      exactly when the low nibble of byte1 equals the high nibble of byte2. */
  lemma AddressOperandAgreesIff(byte1: Byte, byte2: Byte)
    ensures HexValue(Disassemble.AddressOperand(byte2)) == Cpu.Decode(byte1 as int * 256 + byte2).nnn
        <==> byte1 % 16 == byte2 / 16
  {
    Cpu.DecodeBytes(byte1, byte2);
  }

  /** The word 1234 (jump to 234) disassembles as a jump to 334. */
  lemma JumpOperandExample()
    ensures Disassemble.Mnemonic(0x12, 0x34) == "JP #$334"
    ensures Cpu.Decode(0x1234).nnn == 0x234
  {
    assert ToHex(3) == "3";
    assert ToHex(0x34) == ToHex(3) + ['4'];
  }
}
