/** What one emulateCycle does, opcode class by opcode class, stated in terms of the two
    bytes at the program counter; and how reset, loadROM and the first fetch fit together. */
module CpuProperties {
  import opened JsRuntime
  import opened Cpu

  /** The byte at pc: its high nibble selects the class, its low nibble is x. */
  function HighByte(m: Machine): Byte {
    ReadByte(m.memory, m.pc)
  }

  /** The byte at pc + 1: kk. */
  function LowByte(m: Machine): Byte {
    ReadByte(m.memory, m.pc + 1)
  }

  /** The 12-bit address operand nnn of the word at pc. */
  function Address(m: Machine): nat {
    HighByte(m) % 16 * 256 + LowByte(m)
  }

  /** 00E0 (and any 0xE0 with class 0): every display cell becomes 0 and pc advances by 2;
      registers, I, the stack and the running flag are untouched. */
  lemma ClearScreen(m: Machine)
    requires CanCycle(m) && HighByte(m) / 16 == 0 && LowByte(m) == 0xE0
    ensures Cycle(m) == m.(display := Blank(DISPLAY_SIZE), pc := m.pc + 2,
                           cycleCount := m.cycleCount + 1, drawFlag := false)
  {
    DecodeBytes(HighByte(m), LowByte(m));
  }

  /** 00EE: pc becomes the popped address plus 2 and the stack loses its top entry. */
  lemma ReturnFromSubroutine(m: Machine)
    requires WellFormed(m) && HighByte(m) / 16 == 0 && LowByte(m) == 0xEE && |m.stack| > 0
    ensures CanCycle(m)
    ensures Cycle(m) == m.(pc := m.stack[|m.stack| - 1] + 2, stack := m.stack[..|m.stack| - 1],
                           cycleCount := m.cycleCount + 1, drawFlag := false)
  {
    DecodeBytes(HighByte(m), LowByte(m));
  }

  /** Any other 0nnn (SYS addr) is ignored: only pc advances, by 2. */
  lemma SystemCallIgnored(m: Machine)
    requires CanCycle(m) && HighByte(m) / 16 == 0 && LowByte(m) != 0xE0 && LowByte(m) != 0xEE
    ensures Cycle(m) == m.(pc := m.pc + 2, cycleCount := m.cycleCount + 1, drawFlag := false)
  {
    DecodeBytes(HighByte(m), LowByte(m));
  }

  /** 1nnn: pc becomes nnn exactly; nothing else changes. */
  lemma Jump(m: Machine)
    requires CanCycle(m) && HighByte(m) / 16 == 1
    ensures Cycle(m) == m.(pc := Address(m), cycleCount := m.cycleCount + 1, drawFlag := false)
  {
    DecodeBytes(HighByte(m), LowByte(m));
  }

  /** 2nnn: the address after the call instruction is pushed and pc becomes nnn. */
  lemma Call(m: Machine)
    requires CanCycle(m) && HighByte(m) / 16 == 2
    ensures Cycle(m) == m.(stack := m.stack + [m.pc + 2], pc := Address(m),
                           cycleCount := m.cycleCount + 1, drawFlag := false)
  {
    DecodeBytes(HighByte(m), LowByte(m));
  }

  /** A call at p to a subroutine that starts with 00EE comes back to p + 4, not p + 2:
      the call pushes p + 2 and the return adds another 2, so the instruction right after
      the call is skipped. The stack is back to its length and contents before the call. */
  lemma CallThenReturn(m: Machine)
    requires CanCycle(m) && HighByte(m) / 16 == 2
    requires ReadByte(m.memory, Address(m)) / 16 == 0 && ReadByte(m.memory, Address(m) + 1) == 0xEE
    ensures CanCycle(Cycle(m))
    ensures Cycle(Cycle(m)).pc == m.pc + 4 && Cycle(Cycle(m)).stack == m.stack
    ensures Cycle(Cycle(m)).registers == m.registers && Cycle(Cycle(m)).I == m.I
  {
    Call(m);
    var called := Cycle(m);
    assert called.stack[..|called.stack| - 1] == m.stack;
    ReturnFromSubroutine(called);
  }

  /** 3xkk: pc advances by 4 when Vx equals kk and by 2 otherwise; registers and I keep
      their values. */
  lemma SkipIfEqual(m: Machine)
    requires CanCycle(m) && HighByte(m) / 16 == 3
    ensures var skip := m.registers[HighByte(m) % 16] == LowByte(m);
      Cycle(m) == m.(pc := if skip then m.pc + 4 else m.pc + 2,
                     cycleCount := m.cycleCount + 1, drawFlag := false)
  {
    DecodeBytes(HighByte(m), LowByte(m));
  }

  /** 6xkk: Vx becomes kk, pc advances by 2, no other register changes. */
  lemma LoadByte(m: Machine)
    requires CanCycle(m) && HighByte(m) / 16 == 6
    ensures Cycle(m) == m.(registers := m.registers[HighByte(m) % 16 := LowByte(m)], pc := m.pc + 2,
                           cycleCount := m.cycleCount + 1, drawFlag := false)
  {
    DecodeBytes(HighByte(m), LowByte(m));
  }

  /** 7xkk: Vx becomes Vx + kk with no reduction modulo 256, pc advances by 2, no other
      register changes. */
  lemma AddByte(m: Machine)
    requires CanCycle(m) && HighByte(m) / 16 == 7
    ensures var x := HighByte(m) % 16;
      Cycle(m) == m.(registers := m.registers[x := m.registers[x] + LowByte(m)], pc := m.pc + 2,
                     cycleCount := m.cycleCount + 1, drawFlag := false)
  {
    DecodeBytes(HighByte(m), LowByte(m));
  }

  /** Because 7xkk does not wrap, a register can leave the byte range: 0xFF + 0xFF = 0x1FE. */
  lemma AddByteLeavesByteRange(m: Machine)
    requires CanCycle(m) && HighByte(m) / 16 == 7 && LowByte(m) == 0xFF
    requires m.registers[HighByte(m) % 16] == 0xFF
    ensures Cycle(m).registers[HighByte(m) % 16] == 0x1FE
  {
    AddByte(m);
  }

  /** Annn: I becomes nnn and pc advances by 2; the registers are untouched. */
  lemma LoadIndex(m: Machine)
    requires CanCycle(m) && HighByte(m) / 16 == 0xA
    ensures Cycle(m) == m.(I := Address(m), pc := m.pc + 2,
                           cycleCount := m.cycleCount + 1, drawFlag := false)
  {
    DecodeBytes(HighByte(m), LowByte(m));
  }

  /** Dxyn draws nothing: the display, the registers (VF included) and I are untouched,
      pc advances by 2, and the draw flag it raises is cleared before the cycle ends. */
  lemma DrawIsStub(m: Machine)
    requires CanCycle(m) && HighByte(m) / 16 == 0xD
    ensures Cycle(m) == m.(pc := m.pc + 2, cycleCount := m.cycleCount + 1, drawFlag := false)
  {
    DecodeBytes(HighByte(m), LowByte(m));
  }

  /** Fxkk, whatever kk is, behaves as Fx07: Vx becomes the delay timer's value. */
  lemma LoadDelayTimer(m: Machine)
    requires CanCycle(m) && HighByte(m) / 16 == 0xF
    ensures Cycle(m) == m.(registers := m.registers[HighByte(m) % 16 := m.delayTimer], pc := m.pc + 2,
                           cycleCount := m.cycleCount + 1, drawFlag := false)
  {
    DecodeBytes(HighByte(m), LowByte(m));
  }

  /** Classes 4, 5, 8, 9, B, C and E are not implemented: the machine stops, and pc,
      registers, I, the stack and the display keep their values. */
  lemma UnimplementedClassHalts(m: Machine)
    requires CanCycle(m) && HighByte(m) / 16 in {0x4, 0x5, 0x8, 0x9, 0xB, 0xC, 0xE}
    ensures Cycle(m) == m.(running := false, cycleCount := m.cycleCount + 1, drawFlag := false)
  {
    DecodeBytes(HighByte(m), LowByte(m));
  }

  /** The running flag is an output of a cycle, never an input: a stopped machine that is
      stepped executes its instruction just as a running one does. */
  lemma RunningNotConsulted(m: Machine, running: bool)
    requires CanCycle(m)
    ensures CanCycle(m.(running := running))
    ensures Cycle(m.(running := running))
         == Cycle(m).(running := running && IsImplementedClass(HighByte(m) / 16))
  {
    DecodeBytes(HighByte(m), LowByte(m));
    var stopped := m.(running := running);
    var f := Decode(Fetch(m.memory, m.pc));
    var counted := m.(cycleCount := m.cycleCount + 1);
    assert stopped.(cycleCount := stopped.cycleCount + 1) == counted.(running := running);
    ExecuteIgnoresRunning(counted, f, running);
    var e, e' := Execute(counted, f), Execute(counted.(running := running), f);
    assert Cycle(m) == if e.drawFlag then e.(drawFlag := false) else e;
    assert Cycle(stopped) == if e'.drawFlag then e'.(drawFlag := false) else e';
  }

  lemma ExecuteIgnoresRunning(m: Machine, f: Fields, running: bool)
    requires WellFormed(m) && f.x < 16
    requires f.highNibble == 0 && f.kk == 0xEE ==> |m.stack| > 0
    ensures Execute(m.(running := running), f)
         == Execute(m, f).(running := running && IsImplementedClass(f.highNibble))
  {
    match f.highNibble
    case 0x0 =>
    case 0x1 =>
    case 0x2 =>
    case 0x3 =>
    case 0x6 =>
    case 0x7 =>
    case 0xA =>
    case 0xD =>
    case 0xF =>
    case _ =>
  }

  /** LD V0, #$0A (60 0A) followed by ADD V0, #$05 (70 05): V0 ends as 15 and pc has
      advanced by 4. */
  lemma LoadThenAdd(m: Machine)
    requires WellFormed(m) && 0 <= m.pc && m.pc + 3 < MEMORY_SIZE
    requires m.memory[m.pc] == 0x60 && m.memory[m.pc + 1] == 0x0A
    requires m.memory[m.pc + 2] == 0x70 && m.memory[m.pc + 3] == 0x05
    ensures CanCycle(m) && CanCycle(Cycle(m))
    ensures Cycle(Cycle(m)).registers[0] == 15 && Cycle(Cycle(m)).pc == m.pc + 4
  {
    DecodeBytes(0x60, 0x0A);
    LoadByte(m);
    var next := Cycle(m);
    DecodeBytes(0x70, 0x05);
    AddByte(next);
  }

  /** After reset and loadROM, the first instruction fetched is the image's first word. */
  lemma FirstFetchReadsImage(m: Machine, rom: seq<Byte>)
    requires WellFormed(m) && IsReset(m) && 2 <= |rom|
    ensures Fetch(Loaded(m.memory, rom), m.pc) == rom[0] as int * 256 + rom[1]
  {
    var loaded := Loaded(m.memory, rom);
    assert loaded[PROGRAM_START] == rom[0];
    assert loaded[PROGRAM_START + 1] == rom[1];
  }

  /** A reset machine with nothing loaded fetches the word 0000, a SYS call that is
      ignored: it keeps running and moves on to the next word. */
  lemma ResetMachineSkipsZeroWord(m: Machine)
    requires WellFormed(m) && IsReset(m)
    ensures CanCycle(m)
    ensures Cycle(m).pc == PROGRAM_START + 2 && Cycle(m).running && Cycle(m).cycleCount == 1
  {
    assert HighByte(m) == 0 && LowByte(m) == 0;
    SystemCallIgnored(m);
  }
}
