/** The partial CHIP-8 interpreter of js/cpu.js.

    The machine is an object whose methods update its fields in place (class Chip8).
    Its observable state is also given as a value (Machine), and one fetch-decode-execute
    cycle as a function on that value (Cycle); the class's EmulateCycle and Step are proved
    to perform exactly Cycle on the object's state, and the per-opcode facts are lemmas
    about Cycle (module CpuProperties). */
module Cpu {
  import opened JsRuntime

  /** `new ArrayBuffer(0xfff)`: 4095 bytes, one short of the 4 KiB of a real CHIP-8. */
  const MEMORY_SIZE := 0xfff
  const PROGRAM_START := 0x200
  const DISPLAY_WIDTH := 64
  const DISPLAY_HEIGHT := 32
  const DISPLAY_SIZE := DISPLAY_WIDTH * DISPLAY_HEIGHT
  const REGISTER_COUNT := 16
  /** The stack is created as `new Array(16)`; push and pop then grow and shrink it. */
  const STACK_SLOTS := 16

  /** The fields of a Chip8 object that the interpreter reads or writes. Registers, the
      stack and display cells are plain JavaScript numbers, never wrapped to a byte. */
  datatype Machine = Machine(
    memory: seq<Byte>,
    stack: seq<int>,
    stackPointer: int,
    pc: int,
    registers: seq<int>,
    I: int,
    display: seq<int>,
    delayTimer: int,
    running: bool,
    drawFlag: bool,
    cycleCount: int)

  ghost predicate WellFormed(m: Machine) {
    |m.memory| == MEMORY_SIZE && |m.registers| == REGISTER_COUNT && |m.display| == DISPLAY_SIZE
  }

  /** A read of a Uint8Array: an index outside it gives `undefined`, which the `<<` and `|`
      of the fetch turn into 0 and which equals neither 0xE0 nor 0xEE. */
  function ReadByte(memory: seq<Byte>, a: int): (b: Byte)
    ensures 0 <= a < |memory| ==> b == memory[a]
    ensures !(0 <= a < |memory|) ==> b == 0
  {
    if 0 <= a < |memory| then memory[a] else 0
  }

  /** `memory[pc] << 8 | memory[pc + 1]`: the big-endian instruction word at pc. */
  function Fetch(memory: seq<Byte>, pc: int): (opcode: nat)
    ensures opcode < 0x10000
    ensures opcode / 256 == ReadByte(memory, pc) && opcode % 256 == ReadByte(memory, pc + 1)
  {
    ReadByte(memory, pc) * 256 + ReadByte(memory, pc + 1)
  }

  /** The fields the interpreter extracts from an opcode. */
  datatype Fields = Fields(highNibble: nat, x: nat, y: nat, n: nat, kk: nat, nnn: nat)

  /** `opcode >> 12`, `opcode >> 8 & 0xF`, `opcode >> 4 & 0xF`, `opcode & 0xF`,
      `opcode & 0xFF` and `opcode & 0xFFF`. The contract says that the fields are the
      opcode's hexadecimal digits: four nibbles that recombine into the opcode. */
  function Decode(opcode: nat): (f: Fields)
    requires opcode < 0x10000
    ensures f.highNibble < 16 && f.x < 16 && f.y < 16 && f.n < 16
    ensures f.kk == f.y * 16 + f.n
    ensures f.nnn == f.x * 0x100 + f.kk
    ensures opcode == f.highNibble * 0x1000 + f.nnn
  {
    Fields(opcode / 0x1000, opcode / 0x100 % 0x10, opcode / 0x10 % 0x10,
           opcode % 0x10, opcode % 0x100, opcode % 0x1000)
  }

  /** Decoding a fetched word: the class and x are the two nibbles of the byte at pc, kk is
      the byte at pc + 1, y and n are its nibbles, and nnn joins x and kk. */
  lemma DecodeBytes(hi: Byte, lo: Byte)
    ensures var f := Decode(hi * 256 + lo);
      && f.highNibble == hi / 16 && f.x == hi % 16
      && f.kk == lo && f.y == lo / 16 && f.n == lo % 16
      && f.nnn == hi % 16 * 256 + lo
  {
    var f := Decode(hi * 256 + lo);
    assert f.highNibble * 0x1000 + f.x * 0x100 + f.kk == hi * 256 + lo;
    assert f.kk == lo;
    assert f.highNibble * 16 + f.x == hi;
  }

  /** The word 0yEE with any third nibble y: class 0 looks at the low byte only. */
  predicate IsReturn(opcode: nat)
    requires opcode < 0x10000
  {
    Decode(opcode).highNibble == 0 && Decode(opcode).kk == 0xEE
  }

  /** What Cycle needs: the array lengths the constructor creates, and something to pop
      when the opcode at pc is a return (popping an empty JavaScript array gives
      `undefined`, and the program counter would become NaN). */
  ghost predicate CanCycle(m: Machine) {
    WellFormed(m) && (IsReturn(Fetch(m.memory, m.pc)) ==> |m.stack| > 0)
  }

  /** The instruction classes emulateCycle implements; every other one stops the machine. */
  predicate IsImplementedClass(highNibble: nat) {
    highNibble in {0x0, 0x1, 0x2, 0x3, 0x6, 0x7, 0xA, 0xD, 0xF}
  }

  function Blank(n: nat): (cells: seq<int>)
    ensures |cells| == n && forall c :: 0 <= c < n ==> cells[c] == 0
  {
    seq(n, _ => 0)
  }

  /** The execute step of emulateCycle for decoded fields f (f as Decode produces it).
      It keeps the array lengths, memory, the timer, stackPointer and the cycle count; it
      raises drawFlag exactly for CLS and DRW, and an unimplemented class only stops the
      machine. */
  ghost function Execute(m: Machine, f: Fields): (r: Machine)
    requires WellFormed(m) && f.x < 16
    requires f.highNibble == 0 && f.kk == 0xEE ==> |m.stack| > 0
    ensures WellFormed(r)
    ensures r.memory == m.memory && r.delayTimer == m.delayTimer
    ensures r.stackPointer == m.stackPointer && r.cycleCount == m.cycleCount
    ensures r.drawFlag == (m.drawFlag || f.highNibble == 0xD || (f.highNibble == 0 && f.kk == 0xE0))
    ensures r.running == (m.running && IsImplementedClass(f.highNibble))
    ensures !IsImplementedClass(f.highNibble) ==> r == m.(running := false)
  {
    match f.highNibble
    case 0x0 =>
      if f.kk == 0xE0 then
        m.(display := Blank(|m.display|), drawFlag := true, pc := m.pc + 2)
      else if f.kk == 0xEE then
        m.(pc := m.stack[|m.stack| - 1] + 2, stack := m.stack[..|m.stack| - 1])
      else
        m.(pc := m.pc + 2)
    case 0x1 => m.(pc := f.nnn)
    case 0x2 => m.(stack := m.stack + [m.pc + 2], pc := f.nnn)
    case 0x3 => m.(pc := if m.registers[f.x] == f.kk then m.pc + 4 else m.pc + 2)
    case 0x6 => m.(registers := m.registers[f.x := f.kk], pc := m.pc + 2)
    case 0x7 => m.(registers := m.registers[f.x := m.registers[f.x] + f.kk], pc := m.pc + 2)
    case 0xA => m.(I := f.nnn, pc := m.pc + 2)
    case 0xD => m.(drawFlag := true, pc := m.pc + 2)
    case 0xF => m.(registers := m.registers[f.x := m.delayTimer], pc := m.pc + 2)
    case _ => m.(running := false)
  }

  /** One call of emulateCycle: count the cycle, fetch and decode the word at pc, execute
      it, and clear drawFlag if it is set. The running flag is not consulted. */
  ghost function Cycle(m: Machine): (r: Machine)
    requires CanCycle(m)
    ensures WellFormed(r)
    ensures r.cycleCount == m.cycleCount + 1 && !r.drawFlag
    ensures r.memory == m.memory && r.delayTimer == m.delayTimer
    ensures r.stackPointer == m.stackPointer
    ensures r.running == (m.running && IsImplementedClass(Decode(Fetch(m.memory, m.pc)).highNibble))
  {
    var executed := Execute(m.(cycleCount := m.cycleCount + 1), Decode(Fetch(m.memory, m.pc)));
    if executed.drawFlag then executed.(drawFlag := false) else executed
  }

  /** The state reset leaves behind (the stack keeps its length, see Chip8.Reset). */
  ghost predicate IsReset(m: Machine) {
    && m.pc == PROGRAM_START && m.I == 0 && m.cycleCount == 0
    && !m.drawFlag && m.running && m.stackPointer == 0
    && (forall c :: 0 <= c < |m.display| ==> m.display[c] == 0)
    && (forall i :: 0 <= i < |m.stack| ==> m.stack[i] == 0)
    && (forall r :: 0 <= r < |m.registers| ==> m.registers[r] == 0)
    && (forall a :: 0 <= a < |m.memory| ==> m.memory[a] == 0)
  }

  /** `memory[a] = v` on a Uint8Array: a write outside the array is dropped. */
  function Store(memory: seq<Byte>, a: int, v: Byte): (r: seq<Byte>)
    ensures |r| == |memory|
    ensures forall b :: 0 <= b < |memory| ==> r[b] == if b == a then v else memory[b]
  {
    if 0 <= a < |memory| then memory[a := v] else memory
  }

  /** A read after a write sees the written byte at the written address, when the write
      landed, and the old byte everywhere else. */
  lemma ReadAfterStore(memory: seq<Byte>, a: int, v: Byte, b: int)
    ensures ReadByte(Store(memory, a, v), b)
         == if b == a && 0 <= a < |memory| then v else ReadByte(memory, b)
  {
  }

  /** Memory after loadROM(rom): the writes of its loop, one byte after another. The
      contract says the image lands at PROGRAM_START, as far as memory reaches, and that no
      other byte changes. */
  function Loaded(memory: seq<Byte>, rom: seq<Byte>): (r: seq<Byte>)
    ensures |r| == |memory|
    ensures forall a :: 0 <= a < |memory| ==>
      r[a] == if PROGRAM_START <= a < PROGRAM_START + |rom| then rom[a - PROGRAM_START] else memory[a]
    decreases |rom|
  {
    if rom == [] then memory
    else Store(Loaded(memory, rom[..|rom| - 1]), PROGRAM_START + |rom| - 1, rom[|rom| - 1])
  }

  class Chip8 {
    const memory: array<Byte>
    var stack: seq<int>
    var stackPointer: int
    var programCounter: int
    const registers: array<int>
    var I: int
    const display: array<int>
    var delayTimer: int
    var running: bool
    var drawFlag: bool
    var cycleCount: int

    ghost predicate Valid() {
      && memory.Length == MEMORY_SIZE
      && registers.Length == REGISTER_COUNT
      && display.Length == DISPLAY_SIZE
      && registers != display
    }

    /** The object's state as a Machine value. */
    ghost function State(): (m: Machine)
      reads this, memory, registers, display
      ensures Valid() ==> WellFormed(m)
    {
      Machine(memory[..], stack, stackPointer, programCounter, registers[..], I,
              display[..], delayTimer, running, drawFlag, cycleCount)
    }

    /** The constructor allocates the arrays. Memory starts zeroed (an ArrayBuffer); the
        registers, display cells and stack slots start as JavaScript holes and I and
        delayTimer as null, so their contents are left unconstrained here. */
    constructor ()
      ensures Valid() && fresh(memory) && fresh(registers) && fresh(display)
      ensures forall a :: 0 <= a < memory.Length ==> memory[a] == 0
      ensures |stack| == STACK_SLOTS
      ensures stackPointer == 0 && programCounter == 0
      ensures !running && !drawFlag && cycleCount == 0
    {
      memory := new Byte[MEMORY_SIZE](_ => 0);
      stack := seq(STACK_SLOTS, _ => 0);
      stackPointer := 0;
      programCounter := 0;
      registers := new int[REGISTER_COUNT];
      display := new int[DISPLAY_SIZE];
      running := false;
      drawFlag := false;
      cycleCount := 0;
    }

    /** reset: fixed values for the scalars, and loops that zero the display, every slot
        the stack currently has, the registers and memory. */
    method Reset()
      requires Valid()
      modifies this, memory, registers, display
      ensures Valid()
      ensures IsReset(State())
      ensures |stack| == old(|stack|) && delayTimer == old(delayTimer)
    {
      programCounter := PROGRAM_START;
      I := 0;
      cycleCount := 0;
      drawFlag := false;
      running := true;

      for i := 0 to display.Length
        modifies display
        invariant forall c :: 0 <= c < i ==> display[c] == 0
      {
        display[i] := 0;
      }

      stackPointer := 0;
      ghost var depth := |stack|;
      for i := 0 to |stack|
        modifies this
        invariant |stack| == depth
        invariant forall j :: 0 <= j < i ==> stack[j] == 0
        invariant programCounter == PROGRAM_START && I == 0 && cycleCount == 0
        invariant !drawFlag && running && stackPointer == 0 && delayTimer == old(delayTimer)
      {
        stack := stack[i := 0];
      }

      for i := 0 to registers.Length
        modifies registers
        invariant forall r :: 0 <= r < i ==> registers[r] == 0
      {
        registers[i] := 0;
      }

      for i := 0 to memory.Length
        modifies memory
        invariant forall a :: 0 <= a < i ==> memory[a] == 0
      {
        memory[i] := 0;
      }
    }

    /** loadROM: copy the image byte by byte to PROGRAM_START. */
    method LoadRom(rom: seq<Byte>)
      requires Valid()
      modifies memory
      ensures Valid()
      ensures memory[..] == Loaded(old(memory[..]), rom)
    {
      for i := 0 to |rom|
        invariant memory[..] == Loaded(old(memory[..]), rom[..i])
      {
        if PROGRAM_START + i < memory.Length {
          memory[PROGRAM_START + i] := rom[i];
        }
        assert rom[..i + 1][..i] == rom[..i];
      }
      assert rom[..|rom|] == rom;
    }

    /** step: one cycle, whether or not the machine is running. */
    method Step()
      requires Valid() && CanCycle(State())
      modifies this, registers, display
      ensures Valid()
      ensures State() == Cycle(old(State()))
    {
      EmulateCycle();
    }

    /** emulateCycle: one fetch, decode and execute, then the draw flag is cleared. */
    method EmulateCycle()
      requires Valid() && CanCycle(State())
      modifies this, registers, display
      ensures Valid()
      ensures State() == Cycle(old(State()))
    {
      cycleCount := cycleCount + 1;
      var highByte: Byte := if 0 <= programCounter < memory.Length then memory[programCounter] else 0;
      var lowByte: Byte := if 0 <= programCounter + 1 < memory.Length then memory[programCounter + 1] else 0;
      var opcode: nat := highByte * 256 + lowByte;
      assert opcode == Fetch(memory[..], programCounter);
      var f := Decode(opcode);
      DecodeBytes(highByte, lowByte);

      ExecuteOpcode(f, lowByte);

      if drawFlag {
        drawFlag := false;
      }
    }

    /** The switch of emulateCycle on the decoded fields. */
    method ExecuteOpcode(f: Fields, lowByte: Byte)
      requires Valid() && f.x < 16 && f.kk == lowByte
      requires f.highNibble == 0 && f.kk == 0xEE ==> |stack| > 0
      modifies this, registers, display
      ensures Valid()
      ensures State() == Execute(old(State()), f)
    {
      match f.highNibble {
        case 0x0 =>
          if lowByte == 0xE0 {
            for i := 0 to display.Length
              modifies display
              invariant forall c :: 0 <= c < i ==> display[c] == 0
            {
              display[i] := 0;
            }
            drawFlag := true;
            assert display[..] == Blank(DISPLAY_SIZE);
          } else if lowByte == 0xEE {
            programCounter := stack[|stack| - 1];
            stack := stack[..|stack| - 1];
          }
          programCounter := programCounter + 2;
        case 0x1 =>
          programCounter := f.nnn;
        case 0x2 =>
          programCounter := programCounter + 2;
          stack := stack + [programCounter];
          programCounter := f.nnn;
        case 0x3 =>
          if registers[f.x] == f.kk {
            programCounter := programCounter + 2;
          }
          programCounter := programCounter + 2;
        case 0x6 =>
          registers[f.x] := f.kk;
          programCounter := programCounter + 2;
        case 0x7 =>
          registers[f.x] := registers[f.x] + f.kk;
          programCounter := programCounter + 2;
        case 0xA =>
          I := f.nnn;
          programCounter := programCounter + 2;
        case 0xD =>
          drawFlag := true;
          programCounter := programCounter + 2;
        case 0xF =>
          registers[f.x] := delayTimer;
          programCounter := programCounter + 2;
        case _ =>
          running := false;
      }
    }
  }
}
