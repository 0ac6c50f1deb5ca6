# CHIP-8 interpreter core and disassembler, modelled in Dafny

This project models two pieces of a small JavaScript CHIP-8 project and proves properties of them.

- **The partial interpreter `Chip8` of js/cpu.js.**
  - `class Chip8` (module `Cpu`, cpu.dfy) holds the object's fields:
    - a 4095-byte `memory` array;
    - the `stack`, a JavaScript array used with `push`/`pop`;
    - the 16 `registers` and the 2048 `display` cells, both arrays;
    - `I`, `programCounter`, `stackPointer`, `delayTimer`, `running`, `drawFlag` and `cycleCount`.
  - Its methods `Reset`, `LoadRom`, `Step` and `EmulateCycle` update those fields in place.
  - The same state as a value is the datatype `Machine`. One `emulateCycle` is the function `Cycle` on that value.
  - `EmulateCycle` and `Step` are proved to leave the object in exactly the state `Cycle` gives. `LoadRom` is proved to leave memory as `Loaded` gives.
  - Module `CpuProperties` (cpu_properties.dfy) proves what each implemented opcode class does, in terms of the two bytes at the program counter.
- **The disassembler of disassemble.js** (module `Disassemble`, disassemble.dfy):
  - `createHexArrayFromBuffer` and `createInstructionsArray` are methods with loops, proved against the functions `HexArray` and `Paired`;
  - `decodeRom` is a function from a byte buffer and an offset to an optional line of text (`None` is the TypeError the source throws when it reads past the end of the buffer).
- **Shared JavaScript built-ins** (module `JsRuntime`, js_runtime.dfy):
  - Uint8Array elements (`Byte`);
  - `Number.prototype.toString(16)` (`ToHex`);
  - `String.prototype.toUpperCase` (`Upper`).
  - A hexadecimal parser, `HexValue`, is the reference these are proved against.
- **Module `DecodeAgreement`** (decode_agreement.dfy) checks the disassembler's operands against the interpreter's `Decode`.

## Behaviour kept as the code has it

These points differ from a textbook CHIP-8, or from the project's own description of one. The model follows the code.

- Memory is `new ArrayBuffer(0xfff)`: 4095 bytes, not 4096.
- A fetch past the end of memory reads `undefined`, which `<<` and `|` turn into 0. `ReadByte` gives 0 there.
- 7xkk adds without wrapping modulo 256, so a register can exceed 255 (`AddByteLeavesByteRange`).
- CALL pushes the address after the call and RET adds 2 to the popped address. A call followed by a return therefore lands 4 bytes after the call, not 2 (`CallThenReturn`).
- `reset` of a freshly constructed object leaves 16 zeros on the stack, so a RET without a CALL pops 0 and jumps to 2.
- Class 0 tests only the low byte: 0yE0 clears the screen and 0yEE returns, for any nibble y. The disassembler does the same.
- Dxyn draws nothing. It raises `drawFlag` and advances pc, and the flag is cleared before the cycle ends.
- Every Fxkk loads the delay timer into Vx.
- Classes 4, 5, 8, 9, B, C and E set `running` to false and change nothing else except `cycleCount`, which every cycle increments.
- `step` runs a cycle whether or not `running` is set (`RunningNotConsulted`).
- `reset` zeroes as many stack slots as the stack has at that moment. It does not restore the stack's length to 16.
- `loadROM` silently drops the bytes that fall past the end of memory; it reports no error.
- The disassembler prints the address operand of JP, CALL, LD I and JP V0 as byte2's high nibble followed by byte2. It is wrong whenever byte1's low nibble differs from byte2's high nibble (`AddressOperandAgreesIff`, `JumpOperandExample`).

## Model

| member | source | states |
|---|---|---|
| `Cpu.ReadByte` | js/cpu.js:88 | a Uint8Array read: the stored byte inside memory, and 0 outside it, which is what `<<` and `\|` make of `undefined` |
| `Cpu.ReadAfterStore` | js/cpu.js:58 | a read after a write sees the written byte at that address if the write landed, and the old byte everywhere else |
| `Cpu.Fetch` | js/cpu.js:88 | the opcode is the big-endian word of the bytes at pc and pc + 1 (0 where memory ends), below 0x10000 |
| `Cpu.Decode` | js/cpu.js:94-99 | the class, x, y and n are the opcode's four nibbles; kk and nnn are made of its low two and three nibbles |
| `Cpu.DecodeBytes` | js/cpu.js:88-99 | for a fetched word: class and x are the nibbles of the byte at pc, kk is the byte at pc + 1, nnn joins x and kk |
| `Cpu.Execute` | js/cpu.js:108-208 | the class switch keeps the array lengths, memory, delay timer, stackPointer and cycle count; it raises drawFlag exactly for CLS and DRW; it clears running exactly for the unimplemented classes, which change nothing else |
| `Cpu.Cycle` | js/cpu.js:84-217 | one cycle adds exactly 1 to cycleCount, always leaves drawFlag false, changes no memory byte, and leaves running false for the unimplemented classes |
| `Cpu.Store` | js/cpu.js:58 | a Uint8Array write changes the addressed byte only, and nothing when the address is outside the array |
| `Cpu.Loaded` | js/cpu.js:55-60 | after loading, memory at 0x200 + i holds rom[i] for every i that fits; every other byte is unchanged |
| `Cpu.Chip8.constructor` | js/cpu.js:3-22 | memory is 4095 zero bytes, 16 registers, 2048 display cells, a 16-slot stack, pc 0, not running, cycleCount 0 |
| `Cpu.Chip8.Reset` | js/cpu.js:25-53 | pc 0x200, I 0, cycleCount 0, drawFlag false, running, stackPointer 0; every display cell, stack slot, register and memory byte is 0; the stack keeps its length |
| `Cpu.Chip8.LoadRom` | js/cpu.js:55-60 | memory becomes `Loaded` of the old memory and the image |
| `Cpu.Chip8.EmulateCycle` | js/cpu.js:84-217 | the object's new state is `Cycle` of its old state |
| `Cpu.Chip8.ExecuteOpcode` | js/cpu.js:108-208 | the switch on the class performs `Execute` on the object's state |
| `Cpu.Chip8.Step` | js/cpu.js:80-82 | one cycle, with no precondition on running |
| `CpuProperties.ClearScreen` | js/cpu.js:110-127 | 00E0 zeroes every display cell and advances pc by 2; registers, I, stack and running are unchanged |
| `CpuProperties.ReturnFromSubroutine` | js/cpu.js:117-127 | 00EE sets pc to the popped value plus 2 and removes the top of the stack |
| `CpuProperties.SystemCallIgnored` | js/cpu.js:120-127 | any other 0nnn only advances pc by 2 |
| `CpuProperties.Jump` | js/cpu.js:128-133 | 1nnn sets pc to nnn exactly and changes nothing else |
| `CpuProperties.Call` | js/cpu.js:134-142 | 2nnn at p pushes p + 2 and sets pc to nnn |
| `CpuProperties.CallThenReturn` | js/cpu.js:117-142 | a call at p followed by a 00EE comes back to p + 4 with the stack as it was before the call |
| `CpuProperties.SkipIfEqual` | js/cpu.js:143-152 | 3xkk advances pc by 4 if Vx equals kk and by 2 otherwise; registers and I are unchanged |
| `CpuProperties.LoadByte` | js/cpu.js:153-160 | 6xkk sets Vx to kk and advances pc by 2; no other register changes |
| `CpuProperties.AddByte` | js/cpu.js:161-167 | 7xkk sets Vx to Vx + kk without wrapping and advances pc by 2; no other register changes |
| `CpuProperties.AddByteLeavesByteRange` | js/cpu.js:165 | 0xFF + 0xFF leaves 0x1FE in the register |
| `CpuProperties.LoadIndex` | js/cpu.js:168-175 | Annn sets I to nnn and advances pc by 2; registers are unchanged |
| `CpuProperties.DrawIsStub` | js/cpu.js:176-193 | Dxyn only advances pc by 2: display, registers and I are unchanged |
| `CpuProperties.LoadDelayTimer` | js/cpu.js:194-200 | every Fxkk sets Vx to the delay timer and advances pc by 2 |
| `CpuProperties.UnimplementedClassHalts` | js/cpu.js:201-208 | classes 4, 5, 8, 9, B, C, E set running to false and leave pc, registers, I, stack and display unchanged |
| `CpuProperties.RunningNotConsulted` | js/cpu.js:80-85 | a cycle from a stopped machine does exactly what it does from a running one |
| `CpuProperties.LoadThenAdd` | js/cpu.js:153-167 | 60 0A then 70 05 leaves V0 = 15 and pc advanced by 4 |
| `CpuProperties.FirstFetchReadsImage` | js/cpu.js:55-60 | after reset and loading, the first word fetched is the image's first two bytes |
| `CpuProperties.ResetMachineSkipsZeroWord` | js/cpu.js:25-53 | a reset machine with empty memory treats the word 0000 as an ignored SYS: pc 0x202, still running |
| `JsRuntime.ToHex` | disassemble.js:38 | toString(16) gives lower-case hex digits without a leading zero whose value is the number; one digit exactly below 16, at most two below 256 |
| `JsRuntime.Upper` | disassemble.js:313 | toUpperCase keeps the length and maps each character to its upper case, so no lower-case letter remains |
| `Disassemble.Pad` | disassemble.js:67-70 | a lone digit gets a leading "0": two characters, the same value and the same letter case; longer text is unchanged |
| `Disassemble.PaddedHex` | disassemble.js:67-70 | a byte's toString(16), zero-padded: two lower-case hex digits whose value is the byte |
| `Disassemble.ByteHex` | disassemble.js:38-39 | one entry of the hex array: exactly two upper-case hex digits whose value is the byte |
| `Disassemble.HexArray` | disassemble.js:32-44 | one entry per byte, entry i being the two-digit upper-case hex of byte i |
| `Disassemble.CreateHexArrayFromBuffer` | disassemble.js:32-44 | the loop returns `HexArray` of the buffer |
| `Disassemble.Paired` | disassemble.js:46-60 | ceil(n/2) entries; entry k joins entries 2k and 2k + 1, or is entry 2k alone at an odd end |
| `Disassemble.CreateInstructionsArray` | disassemble.js:46-60 | the loop returns `Paired` of its input |
| `Disassemble.InstructionWord` | disassemble.js:32-60 | pairing the hex array of a buffer gives four upper-case hex digits per word, whose value is byte 2k * 256 + byte 2k + 1 |
| `Disassemble.RegisterX` | disassemble.js:82 | one lower-case hex digit whose value is byte1's low nibble |
| `Disassemble.RegisterY` | disassemble.js:83 | one lower-case hex digit whose value is byte2's high nibble |
| `Disassemble.LowNibble` | disassemble.js:84 | one lower-case hex digit whose value is byte2's low nibble |
| `Disassemble.AddressOperand` | disassemble.js:81 | the printed address is three hex digits whose value is (byte2 >> 4) * 256 + byte2 |
| `Disassemble.ClassEightMnemonic` | disassemble.js:154-206 | the class-8 text, chosen by byte2's low nibble, holds no newline |
| `Disassemble.ClassFMnemonic` | disassemble.js:256-307 | the class-F text, chosen by byte2, holds no newline |
| `Disassemble.Mnemonic` | disassemble.js:93-312 | the mnemonic text holds no newline, so every decoded instruction is exactly two lines |
| `Disassemble.AddressAndHexInfo` | disassemble.js:77-78 | the address-and-hex text is the address's digits plus eight characters, ends in its only newline, and holds no lower-case letter |
| `Disassemble.DecodeRom` | disassemble.js:63-314 | a line exists exactly when both bytes are inside the buffer, and it has no lower-case letter |
| `Disassemble.DecodeRomLayout` | disassemble.js:67-78 | the line is the upper-case hex of 0x200 + pc, ": $", the two bytes as two digits each, a newline, and the upper-cased mnemonic |
| `Disassemble.AddressAndHexInfoLayout` | disassemble.js:77-78 | the address-and-hex prefix equals that text with both bytes in upper-case hex |
| `Disassemble.ClassZeroByLowByte` | disassemble.js:94-110 | class 0 ignores byte1's low nibble: CLS exactly for E0, RET exactly for EE, otherwise the "not handled" text |
| `Disassemble.AddressOperandIgnoresByte1` | disassemble.js:112-224 | JP, CALL, LD I and JP V0 print the same text whatever byte1's low nibble is |
| `Disassemble.ClassEightDispatch` | disassemble.js:154-206 | class 8 prints "not handled" exactly when byte2's low nibble is outside 0-7 and E |
| `Disassemble.ClassEDispatch` | disassemble.js:238-254 | class E prints "not handled" exactly when byte2 is neither 9E nor A1 |
| `Disassemble.ClassFDispatch` | disassemble.js:256-307 | class F prints "not handled" exactly when byte2 is none of the nine listed values |
| `Disassemble.NeverUnrecognized` | disassemble.js:93-311 | no pair of bytes reaches the "unrecongized opcode" default |
| `DecodeAgreement.OperandFieldsAgree` | disassemble.js:72-84 | the class switched on and the printed Vx, Vy, nibble and byte are the interpreter's highNibble, x, y, n and kk |
| `DecodeAgreement.AddressOperandAgreesIff` | disassemble.js:81 | the printed address equals the interpreter's nnn exactly when byte1's low nibble equals byte2's high nibble |
| `DecodeAgreement.JumpOperandExample` | disassemble.js:112-116 | the word 1234 prints as JP #$334 while the interpreter jumps to 234 |

## Left out

- index.js is not part of this model. It holds the DOM, `fetch`, the game menu and calls to `cpu.init` and `cpu.setRenderer`, which js/cpu.js does not define.
- js/renderer.js is not part of this model: it only fills canvas rectangles.
- disassemble.js:1-30 is left out: a network fetch, a DOM write, and the loop that calls `decodeRom` every two bytes.
- `Chip8.run` is left out: it schedules cycles with `requestAnimationFrame`.
- `printMemory`, `printStack` and every `console.log` are left out: they are diagnostics with no effect on state.
- `soundTimer`, `displayWidth` and `displayHeight` are left out as fields: the first is never used, and the other two are the constants `DISPLAY_WIDTH` and `DISPLAY_HEIGHT`.
- `Cpu.Chip8.constructor`: the registers, display cells and stack slots start as JavaScript holes, and `I` and `delayTimer` as `null`. The model leaves their contents unconstrained, so it says nothing about cycles run before `reset`.
- `Cpu.Cycle`, `Cpu.Chip8.EmulateCycle` and `Cpu.Chip8.Step`: a 00EE on an empty stack is excluded by the precondition `CanCycle`. In the source `pop` gives `undefined` and pc becomes NaN, which integers cannot express.
- `delayTimer` is `null` in the source and is never set. The model treats it as an integer that Fxkk copies. A register loaded from it therefore compares like that integer, whereas `null === kk` is always false.
- `JsRuntime.Upper` models `toUpperCase` on ASCII letters only. Every string the disassembler builds is ASCII.
- Timers that count down, sound, random numbers, keys, font sprites, sprite drawing and stack-overflow errors are not modelled, because js/cpu.js has none of them.
