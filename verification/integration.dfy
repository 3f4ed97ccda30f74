/** The assembler and the interpreter side by side: the operand encodings the
    assembler writes are read back by the interpreter, a compiled jump lands
    on its label, a compiled branch lands one byte past its label, and every
    instruction start of compiled code decodes. */
module Integration {
  import opened Base
  import opened Text
  import opened Opcodes
  import opened Compiler
  import opened CompilerFacts
  import opened ProgramFacts
  import opened Processor
  import opened ProcessorFacts

  // ---------------------------------------------------------------------
  // Operand encodings

  /** The assembler's two's complement and the interpreter's signed reading
      undo each other exactly on the offsets a byte can carry. */
  lemma TwosComplementRoundTrip(d: int)
    ensures Signed(ToUint8(ToTwosComplement(d))) == d <==> -0x80 <= d <= 0x7F
  {
    if -0x80 <= d < 0 {
      assert ToTwosComplement(d) == 0x100 + d;
      assert ToUint8(0x100 + d) == 0x100 + d;
    }
  }

  /** The assembler's little-endian split and the interpreter's `_16_bit`
      undo each other on every 16-bit address. */
  lemma LittleEndianRoundTrip(address: int)
    requires 0 <= address < 0x1_0000
    ensures var bytes := LittleEndian(address);
            0 <= bytes[1] < 0x100 && Word16(bytes[0], bytes[1]) == address
  {
  }

  /** And the other way round: splitting a combined word gives back its two
      bytes. */
  lemma Word16RoundTrip(lo: Byte, hi: Byte)
    ensures LittleEndian(Word16(lo, hi)) == [lo, hi]
  {
  }

  // ---------------------------------------------------------------------
  // Running assembled bytes

  /** `code` holds the assembled `bytes`, converted to a `Uint8Array`, from
      address `start` on. */
  predicate HoldsProgram(memory: Memory, start: int, bytes: seq<int>) {
    0 <= start && start + |bytes| <= MemorySize
    && memory[start .. start + |bytes|] == ToUint8s(bytes)
  }

  lemma CellOfProgram(memory: Memory, start: int, bytes: seq<int>, i: int)
    requires HoldsProgram(memory, start, bytes) && 0 <= i < |bytes|
    ensures memory[start + i] == ToUint8(bytes[i])
  {
    assert memory[start .. start + |bytes|][i] == memory[start + i];
  }

  /** A jump instruction emitted for `address` and loaded into memory sends
      the program counter to `address`. */
  lemma JumpRuns(m: Machine, bytes: seq<int>, start: int, at: int, address: int)
    requires 0 <= address < 0x1_0000
    requires EmittedAt(bytes, at, [Value(JumpAbsolute)] + LittleEndian(address))
    requires HoldsProgram(m.memory, start, bytes) && m.pc == start + at
    ensures Step(m).Continued? && Step(m).machine.pc == address
  {
    var want := [Value(JumpAbsolute)] + LittleEndian(address);
    assert bytes[at .. at + 3] == want;
    assert bytes[at] == 0x4C && bytes[at + 1] == address % 0x100 && bytes[at + 2] == address / 0x100 by {
      assert bytes[at .. at + 3][0] == bytes[at];
      assert bytes[at .. at + 3][1] == bytes[at + 1];
      assert bytes[at .. at + 3][2] == bytes[at + 2];
    }
    CellOfProgram(m.memory, start, bytes, at);
    CellOfProgram(m.memory, start, bytes, at + 1);
    CellOfProgram(m.memory, start, bytes, at + 2);
    JumpAbsoluteStep(m);
  }

  /** A branch instruction emitted for the distance from `next` to
      `address`, loaded at `next - 2` and taken, sends the program counter to
      `address + 1` as the interpreter computes the target, and to `address`
      under the corrected rule, provided the distance fits a signed byte. */
  lemma BranchRuns(m: Machine, bytes: seq<int>, start: int, at: int, address: int, next: int)
    requires -0x80 <= address - next <= 0x7F
    requires EmittedAt(bytes, at, [Value(BranchIfEqual), ToTwosComplement(address - next)])
    requires HoldsProgram(m.memory, start, bytes) && m.pc == start + at && next == m.pc + 2
    requires m.status.zero
    ensures Step(m).Continued? && Step(m).machine.pc == address + 1
    ensures CorrectedStep(m).Continued? && CorrectedStep(m).machine.pc == address
  {
    var want := [Value(BranchIfEqual), ToTwosComplement(address - next)];
    assert bytes[at .. at + 2] == want;
    assert bytes[at] == 0xF0 && bytes[at + 1] == ToTwosComplement(address - next) by {
      assert bytes[at .. at + 2][0] == bytes[at];
      assert bytes[at .. at + 2][1] == bytes[at + 1];
    }
    CellOfProgram(m.memory, start, bytes, at);
    CellOfProgram(m.memory, start, bytes, at + 1);
    TwosComplementRoundTrip(address - next);
    assert Signed(m.memory[m.pc + 1]) == address - next;
    BranchIfEqualStep(m);
  }

  /** Compiling `JMP name` and running it from the loaded program sends the
      program counter to the address `name` was declared at. */
  lemma CompiledJumpLandsOnLabel(lines: seq<RawLine>, j: nat, k: nat, start: int, address: int, m: Machine)
    requires j < k < |lines| && Assemble(lines, start).Success?
    requires var ws := Words(lines[k].clean); |ws| >= 2 && ws[0] == "JMP"
    requires LabelOf(lines[j]) == Some(Words(lines[k].clean)[1])
    requires forall i :: j < i < k ==> LabelOf(lines[i]) != Some(Words(lines[k].clean)[1])
    requires Assemble(lines[..j], start).Success?
    requires address == start + |Assemble(lines[..j], start).value.bytes| && 0 <= address < 0x1_0000
    requires Assemble(lines[..k], start).Success?
    requires HoldsProgram(m.memory, start, Assemble(lines, start).value.bytes)
    requires m.pc == start + |Assemble(lines[..k], start).value.bytes|
    ensures Step(m).Continued? && Step(m).machine.pc == address
  {
    JumpEncoding(lines, j, k, start, address);
    JumpRuns(m, Assemble(lines, start).value.bytes, start, |Assemble(lines[..k], start).value.bytes|, address);
  }

  /** The branch off-by-one, as written: compiling `BEQ name` and taking the
      branch from the loaded program leaves the program counter one byte
      past the address `name` was declared at. */
  lemma CompiledBranchLandsPastLabel(lines: seq<RawLine>, j: nat, k: nat, start: int, address: int, next: int, m: Machine)
    requires j < k < |lines| && Assemble(lines, start).Success?
    requires var ws := Words(lines[k].clean); |ws| >= 2 && ws[0] == "BEQ"
    requires LabelOf(lines[j]) == Some(Words(lines[k].clean)[1])
    requires forall i :: j < i < k ==> LabelOf(lines[i]) != Some(Words(lines[k].clean)[1])
    requires Assemble(lines[..j], start).Success? && Assemble(lines[..k], start).Success?
    requires address == start + |Assemble(lines[..j], start).value.bytes|
    requires next == start + |Assemble(lines[..k], start).value.bytes| + 2
    requires -0x80 <= address - next <= 0x7F
    requires HoldsProgram(m.memory, start, Assemble(lines, start).value.bytes)
    requires m.pc == start + |Assemble(lines[..k], start).value.bytes| && m.status.zero
    ensures Step(m).Continued? && Step(m).machine.pc == address + 1
  {
    BranchEncoding(lines, j, k, start, address, next);
    BranchRuns(m, Assemble(lines, start).value.bytes, start, |Assemble(lines[..k], start).value.bytes|, address, next);
  }

  /** With the branch target taken from the address after the instruction,
      the same compiled branch lands on the label. */
  lemma CompiledBranchLandsOnLabel(lines: seq<RawLine>, j: nat, k: nat, start: int, address: int, next: int, m: Machine)
    requires j < k < |lines| && Assemble(lines, start).Success?
    requires var ws := Words(lines[k].clean); |ws| >= 2 && ws[0] == "BEQ"
    requires LabelOf(lines[j]) == Some(Words(lines[k].clean)[1])
    requires forall i :: j < i < k ==> LabelOf(lines[i]) != Some(Words(lines[k].clean)[1])
    requires Assemble(lines[..j], start).Success? && Assemble(lines[..k], start).Success?
    requires address == start + |Assemble(lines[..j], start).value.bytes|
    requires next == start + |Assemble(lines[..k], start).value.bytes| + 2
    requires -0x80 <= address - next <= 0x7F
    requires HoldsProgram(m.memory, start, Assemble(lines, start).value.bytes)
    requires m.pc == start + |Assemble(lines[..k], start).value.bytes| && m.status.zero
    ensures CorrectedStep(m).Continued? && CorrectedStep(m).machine.pc == address
  {
    BranchEncoding(lines, j, k, start, address, next);
    BranchRuns(m, Assemble(lines, start).value.bytes, start, |Assemble(lines[..k], start).value.bytes|, address, next);
  }

  /** A label more than 128 bytes behind the branch, or more than 127 ahead
      of the address after it, cannot be reached: no rule that reads the
      operand as a signed byte gets the distance back. */
  lemma BranchOutOfReach(address: int, next: int)
    requires !(-0x80 <= address - next <= 0x7F)
    ensures next + Signed(ToUint8(ToTwosComplement(address - next))) != address
  {
    TwosComplementRoundTrip(address - next);
  }

  /** The smallest case: `start:` then `BEQ start`, loaded at 0x0600 and
      stepped with Z set. The label is 0x0600, the branch byte is 0xFE (-2), and the
      interpreter lands on 0x0601. */
  lemma SelfLoopLandsOneByteLate(m: Machine)
    requires m.pc == 0x0600 && m.memory[0x0600] == 0xF0 && m.memory[0x0601] == 0xFE
    requires m.status.zero
    ensures ToTwosComplement(0x0600 - (0x0600 + 2)) == 0xFE
    ensures Step(m).Continued? && Step(m).machine.pc == 0x0601
    ensures CorrectedStep(m).Continued? && CorrectedStep(m).machine.pc == 0x0600
  {
    BranchIfEqualStep(m);
  }

  // ---------------------------------------------------------------------
  // Decoding compiled code

  /** At every instruction start of a framed, loaded stream the interpreter
      finds an opcode it knows: it halts there exactly on the zero byte and
      never throws. */
  lemma FramedCodeDecodes(code: seq<Byte>, start: int, i: int, m: Machine)
    requires Framed(code) && InstructionStart(code, i)
    requires 0 <= start && start + |code| <= MemorySize && m.memory[start .. start + |code|] == code
    requires m.pc == start + i
    ensures !Step(m).UnknownOpcode? && !Step(m).FetchOutOfRange?
    ensures Step(m).Halted? <==> code[i] == 0x00
  {
    StartsAreOpcodes(code, i);
    assert m.memory[start .. start + |code|][i] == m.memory[m.pc];
    var op := FromByte(code[i]).value;
    assert m.memory[m.pc] == Value(op);
    assert m.pc + Length(op) <= MemorySize;
    HaltsExactlyOnBreak(m);
    StepIs(m, op, AsWritten);
  }

  /** The same for what `compile` returns. */
  lemma CompiledCodeDecodes(source: string, start: int, code: seq<Byte>, i: int, m: Machine)
    requires Compile(source, start) == Success(code)
    requires 0 <= start && start + |code| <= MemorySize && m.memory[start .. start + |code|] == code
    requires InstructionStart(code, i) && m.pc == start + i
    ensures !Step(m).UnknownOpcode? && !Step(m).FetchOutOfRange?
    ensures Step(m).Halted? <==> code[i] == 0x00
  {
    CompileFramed(source, start, i);
    FramedCodeDecodes(code, start, i, m);
  }
}
