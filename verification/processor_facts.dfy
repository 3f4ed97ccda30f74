/** What one `advance()` does, stated instruction by instruction against the
    machine before the step, and the register discipline every instruction
    keeps. */
module ProcessorFacts {
  import opened Base
  import opened Opcodes
  import opened Processor

  /** The register an instruction writes through `Register.set`, if any. */
  function Writes(op: Opcode): Option<Register> {
    match op
    case AddWithCarryImmediate | TransferYToAccumulator
      | LoadAccumulatorZeroPage | LoadAccumulatorImmediate => Some(Accumulator)
    case DecrementY | LoadYImmediate | TransferAccumulatorToY | IncrementY => Some(Y)
    case _ => None
  }

  /** Instructions that write a memory cell. */
  predicate WritesMemory(op: Opcode) {
    op in {StoreAccumulatorZeroPage, StoreAccumulatorAbsolute,
           StoreAccumulatorIndirectYIndexed, StoreAccumulatorAbsoluteYIndexed,
           IncrementZeroPage}
  }

  /** Instructions that set the program counter other than by fetching. */
  predicate Jumps(op: Opcode) {
    op == JumpAbsolute || op == BranchIfEqual
  }

  /** The instruction at the program counter, read through the shared table. */
  function OpcodeAt(m: Machine): Option<Opcode>
    requires 0 <= m.pc < MemorySize
  {
    FromByte(m.memory[m.pc])
  }

  lemma DecodeAt(m: Machine)
    requires 0 <= m.pc < MemorySize
    ensures Decode(m.memory[m.pc]) == OpcodeAt(m)
  {
    DecodeMatchesTable(m.memory[m.pc]);
  }

  /** Decoding a table byte hands the rest of the step to `Execute`. */
  lemma StepIs(m: Machine, op: Opcode, rule: BranchRule)
    requires 0 <= m.pc && m.pc + Length(op) <= MemorySize
    requires m.memory[m.pc] == Value(op)
    ensures StepWith(m, rule) == Execute(op, m.(pc := m.pc + 1), rule)
  {
    TablesAgree(op);
  }

  /** `advance()` returns false exactly on the zero byte, after moving the
      program counter by one and changing nothing else. */
  lemma HaltsExactlyOnBreak(m: Machine)
    requires 0 <= m.pc < MemorySize
    ensures Step(m).Halted? <==> m.memory[m.pc] == 0x00
    ensures Step(m).Halted? ==> Step(m).machine == m.(pc := m.pc + 1)
  {
    DecodeAt(m);
    if m.memory[m.pc] == 0x00 {
      FromByteValue(Break);
    }
  }

  /** `advance()` throws exactly on a byte outside the table, and the error
      carries that byte. */
  lemma UnknownExactlyOffTable(m: Machine)
    requires 0 <= m.pc < MemorySize
    ensures Step(m).UnknownOpcode? <==> forall op :: Value(op) != m.memory[m.pc]
    ensures Step(m).UnknownOpcode? ==> Step(m).opcode == m.memory[m.pc]
  {
    DecodeAt(m);
    FromByteNone(m.memory[m.pc]);
  }

  /** On any other table byte whose operands lie inside memory, `advance()`
      returns true. */
  lemma ContinuesOnOtherOpcodes(m: Machine, op: Opcode)
    requires 0 <= m.pc && m.pc + Length(op) <= MemorySize
    requires m.memory[m.pc] == Value(op) && op != Break
    ensures Step(m).Continued?
  {
    StepIs(m, op, AsWritten);
  }

  /** What `Execute` does to the program counter, case by case. */
  lemma ExecuteAdvances(op: Opcode, m: Machine)
    requires 0 <= m.pc && m.pc + Length(op) - 1 <= MemorySize
    requires !Jumps(op) && op != Break
    ensures Execute(op, m, AsWritten).machine.pc == m.pc + Length(op) - 1
  {
    match op
    case ClearCarry =>
    case JumpAbsolute =>
    case AddWithCarryImmediate =>
    case StoreAccumulatorZeroPage =>
    case DecrementY =>
    case StoreAccumulatorAbsolute =>
    case StoreAccumulatorIndirectYIndexed =>
    case TransferYToAccumulator =>
    case StoreAccumulatorAbsoluteYIndexed =>
    case LoadYImmediate =>
    case LoadAccumulatorZeroPage =>
    case TransferAccumulatorToY =>
    case LoadAccumulatorImmediate =>
    case IncrementY =>
    case CompareImmediate =>
    case IncrementZeroPage =>
    case BranchIfEqual =>
  }

  /** An instruction that does not jump leaves the program counter just past
      its operand bytes. */
  lemma AdvancesByLength(m: Machine, op: Opcode)
    requires 0 <= m.pc && m.pc + Length(op) <= MemorySize
    requires m.memory[m.pc] == Value(op) && !Jumps(op) && op != Break
    ensures Step(m).Continued? && Step(m).machine.pc == m.pc + Length(op)
  {
    StepIs(m, op, AsWritten);
    ExecuteAdvances(op, m.(pc := m.pc + 1));
  }

  /** What `Execute` does to the registers, case by case. */
  lemma ExecuteRegisters(op: Opcode, m: Machine)
    requires 0 <= m.pc && m.pc + Length(op) - 1 <= MemorySize && op != Break
    ensures var m' := Execute(op, m, AsWritten).machine;
            && (forall r :: Writes(op) != Some(r) ==> Get(m', r) == Get(m, r))
            && (Writes(op).Some? ==> FlagsReflect(m'.status, Get(m', Writes(op).value)))
  {
    match op
    case ClearCarry =>
    case JumpAbsolute =>
    case AddWithCarryImmediate =>
    case StoreAccumulatorZeroPage =>
    case DecrementY =>
    case StoreAccumulatorAbsolute =>
    case StoreAccumulatorIndirectYIndexed =>
    case TransferYToAccumulator =>
    case StoreAccumulatorAbsoluteYIndexed =>
    case LoadYImmediate =>
    case LoadAccumulatorZeroPage =>
    case TransferAccumulatorToY =>
    case LoadAccumulatorImmediate =>
    case IncrementY =>
    case CompareImmediate =>
    case IncrementZeroPage =>
    case BranchIfEqual =>
  }

  /** Every register change goes through `Register.set`: the one register an
      instruction writes is the only one that can differ afterwards, the N and
      Z flags then describe its new value, and X is never written. */
  lemma RegisterDiscipline(m: Machine, op: Opcode)
    requires 0 <= m.pc && m.pc + Length(op) <= MemorySize
    requires m.memory[m.pc] == Value(op) && op != Break
    ensures Step(m).Continued?
    ensures forall r :: Writes(op) != Some(r) ==> Get(Step(m).machine, r) == Get(m, r)
    ensures Writes(op).Some? ==>
              FlagsReflect(Step(m).machine.status, Get(Step(m).machine, Writes(op).value))
    ensures Step(m).machine.x == m.x
  {
    StepIs(m, op, AsWritten);
    ExecuteRegisters(op, m.(pc := m.pc + 1));
    assert Writes(op) != Some(X);
  }

  /** What `Execute` does to the flags, case by case. */
  lemma ExecuteFlags(op: Opcode, m: Machine)
    requires 0 <= m.pc && m.pc + Length(op) - 1 <= MemorySize && op != Break
    ensures var m' := Execute(op, m, AsWritten).machine;
            && (op != ClearCarry && op != AddWithCarryImmediate ==> m'.status.carry == m.status.carry)
            && (Writes(op).None? ==> m'.status.negative == m.status.negative)
            && (Writes(op).None? && op != CompareImmediate ==> m'.status.zero == m.status.zero)
  {
    match op
    case ClearCarry =>
    case JumpAbsolute =>
    case AddWithCarryImmediate =>
    case StoreAccumulatorZeroPage =>
    case DecrementY =>
    case StoreAccumulatorAbsolute =>
    case StoreAccumulatorIndirectYIndexed =>
    case TransferYToAccumulator =>
    case StoreAccumulatorAbsoluteYIndexed =>
    case LoadYImmediate =>
    case LoadAccumulatorZeroPage =>
    case TransferAccumulatorToY =>
    case LoadAccumulatorImmediate =>
    case IncrementY =>
    case CompareImmediate =>
    case IncrementZeroPage =>
    case BranchIfEqual =>
  }

  /** Flags change only where the source changes them: C only on CLC and ADC;
      N only on register writes; Z only on register writes and CMP. */
  lemma FlagDiscipline(m: Machine, op: Opcode)
    requires 0 <= m.pc && m.pc + Length(op) <= MemorySize
    requires m.memory[m.pc] == Value(op) && op != Break
    ensures Step(m).Continued?
    ensures op != ClearCarry && op != AddWithCarryImmediate ==>
              Step(m).machine.status.carry == m.status.carry
    ensures Writes(op).None? ==> Step(m).machine.status.negative == m.status.negative
    ensures Writes(op).None? && op != CompareImmediate ==>
              Step(m).machine.status.zero == m.status.zero
  {
    StepIs(m, op, AsWritten);
    ExecuteFlags(op, m.(pc := m.pc + 1));
  }

  /** What `Execute` does to memory, case by case. */
  lemma ExecuteMemory(op: Opcode, m: Machine)
    requires 0 <= m.pc && m.pc + Length(op) - 1 <= MemorySize
    requires op != Break && !WritesMemory(op)
    ensures Execute(op, m, AsWritten).machine.memory == m.memory
  {
    match op
    case ClearCarry =>
    case JumpAbsolute =>
    case AddWithCarryImmediate =>
    case StoreAccumulatorZeroPage =>
    case DecrementY =>
    case StoreAccumulatorAbsolute =>
    case StoreAccumulatorIndirectYIndexed =>
    case TransferYToAccumulator =>
    case StoreAccumulatorAbsoluteYIndexed =>
    case LoadYImmediate =>
    case LoadAccumulatorZeroPage =>
    case TransferAccumulatorToY =>
    case LoadAccumulatorImmediate =>
    case IncrementY =>
    case CompareImmediate =>
    case IncrementZeroPage =>
    case BranchIfEqual =>
  }

  /** Only the store and memory-increment instructions change memory. */
  lemma MemoryDiscipline(m: Machine, op: Opcode)
    requires 0 <= m.pc && m.pc + Length(op) <= MemorySize
    requires m.memory[m.pc] == Value(op) && op != Break && !WritesMemory(op)
    ensures Step(m).Continued? && Step(m).machine.memory == m.memory
  {
    StepIs(m, op, AsWritten);
    ExecuteMemory(op, m.(pc := m.pc + 1));
  }

  /** ADC immediate: the accumulator receives the sum of accumulator, operand
      and carry modulo 256, the carry records whether the sum exceeded 255,
      and together they reconstruct the full sum. */
  lemma AddWithCarryStep(m: Machine)
    requires 0 <= m.pc && m.pc + 2 <= MemorySize
    requires m.memory[m.pc] == 0x69
    ensures Step(m).Continued?
    ensures var m' := Step(m).machine;
            var sum := m.a as int + m.memory[m.pc + 1] + (if m.status.carry then 1 else 0);
            && m'.a == sum % 0x100
            && (m'.status.carry <==> sum > 0xFF)
            && (if m'.status.carry then 0x100 else 0) + m'.a == sum
            && (m'.status.zero <==> m'.a == 0)
            && (m'.status.negative <==> m'.a > 0x7F)
            && m'.memory == m.memory && m'.pc == m.pc + 2
  {
    StepIs(m, AddWithCarryImmediate, AsWritten);
  }

  /** STA zero page: one cell, addressed by the operand byte, receives A. */
  lemma StoreZeroPageStep(m: Machine)
    requires 0 <= m.pc && m.pc + 2 <= MemorySize
    requires m.memory[m.pc] == 0x85
    ensures Step(m).Continued?
    ensures Step(m).machine ==
            m.(memory := m.memory[m.memory[m.pc + 1] := m.a], pc := m.pc + 2)
  {
    StepIs(m, StoreAccumulatorZeroPage, AsWritten);
  }

  /** STA absolute: the two operand bytes are the low and then the high byte
      of the address that receives A; nothing else changes. */
  lemma StoreAbsoluteStep(m: Machine)
    requires 0 <= m.pc && m.pc + 3 <= MemorySize
    requires m.memory[m.pc] == 0x8D
    ensures Step(m).Continued?
    ensures var address := m.memory[m.pc + 1] as int + m.memory[m.pc + 2] as int * 0x100;
            Step(m).machine == m.(memory := m.memory[address := m.a], pc := m.pc + 3)
  {
    StepIs(m, StoreAccumulatorAbsolute, AsWritten);
  }

  /** STA absolute,Y: Y is added to the absolute address without wrapping;
      an address past the end of memory leaves memory untouched. */
  lemma StoreAbsoluteYIndexedStep(m: Machine)
    requires 0 <= m.pc && m.pc + 3 <= MemorySize
    requires m.memory[m.pc] == 0x99
    ensures Step(m).Continued?
    ensures var address := m.memory[m.pc + 1] as int + m.memory[m.pc + 2] as int * 0x100 + m.y;
            Step(m).machine ==
            if address < MemorySize then m.(memory := m.memory[address := m.a], pc := m.pc + 3)
            else m.(pc := m.pc + 3)
  {
    StepIs(m, StoreAccumulatorAbsoluteYIndexed, AsWritten);
  }

  /** STA (z),Y: the pointer is read from zero-page cells z and z+1 (z+1 is
      not wrapped back into the zero page) and Y is added to it. */
  lemma StoreIndirectYIndexedStep(m: Machine)
    requires 0 <= m.pc && m.pc + 2 <= MemorySize
    requires m.memory[m.pc] == 0x91
    ensures Step(m).Continued?
    ensures var z := m.memory[m.pc + 1];
            var address := m.memory[z] as int + m.memory[z + 1] as int * 0x100 + m.y;
            Step(m).machine ==
            if address < MemorySize then m.(memory := m.memory[address := m.a], pc := m.pc + 2)
            else m.(pc := m.pc + 2)
  {
    StepIs(m, StoreAccumulatorIndirectYIndexed, AsWritten);
  }

  /** INC zero page: the cell wraps from 255 to 0 and no flag moves. */
  lemma IncrementZeroPageStep(m: Machine)
    requires 0 <= m.pc && m.pc + 2 <= MemorySize
    requires m.memory[m.pc] == 0xE6
    ensures Step(m).Continued?
    ensures var z := m.memory[m.pc + 1];
            Step(m).machine ==
            m.(memory := m.memory[z := (m.memory[z] as int + 1) % 0x100], pc := m.pc + 2)
  {
    StepIs(m, IncrementZeroPage, AsWritten);
  }

  /** CMP immediate: only Z changes, to whether A equals the operand. */
  lemma CompareImmediateStep(m: Machine)
    requires 0 <= m.pc && m.pc + 2 <= MemorySize
    requires m.memory[m.pc] == 0xC9
    ensures Step(m).Continued?
    ensures Step(m).machine ==
            m.(status := m.status.(zero := m.a == m.memory[m.pc + 1]), pc := m.pc + 2)
  {
    StepIs(m, CompareImmediate, AsWritten);
  }

  /** LDA immediate and LDY immediate load the operand byte; LDA zero page
      loads the addressed cell; each sets N and Z from the loaded value. */
  lemma LoadSteps(m: Machine)
    requires 0 <= m.pc && m.pc + 2 <= MemorySize
    ensures m.memory[m.pc] == 0xA9 ==>
              Step(m).Continued? &&
              Step(m).machine == Set(m.(pc := m.pc + 2), Accumulator, m.memory[m.pc + 1])
    ensures m.memory[m.pc] == 0xA0 ==>
              Step(m).Continued? &&
              Step(m).machine == Set(m.(pc := m.pc + 2), Y, m.memory[m.pc + 1])
    ensures m.memory[m.pc] == 0xA5 ==>
              Step(m).Continued? &&
              Step(m).machine ==
              Set(m.(pc := m.pc + 2), Accumulator, m.memory[m.memory[m.pc + 1]])
  {
    if m.memory[m.pc] == 0xA9 {
      LoadStep(m, LoadAccumulatorImmediate);
    } else if m.memory[m.pc] == 0xA0 {
      LoadStep(m, LoadYImmediate);
    } else if m.memory[m.pc] == 0xA5 {
      LoadStep(m, LoadAccumulatorZeroPage);
    }
  }

  /** One load instruction, stepped through `Execute`. */
  lemma LoadStep(m: Machine, op: Opcode)
    requires op == LoadAccumulatorImmediate || op == LoadYImmediate || op == LoadAccumulatorZeroPage
    requires 0 <= m.pc && m.pc + 2 <= MemorySize && m.memory[m.pc] == Value(op)
    ensures Step(m).Continued?
    ensures var operand := m.memory[m.pc + 1];
            Step(m).machine == match op
              case LoadYImmediate => Set(m.(pc := m.pc + 2), Y, operand)
              case LoadAccumulatorZeroPage => Set(m.(pc := m.pc + 2), Accumulator, m.memory[operand])
              case _ => Set(m.(pc := m.pc + 2), Accumulator, operand)
  {
    StepIs(m, op, AsWritten);
    assert Step(m) == Execute(op, m.(pc := m.pc + 1), AsWritten);
  }

  /** TAY/TYA copy one register into the other; INY/DEY step Y by one with
      wrap-around; CLC clears only the carry. */
  lemma RegisterSteps(m: Machine)
    requires 0 <= m.pc < MemorySize
    ensures m.memory[m.pc] == 0xA8 ==>
              Step(m).Continued? && Step(m).machine == Set(m.(pc := m.pc + 1), Y, m.a)
    ensures m.memory[m.pc] == 0x98 ==>
              Step(m).Continued? && Step(m).machine == Set(m.(pc := m.pc + 1), Accumulator, m.y)
    ensures m.memory[m.pc] == 0xC8 ==>
              Step(m).Continued? && Step(m).machine.y == (m.y as int + 1) % 0x100
    ensures m.memory[m.pc] == 0x88 ==>
              Step(m).Continued? && Step(m).machine.y == (m.y as int + 0xFF) % 0x100
    ensures m.memory[m.pc] == 0x18 ==>
              Step(m).Continued? &&
              Step(m).machine == m.(status := m.status.(carry := false), pc := m.pc + 1)
  {
    if m.memory[m.pc] == 0xA8 {
      StepIs(m, TransferAccumulatorToY, AsWritten);
    } else if m.memory[m.pc] == 0x98 {
      StepIs(m, TransferYToAccumulator, AsWritten);
    } else if m.memory[m.pc] == 0xC8 {
      StepIs(m, IncrementY, AsWritten);
    } else if m.memory[m.pc] == 0x88 {
      StepIs(m, DecrementY, AsWritten);
    } else if m.memory[m.pc] == 0x18 {
      StepIs(m, ClearCarry, AsWritten);
    }
  }

  /** JMP absolute: the program counter becomes the little-endian address in
      the two operand bytes. */
  lemma JumpAbsoluteStep(m: Machine)
    requires 0 <= m.pc && m.pc + 3 <= MemorySize
    requires m.memory[m.pc] == 0x4C
    ensures Step(m).Continued?
    ensures Step(m).machine == m.(pc := m.memory[m.pc + 1] as int + m.memory[m.pc + 2] as int * 0x100)
  {
    StepIs(m, JumpAbsolute, AsWritten);
  }

  /** BEQ: the offset byte is consumed either way. When Z is set the program
      counter moves from the address after the instruction by the signed
      offset plus one; otherwise it stays there. The signed offset is always
      in [-128, 127]. */
  lemma BranchIfEqualStep(m: Machine)
    requires 0 <= m.pc && m.pc + 2 <= MemorySize
    requires m.memory[m.pc] == 0xF0
    ensures Step(m).Continued?
    ensures var b := m.memory[m.pc + 1];
            var offset: int := if b > 0x7F then b as int - 0x100 else b;
            && -0x80 <= offset <= 0x7F
            && Step(m).machine ==
               m.(pc := if m.status.zero then m.pc + 2 + offset + 1 else m.pc + 2)
    ensures CorrectedStep(m).Continued?
    ensures var b := m.memory[m.pc + 1];
            var offset: int := if b > 0x7F then b as int - 0x100 else b;
            CorrectedStep(m).machine ==
            m.(pc := if m.status.zero then m.pc + 2 + offset else m.pc + 2)
  {
    StepIs(m, BranchIfEqual, AsWritten);
    StepIs(m, BranchIfEqual, Corrected);
  }

  /** `load_program` writes program[i] at pc + i for every i, and leaves the
      program counter, registers, flags and every other cell as they were. */
  lemma LoadProgramFrame(m: Machine, program: seq<Byte>)
    requires 0 <= m.pc && m.pc + |program| <= MemorySize
    ensures var m' := Load(m, program);
            && m'.memory[m.pc .. m.pc + |program|] == program
            && m'.memory[..m.pc] == m.memory[..m.pc]
            && m'.memory[m.pc + |program|..] == m.memory[m.pc + |program|..]
            && m'.pc == m.pc && m'.a == m.a && m'.x == m.x && m'.y == m.y
            && m'.status == m.status
  {
    var m' := Load(m, program);
    assert m'.memory[m.pc .. m.pc + |program|] == program;
  }
}
