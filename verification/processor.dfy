/** The byte-code interpreter of src/processor.ts: a 64 KiB memory, three
    8-bit registers, the N/Z/C status flags and a program counter, with a
    single-step `Step` that fetches, decodes and executes one instruction. */
module Processor {
  import opened Base
  import opened Opcodes

  /** The `Uint8Array(0x10000)` memory. */
  type Memory = s: seq<Byte> | |s| == MemorySize witness seq(MemorySize, _ => 0)

  datatype Status = Status(negative: bool, zero: bool, carry: bool)

  datatype Register = Accumulator | X | Y

  /** The processor state. `pc` is an unbounded integer: the source adds to
      it without wrapping, so a branch or fetch can carry it outside memory. */
  datatype Machine = Machine(
    memory: Memory,
    a: Byte,
    x: Byte,
    y: Byte,
    status: Status,
    pc: int)

  /** Result of one `advance()`: `Halted` for `false`, `Continued` for `true`,
      `UnknownOpcode` for the thrown error. `FetchOutOfRange` stands for a
      fetch beyond the memory, where the source reads `undefined`. */
  datatype Outcome =
    | Halted(machine: Machine)
    | Continued(machine: Machine)
    | UnknownOpcode(opcode: Byte)
    | FetchOutOfRange(address: int)

  /** How a taken branch computes its target: as the source does, with an
      extra `+ 1`, or relative to the address after the instruction. */
  datatype BranchRule = AsWritten | Corrected

  /** A freshly constructed processor. */
  function Initial(): (m: Machine)
    ensures forall i :: 0 <= i < MemorySize ==> m.memory[i] == 0
    ensures m.a == 0 && m.x == 0 && m.y == 0 && m.pc == 0x0600
    ensures !m.status.negative && !m.status.zero && !m.status.carry
  {
    Machine(seq(MemorySize, _ => 0), 0, 0, 0, Status(false, false, false), 0x0600)
  }

  // ---------------------------------------------------------------------
  // The interpreter's own opcode enum

  /** The byte of each member of the interpreter's `Opcodes` enum, a second
      copy of the shared table kept beside the interpreter. */
  function InterpreterValue(op: Opcode): Byte {
    match op
    case Break => 0x00
    case ClearCarry => 0x18
    case JumpAbsolute => 0x4C
    case AddWithCarryImmediate => 0x69
    case StoreAccumulatorZeroPage => 0x85
    case DecrementY => 0x88
    case StoreAccumulatorAbsolute => 0x8D
    case StoreAccumulatorIndirectYIndexed => 0x91
    case TransferYToAccumulator => 0x98
    case StoreAccumulatorAbsoluteYIndexed => 0x99
    case LoadYImmediate => 0xA0
    case LoadAccumulatorZeroPage => 0xA5
    case TransferAccumulatorToY => 0xA8
    case LoadAccumulatorImmediate => 0xA9
    case IncrementY => 0xC8
    case CompareImmediate => 0xC9
    case IncrementZeroPage => 0xE6
    case BranchIfEqual => 0xF0
  }

  /** The `switch` of `advance()`: the cases are tried in source order. */
  function Decode(b: Byte): (r: Option<Opcode>)
    ensures r.Some? ==> InterpreterValue(r.value) == b
  {
    if b == InterpreterValue(Break) then Some(Break)
    else if b == InterpreterValue(ClearCarry) then Some(ClearCarry)
    else if b == InterpreterValue(JumpAbsolute) then Some(JumpAbsolute)
    else if b == InterpreterValue(AddWithCarryImmediate) then Some(AddWithCarryImmediate)
    else if b == InterpreterValue(StoreAccumulatorZeroPage) then Some(StoreAccumulatorZeroPage)
    else if b == InterpreterValue(DecrementY) then Some(DecrementY)
    else if b == InterpreterValue(StoreAccumulatorAbsolute) then Some(StoreAccumulatorAbsolute)
    else if b == InterpreterValue(StoreAccumulatorIndirectYIndexed) then Some(StoreAccumulatorIndirectYIndexed)
    else if b == InterpreterValue(TransferYToAccumulator) then Some(TransferYToAccumulator)
    else if b == InterpreterValue(StoreAccumulatorAbsoluteYIndexed) then Some(StoreAccumulatorAbsoluteYIndexed)
    else if b == InterpreterValue(LoadYImmediate) then Some(LoadYImmediate)
    else if b == InterpreterValue(LoadAccumulatorZeroPage) then Some(LoadAccumulatorZeroPage)
    else if b == InterpreterValue(TransferAccumulatorToY) then Some(TransferAccumulatorToY)
    else if b == InterpreterValue(LoadAccumulatorImmediate) then Some(LoadAccumulatorImmediate)
    else if b == InterpreterValue(IncrementY) then Some(IncrementY)
    else if b == InterpreterValue(CompareImmediate) then Some(CompareImmediate)
    else if b == InterpreterValue(IncrementZeroPage) then Some(IncrementZeroPage)
    else if b == InterpreterValue(BranchIfEqual) then Some(BranchIfEqual)
    else None
  }

  /** Each member of the interpreter's enum has the byte of the same-named
      member of the shared table, so the two decoders agree on every byte. */
  lemma TablesAgree(op: Opcode)
    ensures InterpreterValue(op) == Value(op)
    ensures Decode(Value(op)) == Some(op)
  {
    match op
    case Break => {}
    case ClearCarry => {}
    case JumpAbsolute => {}
    case AddWithCarryImmediate => {}
    case StoreAccumulatorZeroPage => {}
    case DecrementY => {}
    case StoreAccumulatorAbsolute => {}
    case StoreAccumulatorIndirectYIndexed => {}
    case TransferYToAccumulator => {}
    case StoreAccumulatorAbsoluteYIndexed => {}
    case LoadYImmediate => {}
    case LoadAccumulatorZeroPage => {}
    case TransferAccumulatorToY => {}
    case LoadAccumulatorImmediate => {}
    case IncrementY => {}
    case CompareImmediate => {}
    case IncrementZeroPage => {}
    case BranchIfEqual => {}
  }

  /** The interpreter decodes a byte exactly when the shared table has it. */
  lemma DecodeMatchesTable(b: Byte)
    ensures Decode(b) == FromByte(b)
  {
    match Decode(b)
    case Some(op) =>
      TablesAgree(op);
      FromByteValue(op);
    case None =>
      match FromByte(b)
      case Some(op) =>
        TablesAgree(op);
        assert false;
      case None =>
  }

  // ---------------------------------------------------------------------
  // Registers and status

  /** What `Register.set` leaves behind: the stored byte and the flags. */
  datatype Written = Written(value: Byte, status: Status)

  /** `Register.set`: the one path by which a register is written. The value
      is clamped with `& 0xFF`; N and Z are recomputed from the clamped
      value; C is left alone. */
  function RegisterSet(status: Status, value: int): (w: Written)
    ensures (value - w.value) % 0x100 == 0
    ensures w.status.negative <==> w.value >= 0x80
    ensures w.status.zero <==> value % 0x100 == 0
    ensures w.status.carry == status.carry
  {
    var clamped := ToUint8(value);
    Written(clamped, Status(clamped > 0x7F, clamped == 0, status.carry))
  }

  function Get(m: Machine, r: Register): Byte {
    match r
    case Accumulator => m.a
    case X => m.x
    case Y => m.y
  }

  /** Writes register `r` of the machine through `RegisterSet`. */
  function Set(m: Machine, r: Register, value: int): (m': Machine)
    ensures Get(m', r) == ToUint8(value)
    ensures FlagsReflect(m'.status, Get(m', r))
    ensures m'.status.carry == m.status.carry
    ensures forall q :: q != r ==> Get(m', q) == Get(m, q)
    ensures m'.memory == m.memory && m'.pc == m.pc
  {
    var w := RegisterSet(m.status, value);
    match r
    case Accumulator => m.(a := w.value, status := w.status)
    case X => m.(x := w.value, status := w.status)
    case Y => m.(y := w.value, status := w.status)
  }

  /** N and Z say what they say about `v`. */
  predicate FlagsReflect(s: Status, v: Byte) {
    (s.negative <==> v > 0x7F) && (s.zero <==> v == 0)
  }

  /** Writing a register its own current value changes nothing once the
      flags already reflect it: a second write is idempotent. */
  lemma SetIdempotent(m: Machine, r: Register, value: int)
    ensures Set(Set(m, r, value), r, Get(Set(m, r, value), r)) == Set(m, r, value)
  {
  }

  // ---------------------------------------------------------------------
  // Fetching and addressing

  datatype Fetched = Fetched(value: int, machine: Machine)

  /** `_next`: reads the byte at the program counter and advances it. */
  function Next(m: Machine): (f: Fetched)
    requires 0 <= m.pc < MemorySize
    ensures f.machine == m.(pc := m.pc + 1)
    ensures 0 <= f.value < 0x100
    ensures f.value == m.memory[m.pc]
  {
    Fetched(m.memory[m.pc], m.(pc := m.pc + 1))
  }

  /** `_16_bit`: little-endian combination of two bytes. */
  function Word16(lo: Byte, hi: Byte): (w: int)
    ensures 0 <= w < 0x1_0000
    ensures w % 0x100 == lo && w / 0x100 == hi
  {
    hi * 0x100 + lo
  }

  function ZeroPageAddress(m: Machine): Fetched
    requires 0 <= m.pc < MemorySize
  {
    Next(m)
  }

  function AbsoluteAddress(m: Machine): (f: Fetched)
    requires 0 <= m.pc && m.pc + 2 <= MemorySize
    ensures f.machine == m.(pc := m.pc + 2)
    ensures f.value == m.memory[m.pc] as int + 0x100 * m.memory[m.pc + 1] as int
  {
    var lo := Next(m);
    var hi := Next(lo.machine);
    Fetched(Word16(lo.value, hi.value), hi.machine)
  }

  function AbsoluteYIndexedAddress(m: Machine): (f: Fetched)
    requires 0 <= m.pc && m.pc + 2 <= MemorySize
    ensures f.machine == m.(pc := m.pc + 2)
    ensures f.value == m.memory[m.pc] as int + 0x100 * m.memory[m.pc + 1] as int + m.y as int
  {
    var base := AbsoluteAddress(m);
    Fetched(base.value + m.y, base.machine)
  }

  /** `_indirect_y_indexed_address`: the operand names a zero-page cell that
      holds the low byte of a pointer; the next cell holds the high byte.
      Neither the pointer read nor the addition of Y wraps. */
  function IndirectYIndexedAddress(m: Machine): (f: Fetched)
    requires 0 <= m.pc < MemorySize
    ensures f.machine == m.(pc := m.pc + 1)
    ensures f.value == m.memory[m.memory[m.pc]] as int + 0x100 * m.memory[m.memory[m.pc] + 1] as int + m.y as int
  {
    var z := Next(m);
    var lo := m.memory[z.value];
    var hi := m.memory[z.value + 1];
    Fetched(Word16(lo, hi) + m.y, z.machine)
  }

  // ---------------------------------------------------------------------
  // Operations

  /** `_store`: a write outside the memory is dropped, as `Uint8Array` does. */
  function Store(m: Machine, r: Register, address: int): (m': Machine)
    ensures 0 <= address < MemorySize ==> m'.memory[address] == Get(m, r)
    ensures forall i :: 0 <= i < MemorySize && i != address ==> m'.memory[i] == m.memory[i]
    ensures m'.a == m.a && m'.x == m.x && m'.y == m.y && m'.status == m.status && m'.pc == m.pc
  {
    if 0 <= address < MemorySize then m.(memory := m.memory[address := Get(m, r)])
    else m
  }

  /** `_add_with_carry`: the carry is set from the unclamped sum, then the
      sum goes through the register write. */
  function AddWithCarry(m: Machine, value: int): (m': Machine)
    ensures var sum := m.a + value + (if m.status.carry then 1 else 0);
            m'.a == sum % 0x100 && (m'.status.carry <==> sum > 0xFF) && FlagsReflect(m'.status, m'.a)
    ensures m'.x == m.x && m'.y == m.y && m'.memory == m.memory && m'.pc == m.pc
  {
    var sum := m.a + value + (if m.status.carry then 1 else 0);
    Set(m.(status := m.status.(carry := sum > 0xFF)), Accumulator, sum)
  }

  /** `_increment_memory`: no flag is touched. */
  function IncrementMemory(m: Machine, address: int): (m': Machine)
    requires 0 <= address < MemorySize
    ensures m'.memory[address] == (m.memory[address] as int + 1) % 0x100
    ensures m.memory[address] == 0xFF ==> m'.memory[address] == 0
    ensures forall i :: 0 <= i < MemorySize && i != address ==> m'.memory[i] == m.memory[i]
    ensures m'.a == m.a && m'.x == m.x && m'.y == m.y && m'.status == m.status && m'.pc == m.pc
  {
    m.(memory := m.memory[address := ToUint8(m.memory[address] as int + 1)])
  }

  /** `_twos_compliment`: reads a byte as a signed 8-bit offset. */
  function Signed(b: Byte): (d: int)
    ensures -0x80 <= d <= 0x7F
    ensures ToUint8(d) == b
  {
    if b > 0x7F then -0x100 + b else b
  }

  function BranchTarget(pc: int, offset: Byte, rule: BranchRule): int {
    match rule
    case AsWritten => pc + Signed(offset) + 1
    case Corrected => pc + Signed(offset)
  }

  /** `_branch_if`: the offset byte is always fetched; the jump is taken only
      when the condition holds. */
  function BranchIf(m: Machine, condition: bool, rule: BranchRule): (m': Machine)
    requires 0 <= m.pc < MemorySize
    ensures !condition ==> m'.pc == m.pc + 1
    ensures condition && rule == Corrected ==> m'.pc == m.pc + 1 + Signed(m.memory[m.pc])
    ensures condition && rule == AsWritten ==> m'.pc == m.pc + 2 + Signed(m.memory[m.pc])
    ensures m' == m.(pc := m'.pc)
  {
    var f := Next(m);
    if condition then f.machine.(pc := BranchTarget(f.machine.pc, f.value, rule))
    else f.machine
  }

  /** One decoded instruction, with `m.pc` already past the opcode byte. */
  function Execute(op: Opcode, m: Machine, rule: BranchRule): (o: Outcome)
    requires 0 <= m.pc && m.pc + Length(op) - 1 <= MemorySize
    ensures o.Halted? || o.Continued?
    ensures o.Halted? <==> op == Break
  {
    match op
    case Break => Halted(m)
    case ClearCarry => Continued(m.(status := m.status.(carry := false)))
    case JumpAbsolute =>
      var f := AbsoluteAddress(m);
      Continued(f.machine.(pc := f.value))
    case AddWithCarryImmediate =>
      var f := Next(m);
      Continued(AddWithCarry(f.machine, f.value))
    case StoreAccumulatorZeroPage =>
      var f := ZeroPageAddress(m);
      Continued(Store(f.machine, Accumulator, f.value))
    case DecrementY => Continued(Set(m, Y, m.y - 1))
    case StoreAccumulatorAbsolute =>
      var f := AbsoluteAddress(m);
      Continued(Store(f.machine, Accumulator, f.value))
    case StoreAccumulatorIndirectYIndexed =>
      var f := IndirectYIndexedAddress(m);
      Continued(Store(f.machine, Accumulator, f.value))
    case TransferYToAccumulator => Continued(Set(m, Accumulator, m.y))
    case StoreAccumulatorAbsoluteYIndexed =>
      var f := AbsoluteYIndexedAddress(m);
      Continued(Store(f.machine, Accumulator, f.value))
    case LoadYImmediate =>
      var f := Next(m);
      Continued(Set(f.machine, Y, f.value))
    case LoadAccumulatorZeroPage =>
      var f := ZeroPageAddress(m);
      Continued(Set(f.machine, Accumulator, m.memory[f.value]))
    case TransferAccumulatorToY => Continued(Set(m, Y, m.a))
    case LoadAccumulatorImmediate =>
      var f := Next(m);
      Continued(Set(f.machine, Accumulator, f.value))
    case IncrementY => Continued(Set(m, Y, m.y + 1))
    case CompareImmediate =>
      var f := Next(m);
      Continued(f.machine.(status := f.machine.status.(zero := m.a == f.value)))
    case IncrementZeroPage =>
      var f := ZeroPageAddress(m);
      Continued(IncrementMemory(f.machine, f.value))
    case BranchIfEqual => Continued(BranchIf(m, m.status.zero, rule))
  }

  /** `advance()` under a given branch rule. */
  function StepWith(m: Machine, rule: BranchRule): (o: Outcome)
    ensures o.Halted? || o.Continued? ==> 0 <= m.pc < MemorySize && Decode(m.memory[m.pc]).Some?
    ensures o.Halted? <==> 0 <= m.pc < MemorySize && m.memory[m.pc] == 0x00
    ensures o.UnknownOpcode? <==> 0 <= m.pc < MemorySize && Decode(m.memory[m.pc]).None?
    ensures o.UnknownOpcode? ==> o.opcode == m.memory[m.pc]
  {
    if !(0 <= m.pc < MemorySize) then FetchOutOfRange(m.pc)
    else
      var f := Next(m);
      match Decode(f.value)
      case None => UnknownOpcode(f.value)
      case Some(op) =>
        if m.pc + Length(op) > MemorySize then FetchOutOfRange(MemorySize)
        else Execute(op, f.machine, rule)
  }

  /** The branch rule matters only for `BEQ`. */
  lemma ExecuteRules(op: Opcode, m: Machine)
    requires 0 <= m.pc && m.pc + Length(op) - 1 <= MemorySize
    requires op != BranchIfEqual
    ensures Execute(op, m, Corrected) == Execute(op, m, AsWritten)
  {
    match op
    case Break =>
    case ClearCarry =>
    case JumpAbsolute =>
    case AddWithCarryImmediate =>
    case StoreAccumulatorZeroPage =>
    case DecrementY =>
    case StoreAccumulatorAbsolute =>
    case StoreAccumulatorIndirectYIndexed =>
    case TransferYToAccumulator =>
    case StoreAccumulatorAbsoluteYIndexed =>
    case LoadYImmediate =>
    case LoadAccumulatorZeroPage =>
    case TransferAccumulatorToY =>
    case LoadAccumulatorImmediate =>
    case IncrementY =>
    case CompareImmediate =>
    case IncrementZeroPage =>
  }

  /** Off `BEQ` the two rules step alike. */
  lemma StepRules(m: Machine)
    ensures !(0 <= m.pc < MemorySize && m.memory[m.pc] == Value(BranchIfEqual)) ==>
              StepWith(m, Corrected) == StepWith(m, AsWritten)
  {
    if 0 <= m.pc < MemorySize {
      match Decode(m.memory[m.pc])
      case None =>
      case Some(op) =>
        TablesAgree(op);
        if m.pc + Length(op) <= MemorySize && op != BranchIfEqual {
          ExecuteRules(op, m.(pc := m.pc + 1));
          assert StepWith(m, Corrected) == Execute(op, m.(pc := m.pc + 1), Corrected);
        }
    }
  }

  /** On a taken `BEQ` the two rules land one byte apart. */
  lemma BranchRules(m: Machine, rule: BranchRule)
    ensures 0 <= m.pc && m.pc + 2 <= MemorySize && m.memory[m.pc] == Value(BranchIfEqual) && m.status.zero ==>
              StepWith(m, rule).Continued?
              && StepWith(m, rule).machine.pc == m.pc + 2 + Signed(m.memory[m.pc + 1]) + (if rule == AsWritten then 1 else 0)
  {
    if 0 <= m.pc && m.pc + 2 <= MemorySize && m.memory[m.pc] == Value(BranchIfEqual) && m.status.zero {
      TablesAgree(BranchIfEqual);
      var after := m.(pc := m.pc + 1);
      assert Decode(m.memory[m.pc]) == Some(BranchIfEqual);
      assert StepWith(m, rule) == Execute(BranchIfEqual, after, rule);
      ExecuteBranch(after, rule);
    }
  }

  /** `BEQ` branches on the zero flag. */
  lemma ExecuteBranch(m: Machine, rule: BranchRule)
    requires 0 <= m.pc && m.pc + 1 <= MemorySize
    ensures Execute(BranchIfEqual, m, rule) == Continued(BranchIf(m, m.status.zero, rule))
  {
  }

  /** `advance()` as the source computes it. */
  function Step(m: Machine): (o: Outcome)
    ensures 0 <= m.pc && m.pc + 2 <= MemorySize && m.memory[m.pc] == Value(BranchIfEqual) && m.status.zero ==>
              o.Continued? && o.machine.pc == m.pc + 2 + Signed(m.memory[m.pc + 1]) + 1
  {
    BranchRules(m, AsWritten);
    StepWith(m, AsWritten)
  }

  /** `advance()` with the branch target taken relative to the address after
      the two-byte branch instruction. */
  function CorrectedStep(m: Machine): (o: Outcome)
    ensures !(0 <= m.pc < MemorySize && m.memory[m.pc] == Value(BranchIfEqual)) ==> o == Step(m)
    ensures 0 <= m.pc && m.pc + 2 <= MemorySize && m.memory[m.pc] == Value(BranchIfEqual) && m.status.zero ==>
              o.Continued? && o.machine.pc == m.pc + 2 + Signed(m.memory[m.pc + 1])
  {
    StepRules(m);
    BranchRules(m, Corrected);
    StepWith(m, Corrected)
  }

  // ---------------------------------------------------------------------
  // Loading a program

  /** `load_program` as a reference definition: the program's bytes are laid
      down from the current program counter; cells a `Uint8Array` would not
      hold are skipped. */
  function Load(m: Machine, program: seq<Byte>): (m': Machine)
    ensures forall i :: 0 <= i < |program| && 0 <= m.pc + i < MemorySize ==>
              m'.memory[m.pc + i] == program[i]
    ensures forall k :: 0 <= k < MemorySize && !(m.pc <= k < m.pc + |program|) ==>
              m'.memory[k] == m.memory[k]
    ensures m' == m.(memory := m'.memory)
  {
    var mem := seq(MemorySize, k requires 0 <= k < MemorySize =>
      if m.pc <= k < m.pc + |program| then program[k - m.pc] else m.memory[k]);
    m.(memory := mem)
  }

  /** `load_program`: the byte-by-byte copy loop. */
  method LoadProgram(m: Machine, program: seq<Byte>) returns (m': Machine)
    ensures m' == Load(m, program)
  {
    var mem := m.memory;
    var index := 0;
    while index < |program|
      invariant 0 <= index <= |program|
      invariant forall k :: 0 <= k < MemorySize ==>
        mem[k] == if m.pc <= k < m.pc + index then program[k - m.pc] else m.memory[k]
    {
      if 0 <= m.pc + index < MemorySize {
        mem := mem[m.pc + index := program[index]];
      }
      index := index + 1;
    }
    m' := m.(memory := mem);
  }
}
