/** The opcode table shared by the assembler and the tests: eighteen named
    operations and the byte that encodes each (src/opcodes.ts). */
module Opcodes {
  import opened Base

  datatype Opcode =
    | Break
    | ClearCarry
    | JumpAbsolute
    | AddWithCarryImmediate
    | StoreAccumulatorZeroPage
    | DecrementY
    | StoreAccumulatorAbsolute
    | StoreAccumulatorIndirectYIndexed
    | TransferYToAccumulator
    | StoreAccumulatorAbsoluteYIndexed
    | LoadYImmediate
    | LoadAccumulatorZeroPage
    | TransferAccumulatorToY
    | LoadAccumulatorImmediate
    | IncrementY
    | CompareImmediate
    | IncrementZeroPage
    | BranchIfEqual

  /** The members in declaration order. */
  const All: seq<Opcode> := [
    Break, ClearCarry, JumpAbsolute, AddWithCarryImmediate,
    StoreAccumulatorZeroPage, DecrementY, StoreAccumulatorAbsolute,
    StoreAccumulatorIndirectYIndexed, TransferYToAccumulator,
    StoreAccumulatorAbsoluteYIndexed, LoadYImmediate, LoadAccumulatorZeroPage,
    TransferAccumulatorToY, LoadAccumulatorImmediate, IncrementY,
    CompareImmediate, IncrementZeroPage, BranchIfEqual
  ]

  /** The byte of each member of the `Opcode` enum; `BREAK` is the zero
      byte that stops the interpreter, and no other member is. */
  function Value(op: Opcode): (b: Byte)
    ensures b == 0x00 <==> op == Break
  {
    match op
    case Break => 0x00
    case ClearCarry => 0x18
    case JumpAbsolute => 0x4C
    case AddWithCarryImmediate => 0x69
    case StoreAccumulatorZeroPage => 0x85
    case DecrementY => 0x88
    case StoreAccumulatorAbsolute => 0x8D
    case StoreAccumulatorIndirectYIndexed => 0x91
    case TransferYToAccumulator => 0x98
    case StoreAccumulatorAbsoluteYIndexed => 0x99
    case LoadYImmediate => 0xA0
    case LoadAccumulatorZeroPage => 0xA5
    case TransferAccumulatorToY => 0xA8
    case LoadAccumulatorImmediate => 0xA9
    case IncrementY => 0xC8
    case CompareImmediate => 0xC9
    case IncrementZeroPage => 0xE6
    case BranchIfEqual => 0xF0
  }

  /** Number of bytes an instruction occupies: the opcode plus the operand
      bytes the interpreter fetches after it. */
  function Length(op: Opcode): (n: nat)
    ensures 1 <= n <= 3
  {
    match op
    case Break | ClearCarry | DecrementY | TransferYToAccumulator
      | TransferAccumulatorToY | IncrementY => 1
    case JumpAbsolute | StoreAccumulatorAbsolute
      | StoreAccumulatorAbsoluteYIndexed => 3
    case _ => 2
  }

  /** The member whose byte is `b`, found by walking the table in order. */
  function Lookup(b: int, ops: seq<Opcode>): (r: Option<Opcode>)
    ensures r.Some? ==> r.value in ops && Value(r.value) == b
    ensures r.None? ==> forall i :: 0 <= i < |ops| ==> Value(ops[i]) != b
  {
    if |ops| == 0 then None
    else if Value(ops[0]) == b then Some(ops[0])
    else Lookup(b, ops[1..])
  }

  /** Reads a byte back as a table member, if it is one. */
  function FromByte(b: int): (r: Option<Opcode>)
    ensures r.Some? ==> Value(r.value) == b
  {
    Lookup(b, All)
  }

  lemma AllMembers(op: Opcode)
    ensures op in All
  {
  }

  /** Distinct members have distinct bytes, and the table decodes each of
      its own bytes back to the member it came from. */
  lemma ValueInjective(p: Opcode, q: Opcode)
    ensures Value(p) == Value(q) ==> p == q
  {
    match p
    case Break => {}
    case ClearCarry => {}
    case JumpAbsolute => {}
    case AddWithCarryImmediate => {}
    case StoreAccumulatorZeroPage => {}
    case DecrementY => {}
    case StoreAccumulatorAbsolute => {}
    case StoreAccumulatorIndirectYIndexed => {}
    case TransferYToAccumulator => {}
    case StoreAccumulatorAbsoluteYIndexed => {}
    case LoadYImmediate => {}
    case LoadAccumulatorZeroPage => {}
    case TransferAccumulatorToY => {}
    case LoadAccumulatorImmediate => {}
    case IncrementY => {}
    case CompareImmediate => {}
    case IncrementZeroPage => {}
    case BranchIfEqual => {}
  }

  lemma FromByteValue(op: Opcode)
    ensures FromByte(Value(op)) == Some(op)
  {
    AllMembers(op);
    var r := FromByte(Value(op));
    ValueInjective(r.value, op);
  }

  /** A byte outside the table reads back as nothing, and only such bytes. */
  lemma FromByteNone(b: int)
    ensures FromByte(b).None? <==> forall op :: Value(op) != b
  {
    if FromByte(b).None? {
      forall op ensures Value(op) != b {
        AllMembers(op);
      }
    }
  }

  /** Bytes taken by the instruction whose opcode is `b`; nothing for a byte
      off the table. */
  function Width(b: int): (n: nat)
    ensures FromByte(b).Some? <==> 1 <= n
    ensures n <= 3
  {
    match FromByte(b)
    case None => 0
    case Some(op) => Length(op)
  }

  /** `code` is exactly one instruction: a table byte followed by as many
      operand bytes as that instruction takes (or nothing at all). */
  predicate OneInstruction(code: seq<Byte>) {
    |code| == 0 || (FromByte(code[0]).Some? && Width(code[0]) == |code|)
  }

  /** `code` splits into whole instructions, read from its first byte. */
  predicate Framed(code: seq<Byte>)
    decreases |code|
  {
    |code| == 0 ||
    (FromByte(code[0]).Some? && Width(code[0]) <= |code| && Framed(code[Width(code[0])..]))
  }

  /** `i` is where an instruction starts when `code` is read from its first
      byte. */
  predicate InstructionStart(code: seq<Byte>, i: int)
    decreases |code|
  {
    0 <= i < |code| && FromByte(code[0]).Some? &&
    (i == 0 || (Width(code[0]) <= i && InstructionStart(code[Width(code[0])..], i - Width(code[0]))))
  }

  lemma OneInstructionFramed(instruction: seq<Byte>)
    requires OneInstruction(instruction)
    ensures Framed(instruction)
  {
    if |instruction| > 0 {
      assert instruction[|instruction|..] == [];
    }
  }

  lemma FramedCons(code: seq<Byte>, n: nat)
    requires |code| > 0 && FromByte(code[0]).Some? && Width(code[0]) == n
    requires n <= |code| && Framed(code[n..])
    ensures Framed(code)
  {
  }

  lemma AppendSuffix(code: seq<Byte>, tail: seq<Byte>, n: nat)
    requires n <= |code|
    ensures (code + tail)[n..] == code[n..] + tail
  {
  }

  /** Appending one whole instruction to a framed stream keeps it framed. */
  lemma {:induction false} FramedAppend(code: seq<Byte>, instruction: seq<Byte>)
    requires Framed(code) && OneInstruction(instruction)
    ensures Framed(code + instruction)
    decreases |code|
  {
    if |code| == 0 {
      assert code + instruction == instruction;
      OneInstructionFramed(instruction);
    } else {
      var n := Width(code[0]);
      FramedAppend(code[n..], instruction);
      AppendSuffix(code, instruction, n);
      assert (code + instruction)[0] == code[0];
      FramedCons(code + instruction, n);
    }
  }

  /** In a framed stream every instruction start holds a table byte, and the
      whole instruction lies inside the stream. */
  lemma {:induction false} StartsAreOpcodes(code: seq<Byte>, i: int)
    requires Framed(code) && InstructionStart(code, i)
    ensures FromByte(code[i]).Some? && i + Width(code[i]) <= |code|
    decreases |code|
  {
    if i != 0 {
      var n := Width(code[0]);
      StartsAreOpcodes(code[n..], i - n);
      assert code[n..][i - n] == code[i];
    }
  }
}
