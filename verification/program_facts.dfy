/** What the assembler promises about whole programs: lines are assembled in
    order in one pass, so a prefix of the source assembles to a prefix of
    the output, a label is the address of the bytes before it, a label used
    before its declaration is an error, and the output is a sequence of
    whole instructions. The structural facts hold for the fold over any
    line step; the assembler's own step is then shown to qualify. */
module ProgramFacts {
  import opened Base
  import opened Text
  import opened Opcodes
  import opened Compiler
  import opened CompilerFacts

  // ---------------------------------------------------------------------
  // Which lines are assembled

  /** Filtering keeps a line exactly when it has code. */
  lemma CodeLinesOne(r: RawLine)
    ensures CodeLines([r]) == if r.clean != [] then [r] else []
  {
    assert [r][1..] == [];
  }

  /** The filter works line by line: the kept lines of two runs of lines
      are the kept lines of the first run, then those of the second. */
  lemma {:induction false} CodeLinesAppend(a: seq<RawLine>, b: seq<RawLine>)
    ensures CodeLines(a + b) == CodeLines(a) + CodeLines(b)
    decreases |a|
  {
    if |a| == 0 {
      assert a + b == b;
    } else {
      assert (a + b)[0] == a[0];
      assert (a + b)[1..] == a[1..] + b;
      CodeLinesAppend(a[1..], b);
    }
  }

  predicate IndexIncreasing(rs: seq<RawLine>) {
    forall i, j :: 0 <= i < j < |rs| ==> rs[i].index < rs[j].index
  }

  lemma IndexIncreasingTail(rs: seq<RawLine>)
    requires |rs| > 0 && IndexIncreasing(rs)
    ensures IndexIncreasing(rs[1..])
    ensures forall l :: l in rs[1..] ==> rs[0].index < l.index
  {
    forall i, j | 0 <= i < j < |rs[1..]| ensures rs[1..][i].index < rs[1..][j].index {
      assert rs[1..][i] == rs[i + 1] && rs[1..][j] == rs[j + 1];
    }
    forall l | l in rs[1..] ensures rs[0].index < l.index {
      var k :| 0 <= k < |rs[1..]| && rs[1..][k] == l;
      assert rs[1..][k] == rs[k + 1];
    }
  }

  lemma IndexIncreasingCons(r: RawLine, rest: seq<RawLine>)
    requires IndexIncreasing(rest) && forall l :: l in rest ==> r.index < l.index
    ensures IndexIncreasing([r] + rest)
  {
    var ls := [r] + rest;
    forall i, j | 0 <= i < j < |ls| ensures ls[i].index < ls[j].index {
      assert ls[j] == rest[j - 1];
      if i > 0 {
        assert ls[i] == rest[i - 1];
      }
    }
  }

  /** Filtering keeps the lines in their order. */
  lemma {:induction false} CodeLinesKeepOrder(rs: seq<RawLine>)
    requires IndexIncreasing(rs)
    ensures IndexIncreasing(CodeLines(rs))
    decreases |rs|
  {
    if |rs| > 0 {
      var rest := CodeLines(rs[1..]);
      IndexIncreasingTail(rs);
      CodeLinesKeepOrder(rs[1..]);
      if rs[0].clean != [] {
        IndexIncreasingCons(rs[0], rest);
      } else {
        assert CodeLines(rs) == rest;
      }
    }
  }

  /** The lines `compile` assembles come in source order, each once. */
  lemma CodeLinesOrdered(source: string)
    ensures IndexIncreasing(CodeLines(RawLines(source)))
  {
    CodeLinesKeepOrder(RawLines(source));
  }

  // ---------------------------------------------------------------------
  // The fold, for any step

  /** A program whose prefix fails fails too. */
  lemma {:induction false} PrefixFails(lines: seq<RawLine>, n: nat, initial: State, step: LineStep)
    requires n <= |lines| && Fold(lines[..n], initial, step).Failure?
    ensures Fold(lines, initial, step).Failure?
    decreases |lines|
  {
    if n < |lines| {
      var last := |lines| - 1;
      assert lines[..last][..n] == lines[..n];
      PrefixFails(lines[..last], n, initial, step);
    } else {
      assert lines[..n] == lines;
    }
  }

  /** The prefixes of a successful program succeed, and their bytes are a
      prefix of the program's bytes. */
  lemma {:induction false} PrefixSucceeds(lines: seq<RawLine>, n: nat, initial: State, step: LineStep)
    requires n <= |lines| && Fold(lines, initial, step).Success?
    ensures Fold(lines[..n], initial, step).Success?
    ensures var prefix := Fold(lines[..n], initial, step).value.bytes;
            var whole := Fold(lines, initial, step).value.bytes;
            |prefix| <= |whole| && whole[..|prefix|] == prefix
    decreases |lines|
  {
    if n < |lines| {
      var last := |lines| - 1;
      assert lines[..last][..n] == lines[..n];
      PrefixSucceeds(lines[..last], n, initial, step);
      var before := Fold(lines[..last], initial, step).value.bytes;
      var prefix := Fold(lines[..n], initial, step).value.bytes;
      var whole := Fold(lines, initial, step).value.bytes;
      assert whole[..|before|] == before;
      assert whole[..|prefix|] == before[..|prefix|];
    } else {
      assert lines[..n] == lines;
    }
  }

  /** One more line: its bytes follow the prefix's, and it is assembled in
      the state the prefix left. */
  lemma NextLine(lines: seq<RawLine>, k: nat, initial: State, step: LineStep)
    requires k < |lines| && Fold(lines[..k + 1], initial, step).Success?
    ensures Fold(lines[..k], initial, step).Success?
    ensures var before := Fold(lines[..k], initial, step).value;
            && step(lines[k], before.state).Success?
            && Fold(lines[..k + 1], initial, step).value.bytes
               == before.bytes + step(lines[k], before.state).value.bytes
            && Fold(lines[..k + 1], initial, step).value.state == step(lines[k], before.state).value.state
  {
    assert lines[..k + 1][..k] == lines[..k];
    assert lines[..k + 1][k] == lines[k];
  }

  /** A line the step rejects, in the state the lines before it leave, makes
      the whole program fail. */
  lemma FailsAt(lines: seq<RawLine>, k: nat, initial: State, step: LineStep)
    requires k < |lines|
    requires Fold(lines[..k], initial, step).Success? ==>
               step(lines[k], Fold(lines[..k], initial, step).value.state).Failure?
    ensures Fold(lines, initial, step).Failure?
  {
    if Fold(lines[..k + 1], initial, step).Success? {
      NextLine(lines, k, initial, step);
      assert false;
    }
    PrefixFails(lines, k + 1, initial, step);
  }

  /** Each line's bytes sit in the program's output right after the bytes
      of the lines before it. */
  lemma LineBytesAt(lines: seq<RawLine>, k: nat, initial: State, step: LineStep)
    requires k < |lines| && Fold(lines, initial, step).Success?
    ensures Fold(lines[..k], initial, step).Success?
    ensures var before := Fold(lines[..k], initial, step).value;
            var line := step(lines[k], before.state);
            var code := Fold(lines, initial, step).value.bytes;
            && line.Success?
            && |before.bytes| + |line.value.bytes| <= |code|
            && code[|before.bytes|..|before.bytes| + |line.value.bytes|] == line.value.bytes
            && EmittedAt(code, |before.bytes|, line.value.bytes)
  {
    PrefixSucceeds(lines, k + 1, initial, step);
    NextLine(lines, k, initial, step);
    var before := Fold(lines[..k], initial, step).value.bytes;
    var line := step(lines[k], Fold(lines[..k], initial, step).value.state).value.bytes;
    var upTo := Fold(lines[..k + 1], initial, step).value.bytes;
    var code := Fold(lines, initial, step).value.bytes;
    assert upTo == before + line;
    assert code[..|upTo|] == upTo;
    assert code[|before|..|before| + |line|] == upTo[|before|..];
  }

  /** The label table after a line: the line's label, if it declares one,
      bound to the program pointer at that line. */
  function NextLabels(raw: RawLine, st: State): map<string, int> {
    match LabelOf(raw)
    case Some(name) => st.labels[name := st.pointer]
    case None => st.labels
  }

  /** The step changes the label table only as `NextLabels` says. */
  ghost predicate KeepsLabels(step: LineStep) {
    forall raw, st :: step(raw, st).Success? ==> step(raw, st).value.state.labels == NextLabels(raw, st)
  }

  /** The step emits one whole instruction, or nothing. */
  ghost predicate EmitsInstructions(step: LineStep) {
    forall raw, st :: step(raw, st).Success? ==> OneInstruction(ToUint8s(step(raw, st).value.bytes))
  }

  /** A name no line declares stays out of the label table. */
  lemma {:induction false} UndeclaredAbsent(lines: seq<RawLine>, name: string, initial: State, step: LineStep)
    requires KeepsLabels(step) && Fold(lines, initial, step).Success?
    requires name !in initial.labels
    requires forall j :: 0 <= j < |lines| ==> LabelOf(lines[j]) != Some(name)
    ensures name !in Fold(lines, initial, step).value.state.labels
    decreases |lines|
  {
    if |lines| > 0 {
      var last := |lines| - 1;
      assert lines[..last + 1] == lines;
      NextLine(lines, last, initial, step);
      UndeclaredAbsent(lines[..last], name, initial, step);
    }
  }

  /** A label maps to the start address plus the number of bytes the lines
      before its latest declaration emitted. */
  lemma {:induction false} LabelRecorded(lines: seq<RawLine>, j: nat, name: string, initial: State, step: LineStep)
    requires KeepsLabels(step) && AdvancesPointer(step)
    requires j < |lines| && Fold(lines, initial, step).Success?
    requires LabelOf(lines[j]) == Some(name)
    requires forall i :: j < i < |lines| ==> LabelOf(lines[i]) != Some(name)
    ensures Fold(lines[..j], initial, step).Success?
    ensures var labels := Fold(lines, initial, step).value.state.labels;
            name in labels && labels[name] == initial.pointer + |Fold(lines[..j], initial, step).value.bytes|
    decreases |lines|
  {
    var last := |lines| - 1;
    assert lines[..last + 1] == lines;
    NextLine(lines, last, initial, step);
    if j < last {
      assert lines[..last][..j] == lines[..j];
      LabelRecorded(lines[..last], j, name, initial, step);
    }
  }

  /** The output of a step that emits whole instructions is framed. */
  lemma {:induction false} FoldFramed(lines: seq<RawLine>, initial: State, step: LineStep)
    requires EmitsInstructions(step) && Fold(lines, initial, step).Success?
    ensures Framed(ToUint8s(Fold(lines, initial, step).value.bytes))
    decreases |lines|
  {
    if |lines| > 0 {
      var last := |lines| - 1;
      assert lines[..last + 1] == lines;
      NextLine(lines, last, initial, step);
      var before := Fold(lines[..last], initial, step).value;
      FoldFramed(lines[..last], initial, step);
      var emitted := step(lines[last], before.state).value.bytes;
      ToUint8sAppend(before.bytes, emitted);
      FramedAppend(ToUint8s(before.bytes), ToUint8s(emitted));
    }
  }

  /** `raw` is an instruction line whose first word is `op`. */
  predicate IsOperator(raw: RawLine, op: string) {
    var ws := Words(raw.clean);
    |ws| >= 1 && ws[0] == op
  }

  /** The step assembles `JMP name` to the jump opcode and the address the
      label table holds for `name`, low byte first. */
  ghost predicate EncodesJumps(step: LineStep) {
    forall raw, st :: step(raw, st).Success? && IsOperator(raw, "JMP") ==>
      var ws := Words(raw.clean);
      && |ws| == 2 && ws[1] in st.labels
      && step(raw, st).value.bytes == [Value(JumpAbsolute)] + LittleEndian(st.labels[ws[1]])
  }

  /** The step assembles `BEQ name` to the branch opcode and the distance
      from the address after the branch to the address the label table
      holds for `name`. */
  ghost predicate EncodesBranches(step: LineStep) {
    forall raw, st :: step(raw, st).Success? && IsOperator(raw, "BEQ") ==>
      var ws := Words(raw.clean);
      && |ws| == 2 && ws[1] in st.labels
      && step(raw, st).value.bytes == [Value(BranchIfEqual), ToTwosComplement(st.labels[ws[1]] - (st.pointer + 2))]
  }

  /** `want` sits in `code` starting at offset `at`. */
  predicate EmittedAt(code: seq<int>, at: int, want: seq<int>) {
    0 <= at && at + |want| <= |code| && code[at..at + |want|] == want
  }

  lemma SameBytes(code: seq<int>, at: int, got: seq<int>, want: seq<int>)
    requires EmittedAt(code, at, got) && got == want
    ensures EmittedAt(code, at, want)
  {
  }

  /** One jump line under a step that encodes jumps, with the label named. */
  lemma JumpLineBytes(step: LineStep, raw: RawLine, st: State, name: string, address: int)
    requires EncodesJumps(step) && step(raw, st).Success? && IsOperator(raw, "JMP")
    requires |Words(raw.clean)| >= 2 && Words(raw.clean)[1] == name
    requires name in st.labels && st.labels[name] == address
    ensures step(raw, st).value.bytes == [Value(JumpAbsolute)] + LittleEndian(address)
  {
  }

  /** One branch line under a step that encodes branches, given the
      address the label table holds for the name and the address after the
      branch. */
  lemma BranchLineDistance(step: LineStep, raw: RawLine, st: State, name: string, address: int, next: int)
    requires EncodesBranches(step) && step(raw, st).Success? && IsOperator(raw, "BEQ")
    requires |Words(raw.clean)| >= 2 && Words(raw.clean)[1] == name
    requires name in st.labels && st.labels[name] == address && st.pointer + 2 == next
    ensures step(raw, st).value.bytes == [Value(BranchIfEqual), ToTwosComplement(address - next)]
  {
  }

  /** The label table the lines before line `k` leave holds the address of
      the latest declaration of `name` before it. */
  lemma LabelBefore(lines: seq<RawLine>, j: nat, k: nat, name: string, initial: State, step: LineStep, address: int)
    requires KeepsLabels(step) && AdvancesPointer(step)
    requires j < k <= |lines| && Fold(lines[..k], initial, step).Success?
    requires LabelOf(lines[j]) == Some(name)
    requires forall i :: j < i < k ==> LabelOf(lines[i]) != Some(name)
    requires Fold(lines[..j], initial, step).Success?
    requires address == initial.pointer + |Fold(lines[..j], initial, step).value.bytes|
    ensures var labels := Fold(lines[..k], initial, step).value.state.labels;
            name in labels && labels[name] == address
  {
    assert lines[..k][..j] == lines[..j];
    assert lines[..k][j] == lines[j];
    LabelRecorded(lines[..k], j, name, initial, step);
  }

  /** A jump to a label assembles to `address`, the address of the label's
      latest declaration before it. */
  lemma FoldJumpEncoding(lines: seq<RawLine>, j: nat, k: nat, initial: State, step: LineStep, address: int)
    requires KeepsLabels(step) && AdvancesPointer(step) && EncodesJumps(step)
    requires j < k < |lines| && Fold(lines, initial, step).Success?
    requires IsOperator(lines[k], "JMP") && |Words(lines[k].clean)| >= 2
    requires LabelOf(lines[j]) == Some(Words(lines[k].clean)[1])
    requires forall i :: j < i < k ==> LabelOf(lines[i]) != Some(Words(lines[k].clean)[1])
    requires Fold(lines[..j], initial, step).Success?
    requires address == initial.pointer + |Fold(lines[..j], initial, step).value.bytes|
    ensures Fold(lines[..k], initial, step).Success?
    ensures EmittedAt(Fold(lines, initial, step).value.bytes, |Fold(lines[..k], initial, step).value.bytes|,
              [Value(JumpAbsolute)] + LittleEndian(address))
  {
    var name := Words(lines[k].clean)[1];
    LineBytesAt(lines, k, initial, step);
    var before := Fold(lines[..k], initial, step).value;
    var code := Fold(lines, initial, step).value.bytes;
    var raw := lines[k];
    LabelBefore(lines, j, k, name, initial, step, address);
    JumpLineBytes(step, raw, before.state, name, address);
    SameBytes(code, |before.bytes|, step(raw, before.state).value.bytes,
              [Value(JumpAbsolute)] + LittleEndian(address));
  }

  /** A branch to a label assembles to the distance from `next`, the
      address after the branch, to `address`, the address of the label's
      latest declaration before it. */
  lemma FoldBranchEncoding(lines: seq<RawLine>, j: nat, k: nat, initial: State, step: LineStep, address: int, next: int)
    requires KeepsLabels(step) && AdvancesPointer(step) && EncodesBranches(step)
    requires j < k < |lines| && Fold(lines, initial, step).Success?
    requires IsOperator(lines[k], "BEQ") && |Words(lines[k].clean)| >= 2
    requires LabelOf(lines[j]) == Some(Words(lines[k].clean)[1])
    requires forall i :: j < i < k ==> LabelOf(lines[i]) != Some(Words(lines[k].clean)[1])
    requires Fold(lines[..j], initial, step).Success? && Fold(lines[..k], initial, step).Success?
    requires address == initial.pointer + |Fold(lines[..j], initial, step).value.bytes|
    requires next == initial.pointer + |Fold(lines[..k], initial, step).value.bytes| + 2
    ensures EmittedAt(Fold(lines, initial, step).value.bytes, |Fold(lines[..k], initial, step).value.bytes|,
              [Value(BranchIfEqual), ToTwosComplement(address - next)])
  {
    var name := Words(lines[k].clean)[1];
    LineBytesAt(lines, k, initial, step);
    var before := Fold(lines[..k], initial, step).value;
    var code := Fold(lines, initial, step).value.bytes;
    var raw := lines[k];
    LabelBefore(lines, j, k, name, initial, step, address);
    BranchLineDistance(step, raw, before.state, name, address, next);
    SameBytes(code, |before.bytes|, step(raw, before.state).value.bytes,
              [Value(BranchIfEqual), ToTwosComplement(address - next)]);
  }

  // ---------------------------------------------------------------------
  // The assembler's step

  lemma AssemblerKeepsLabels()
    ensures KeepsLabels(LineToOpcodes)
  {
    forall raw, st | LineToOpcodes(raw, st).Success?
      ensures LineToOpcodes(raw, st).value.state.labels == NextLabels(raw, st)
    {
      LineState(NewLine(raw), st);
    }
  }

  lemma AssemblerEmitsInstructions()
    ensures EmitsInstructions(LineToOpcodes)
  {
    forall raw, st | LineToOpcodes(raw, st).Success?
      ensures OneInstruction(ToUint8s(LineToOpcodes(raw, st).value.bytes))
    {
      LineOneInstruction(NewLine(raw), st);
    }
  }

  lemma AssemblerAdvancesPointer()
    ensures AdvancesPointer(LineToOpcodes)
  {
  }

  lemma AssemblerEncodesJumps()
    ensures EncodesJumps(LineToOpcodes)
  {
    forall raw, st | LineToOpcodes(raw, st).Success? && IsOperator(raw, "JMP")
      ensures var ws := Words(raw.clean);
              && |ws| == 2 && ws[1] in st.labels
              && LineToOpcodes(raw, st).value.bytes
                 == [Value(JumpAbsolute)] + LittleEndian(st.labels[ws[1]])
    {
      JumpEmits(NewLine(raw), st);
    }
  }

  lemma AssemblerEncodesBranches()
    ensures EncodesBranches(LineToOpcodes)
  {
    forall raw, st | LineToOpcodes(raw, st).Success? && IsOperator(raw, "BEQ")
      ensures var ws := Words(raw.clean);
              && |ws| == 2 && ws[1] in st.labels
              && LineToOpcodes(raw, st).value.bytes
                 == [Value(BranchIfEqual), ToTwosComplement(st.labels[ws[1]] - (st.pointer + 2))]
    {
      BranchEmits(NewLine(raw), st);
    }
  }

  // ---------------------------------------------------------------------
  // Programs

  /** Where a label points: the program start plus the bytes emitted by the
      lines before its latest declaration. */
  lemma DeclaredLabelAddress(lines: seq<RawLine>, j: nat, name: string, start: int)
    requires j < |lines| && Assemble(lines, start).Success?
    requires LabelOf(lines[j]) == Some(name)
    requires forall i :: j < i < |lines| ==> LabelOf(lines[i]) != Some(name)
    ensures Assemble(lines[..j], start).Success?
    ensures var labels := Assemble(lines, start).value.state.labels;
            name in labels && labels[name] == start + |Assemble(lines[..j], start).value.bytes|
  {
    AssemblerKeepsLabels();
    AssemblerAdvancesPointer();
    LabelRecorded(lines, j, name, NewState(start), LineToOpcodes);
  }

  /** Using a label before the line that declares it is an error, even when
      a later line declares it: the assembler makes one pass. */
  lemma ForwardReferenceFails(lines: seq<RawLine>, k: nat, start: int)
    requires k < |lines|
    requires var ws := Words(lines[k].clean); |ws| >= 2 && (ws[0] == "JMP" || ws[0] == "BEQ")
    requires forall j :: 0 <= j < k ==> LabelOf(lines[j]) != Some(Words(lines[k].clean)[1])
    ensures Assemble(lines, start).Failure?
  {
    var step: LineStep := LineToOpcodes;
    var initial := NewState(start);
    var name := Words(lines[k].clean)[1];
    if Fold(lines[..k], initial, step).Success? {
      AssemblerKeepsLabels();
      UndeclaredAbsent(lines[..k], name, initial, step);
      JumpToAbsentFails(NewLine(lines[k]), Fold(lines[..k], initial, step).value.state);
    }
    FailsAt(lines, k, initial, step);
  }

  /** A line that no state can assemble makes the whole program fail. */
  lemma FailingLineFails(lines: seq<RawLine>, k: nat, start: int)
    requires k < |lines|
    requires forall st :: LineToOpcodes(lines[k], st).Failure?
    ensures Assemble(lines, start).Failure?
  {
    FailsAt(lines, k, NewState(start), LineToOpcodes);
  }

  /** A line's bytes appear in the output right after those of the lines
      before it. */
  lemma LineOutput(lines: seq<RawLine>, k: nat, start: int)
    requires k < |lines| && Assemble(lines, start).Success?
    ensures Assemble(lines[..k], start).Success?
    ensures var before := Assemble(lines[..k], start).value;
            var line := LineToOpcodes(lines[k], before.state);
            var code := Assemble(lines, start).value.bytes;
            && line.Success?
            && |before.bytes| + |line.value.bytes| <= |code|
            && code[|before.bytes|..|before.bytes| + |line.value.bytes|] == line.value.bytes
            && EmittedAt(code, |before.bytes|, line.value.bytes)
  {
    LineBytesAt(lines, k, NewState(start), LineToOpcodes);
  }

  /** `JMP name` emits the jump opcode and `address`, the address of the
      latest earlier declaration of `name`, low byte first. */
  lemma JumpEncoding(lines: seq<RawLine>, j: nat, k: nat, start: int, address: int)
    requires j < k < |lines| && Assemble(lines, start).Success?
    requires var ws := Words(lines[k].clean); |ws| >= 2 && ws[0] == "JMP"
    requires LabelOf(lines[j]) == Some(Words(lines[k].clean)[1])
    requires forall i :: j < i < k ==> LabelOf(lines[i]) != Some(Words(lines[k].clean)[1])
    requires Assemble(lines[..j], start).Success?
    requires address == start + |Assemble(lines[..j], start).value.bytes|
    ensures Assemble(lines[..k], start).Success?
    ensures EmittedAt(Assemble(lines, start).value.bytes, |Assemble(lines[..k], start).value.bytes|,
              [Value(JumpAbsolute)] + LittleEndian(address))
  {
    AssemblerKeepsLabels();
    AssemblerAdvancesPointer();
    AssemblerEncodesJumps();
    FoldJumpEncoding(lines, j, k, NewState(start), LineToOpcodes, address);
  }

  /** `BEQ name` emits the branch opcode and the distance from `next`, the
      address after the two-byte branch, to `address`, the address of the
      latest earlier declaration of `name`, moved up by 256 when negative. */
  lemma BranchEncoding(lines: seq<RawLine>, j: nat, k: nat, start: int, address: int, next: int)
    requires j < k < |lines| && Assemble(lines, start).Success?
    requires var ws := Words(lines[k].clean); |ws| >= 2 && ws[0] == "BEQ"
    requires LabelOf(lines[j]) == Some(Words(lines[k].clean)[1])
    requires forall i :: j < i < k ==> LabelOf(lines[i]) != Some(Words(lines[k].clean)[1])
    requires Assemble(lines[..j], start).Success? && Assemble(lines[..k], start).Success?
    requires address == start + |Assemble(lines[..j], start).value.bytes|
    requires next == start + |Assemble(lines[..k], start).value.bytes| + 2
    ensures EmittedAt(Assemble(lines, start).value.bytes, |Assemble(lines[..k], start).value.bytes|,
              [Value(BranchIfEqual), ToTwosComplement(address - next)])
  {
    AssemblerKeepsLabels();
    AssemblerAdvancesPointer();
    AssemblerEncodesBranches();
    FoldBranchEncoding(lines, j, k, NewState(start), LineToOpcodes, address, next);
  }

  /** What `compile` returns can be read from its first byte as whole
      instructions, and every instruction start is a byte of the table. */
  lemma CompileFramed(source: string, start: int, i: int)
    requires Compile(source, start).Success?
    ensures Framed(Compile(source, start).value)
    ensures InstructionStart(Compile(source, start).value, i) ==>
              FromByte(Compile(source, start).value[i]).Some?
  {
    AssemblerEmitsInstructions();
    FoldFramed(CodeLines(RawLines(source)), NewState(start), LineToOpcodes);
    if InstructionStart(Compile(source, start).value, i) {
      StartsAreOpcodes(Compile(source, start).value, i);
    }
  }
}
