/** The single-pass, line-oriented assembler of src/compiler.ts. Each
    non-blank line is turned into bytes in order while a `State` records
    `define` substitutions, label addresses and the program pointer; a label
    can only be used after the line that defines it. */
module Compiler {
  import opened Base
  import opened Text
  import opened Opcodes

  // ---------------------------------------------------------------------
  // Lines and errors

  /** A source line with its comment removed and white space trimmed, and
      its zero-based position in the source. */
  datatype RawLine = RawLine(original: string, clean: string, index: nat)

  /** A line split into words, with a cursor kept by the caller. */
  datatype Line = Line(original: string, index: nat, words: seq<string>)

  datatype ErrorKind =
    | NotEnoughWords
    | ExtraWords
    | UnknownOperator
    | LabelNotPresent(name: string)
    | ArgumentTypeNotSupported

  /** A thrown compile error: what went wrong, the one-based line number and
      the line as written, comment included. */
  datatype CompileError = CompileError(kind: ErrorKind, lineNumber: nat, text: string)

  /** `_make_raw_line`: everything from the first `;` is dropped, then the
      rest is trimmed. */
  function MakeRawLine(text: string, index: nat): (r: RawLine)
    ensures r.original == text && r.index == index
    ensures ';' !in r.clean
    ensures r.clean == [] || (!IsWhitespace(r.clean[0]) && !IsWhitespace(r.clean[|r.clean| - 1]))
  {
    var code := Split(text, ';')[0];
    var clean := Trim(code);
    assert forall c :: c in clean ==> c in code;
    RawLine(text, clean, index)
  }

  function NewLine(raw: RawLine): Line {
    Line(raw.original, raw.index, Words(raw.clean))
  }

  /** `Line.error`: the line number reported is one more than the index. */
  function LineError(line: Line, kind: ErrorKind): (e: CompileError)
    ensures e.lineNumber == line.index + 1 && e.text == line.original && e.kind == kind
  {
    CompileError(kind, line.index + 1, line.original)
  }

  /** `Line.next_word`: the word at the cursor, or "Not enough words". */
  function NextWord(words: seq<string>, i: nat): (r: Result<string, ErrorKind>)
    ensures r.Success? <==> i < |words|
    ensures r.Success? ==> r.value == words[i]
    ensures r.Failure? ==> r.error == NotEnoughWords
  {
    if i < |words| then Success(words[i]) else Failure(NotEnoughWords)
  }

  // ---------------------------------------------------------------------
  // Assembler state

  /** `State`: `define` substitutions, label addresses, program pointer. */
  datatype State = State(
    definitions: map<string, string>,
    labels: map<string, int>,
    pointer: int)

  function NewState(programStart: int): State {
    State(map[], map[], programStart)
  }

  // ---------------------------------------------------------------------
  // Operand syntax, following the regular expressions of the source

  /** Position of the first character at or after `from` that is not `:`. */
  function SkipColons(word: string, from: nat): (i: nat)
    requires from <= |word|
    ensures from <= i <= |word|
    ensures i < |word| ==> word[i] != ':'
    decreases |word| - from
  {
    if from < |word| && word[from] == ':' then SkipColons(word, from + 1) else from
  }

  /** `/([^:]+):/` on the first word: the first run of non-colon characters
      that is followed by a colon. */
  function LabelName(word: string): (r: Option<string>)
    ensures r.Some? ==> |r.value| > 0 && ':' !in r.value
  {
    var start := SkipColons(word, 0);
    if start == |word| then None
    else
      IndexFromFirst(word, ':', start);
      match IndexFrom(word, ':', start)
      case Some(k) => Some(word[start..k])
      case None => None
  }

  /** `/#(.*)/`: everything after the first `#`. */
  function ImmediateOperand(word: string): (r: Option<string>)
    ensures r.Some? <==> '#' in word
  {
    IndexOfFirst(word, '#');
    match IndexOf(word, '#')
    case Some(k) => Some(word[k + 1..])
    case None => None
  }

  /** `/\(([^)]*)\),Y/` tried at each `(` from `from` on: the first `(` whose
      first following `)` is followed by `,Y` gives the text between the
      parentheses. */
  function IndirectFrom(word: string, from: nat): (r: Option<string>)
    requires from <= |word|
    ensures r.Some? ==> ')' !in r.value
    decreases |word| - from
  {
    match IndexFrom(word, '(', from)
    case None => None
    case Some(i) =>
      IndexFromFirst(word, ')', i + 1);
      match IndexFrom(word, ')', i + 1)
      case None => None
      case Some(j) =>
        if j + 2 < |word| && word[j + 1] == ',' && word[j + 2] == 'Y' then Some(word[i + 1..j])
        else IndirectFrom(word, i + 1)
  }

  /** `/\(([^)]*)\),Y/` on the whole word. */
  function IndirectOperand(word: string): (r: Option<string>)
    ensures r.Some? ==> ')' !in r.value
  {
    IndirectFrom(word, 0)
  }

  /** `/\$(.+)/`: everything after the first `$`, when that is not empty. */
  function HexOperand(s: string): (r: Option<string>)
    ensures r.Some? ==> |r.value| > 0
  {
    match IndexOf(s, '$')
    case Some(k) => if k + 1 < |s| then Some(s[k + 1..]) else None
    case None => None
  }

  // ---------------------------------------------------------------------
  // Numbers

  /** Value of a digit character in bases up to 36; 36 for anything else. */
  function DigitValue(c: char): (d: nat)
    ensures d <= 36
  {
    if '0' <= c <= '9' then (c as int) - ('0' as int)
    else if 'a' <= c <= 'z' then (c as int) - ('a' as int) + 10
    else if 'A' <= c <= 'Z' then (c as int) - ('A' as int) + 10
    else 36
  }

  /** End of the run of digits below `radix` that starts at `from`. */
  function DigitEnd(s: string, from: nat, radix: nat): (n: nat)
    requires from <= |s|
    ensures from <= n <= |s|
    decreases |s| - from
  {
    if from < |s| && DigitValue(s[from]) < radix then DigitEnd(s, from + 1, radix) else from
  }

  /** Positional value of a digit string, most significant digit first. */
  function DigitsValue(ds: string, radix: nat): nat {
    if |ds| == 0 then 0
    else DigitsValue(ds[..|ds| - 1], radix) * radix + DigitValue(ds[|ds| - 1])
  }

  /** JavaScript's `parseInt(s, radix)` on a string without leading white
      space, with `radix` 0 standing for an omitted radix: an optional sign,
      a `0x` prefix when the radix is 16 or omitted, then the longest run of
      digits; `None` is NaN, the result when there is no digit at all. */
  function ParseInt(s: string, radix: nat): (r: Option<int>)
    requires radix == 0 || 2 <= radix <= 36
    ensures |s| == 0 ==> r.None?
    ensures r.Some? && r.value < 0 ==> |s| > 0 && s[0] == '-'
  {
    var signed := |s| > 0 && (s[0] == '-' || s[0] == '+');
    var negative := signed && s[0] == '-';
    var at := if signed then 1 else 0;
    var hexPrefix := (radix == 0 || radix == 16) && at + 2 <= |s|
                     && s[at] == '0' && (s[at + 1] == 'x' || s[at + 1] == 'X');
    var from := if hexPrefix then at + 2 else at;
    var base := if hexPrefix then 16 else if radix == 0 then 10 else radix;
    var until := DigitEnd(s, from, base);
    if until == from then None
    else
      var magnitude: int := DigitsValue(s[from..until], base);
      Some(if negative then -magnitude else magnitude)
  }

  /** `_parse_number`: one level of `define` substitution, then hexadecimal
      after a `$`, otherwise `parseInt` without a radix. NaN is returned as
      0, the byte `Uint8Array` makes of it, which is the only use the result
      is put to. */
  function ParseNumber(source: string, st: State): (v: int)
    ensures source !in st.definitions && (forall i :: 0 <= i < |source| ==> DigitValue(source[i]) >= 16) ==> v == 0
  {
    var s := if source in st.definitions then st.definitions[source] else source;
    var parsed := match HexOperand(s)
      case Some(h) => ParseInt(h, 16)
      case None => ParseInt(s, 0);
    match parsed
    case Some(v) => v
    case None => 0
  }

  // ---------------------------------------------------------------------
  // Mnemonics

  /** `_singletons`: the instructions without an operand. */
  function Singleton(word: string): (r: Option<Opcode>)
    ensures r.Some? ==> Length(r.value) == 1
  {
    if word == "CLC" then Some(ClearCarry)
    else if word == "TAY" then Some(TransferAccumulatorToY)
    else if word == "TYA" then Some(TransferYToAccumulator)
    else if word == "INY" then Some(IncrementY)
    else None
  }

  datatype Mode = Immediate | ZeroPage | IndirectYIndexed

  /** `AddressingOpcodes`: the opcode a mnemonic uses in each mode it has. */
  datatype AddressingOpcodes = AddressingOpcodes(
    immediate: Option<Opcode>,
    zeroPage: Option<Opcode>,
    indirectYIndexed: Option<Opcode>)

  function ModeOpcode(t: AddressingOpcodes, mode: Mode): Option<Opcode> {
    match mode
    case Immediate => t.immediate
    case ZeroPage => t.zeroPage
    case IndirectYIndexed => t.indirectYIndexed
  }

  /** The mnemonics that take an addressed operand, with their modes. */
  function Addressing(word: string): (r: Option<AddressingOpcodes>)
    ensures r.Some? ==> r.value.immediate.Some? || r.value.zeroPage.Some? || r.value.indirectYIndexed.Some?
    ensures r.Some? ==> forall mode :: ModeOpcode(r.value, mode).Some? ==> Length(ModeOpcode(r.value, mode).value) == 2
  {
    if word == "LDA" then
      Some(AddressingOpcodes(Some(LoadAccumulatorImmediate), Some(LoadAccumulatorZeroPage), None))
    else if word == "LDY" then Some(AddressingOpcodes(Some(LoadYImmediate), None, None))
    else if word == "INC" then Some(AddressingOpcodes(None, Some(IncrementZeroPage), None))
    else if word == "STA" then
      Some(AddressingOpcodes(None, Some(StoreAccumulatorZeroPage), Some(StoreAccumulatorIndirectYIndexed)))
    else if word == "ADC" then Some(AddressingOpcodes(Some(AddWithCarryImmediate), None, None))
    else if word == "CMP" then Some(AddressingOpcodes(Some(CompareImmediate), None, None))
    else None
  }

  /** The operand text and the mode its syntax selects, in the source's order
      of trial: `#` first, then `(x),Y`, else zero page. */
  datatype Operand = Operand(mode: Mode, text: string)

  function OperandOf(word: string): (r: Operand)
    ensures r.mode == Immediate <==> '#' in word
    ensures r.mode == IndirectYIndexed ==> ')' !in r.text
    ensures r.mode == ZeroPage ==> r.text == word
  {
    match ImmediateOperand(word)
    case Some(x) => Operand(Immediate, x)
    case None =>
      match IndirectOperand(word)
      case Some(x) => Operand(IndirectYIndexed, x)
      case None => Operand(ZeroPage, word)
  }

  // ---------------------------------------------------------------------
  // Encoding helpers

  /** `to_little_endian_bytes`: `value & 0xFF` then `value >> 8`. */
  function LittleEndian(value: int): (bytes: seq<int>)
    ensures |bytes| == 2 && 0 <= bytes[0] < 0x100
    ensures bytes[0] + 0x100 * bytes[1] == value
  {
    [value % 0x100, value / 0x100]
  }

  /** `_to_twos_compliment`: a negative difference is moved up by 256. */
  function ToTwosComplement(d: int): (b: int)
    ensures b % 0x100 == d % 0x100
    ensures -0x100 <= d < 0x100 ==> 0 <= b < 0x100
    ensures d >= 0 ==> b == d
  {
    if d < 0 then 0x100 + d else d
  }

  // ---------------------------------------------------------------------
  // One line

  /** What a line produced: its bytes, how many words it consumed, and the
      state after it (before the program pointer moves). */
  datatype Parsed = Parsed(bytes: seq<int>, consumed: nat, state: State)

  /** `_get_label_address`: the second word names a label defined earlier. */
  function LabelAddress(words: seq<string>, st: State): (r: Result<int, ErrorKind>)
    ensures |words| >= 2 && words[1] in st.labels ==> r == Success(st.labels[words[1]])
    ensures |words| >= 2 && words[1] !in st.labels ==> r == Failure(LabelNotPresent(words[1]))
    ensures |words| < 2 ==> r == Failure(NotEnoughWords)
  {
    var name :- NextWord(words, 1);
    if name in st.labels then Success(st.labels[name]) else Failure(LabelNotPresent(name))
  }

  /** `_addressed`: the operand's syntax picks the mode; a mode the mnemonic
      lacks is an error; otherwise the opcode and the operand's value. */
  function Addressed(words: seq<string>, st: State, t: AddressingOpcodes): (r: Result<Parsed, ErrorKind>)
    ensures r.Success? ==> |r.value.bytes| == 2 && r.value.consumed == 2 && r.value.state == st
  {
    var word :- NextWord(words, 1);
    var operand := OperandOf(word);
    match ModeOpcode(t, operand.mode)
    case None => Failure(ArgumentTypeNotSupported)
    case Some(op) => Success(Parsed([Value(op), ParseNumber(operand.text, st)], 2, st))
  }

  /** `_get_opcodes`: dispatch on the first word, in the source's order. */
  function GetOpcodes(words: seq<string>, st: State): (r: Result<Parsed, ErrorKind>)
    ensures r.Success? ==> r.value.consumed <= |words|
    ensures r.Success? ==> r.value.state.pointer == st.pointer
  {
    var first :- NextWord(words, 0);
    if first == "define" then
      var name :- NextWord(words, 1);
      var value :- NextWord(words, 2);
      Success(Parsed([], 3, st.(definitions := st.definitions[name := value])))
    else if LabelName(first).Some? then
      Success(Parsed([], 1, st.(labels := st.labels[LabelName(first).value := st.pointer])))
    else if Singleton(first).Some? then
      Success(Parsed([Value(Singleton(first).value)], 1, st))
    else if first == "JMP" then
      var address :- LabelAddress(words, st);
      Success(Parsed([Value(JumpAbsolute)] + LittleEndian(address), 2, st))
    else if first == "BEQ" then
      var target :- LabelAddress(words, st);
      var addressAfterExecution := st.pointer + 2;
      Success(Parsed([Value(BranchIfEqual), ToTwosComplement(target - addressAfterExecution)], 2, st))
    else if Addressing(first).Some? then
      Addressed(words, st, Addressing(first).value)
    else
      Failure(UnknownOperator)
  }

  /** The bytes and state a line leaves behind. */
  datatype Emitted = Emitted(bytes: seq<int>, state: State)

  /** `_line_to_opcodes` once the line is split into words: a dispatcher
      error is reported on the line, a line must use all of its words, and
      the program pointer moves past the bytes the line emitted. */
  function LineOpcodes(line: Line, st: State): (r: Result<Emitted, CompileError>)
    ensures r.Success? ==> r.value.state.pointer == st.pointer + |r.value.bytes|
    ensures r.Failure? ==> r.error.lineNumber == line.index + 1 && r.error.text == line.original
  {
    match GetOpcodes(line.words, st)
    case Failure(kind) => Failure(LineError(line, kind))
    case Success(p) =>
      if p.consumed < |line.words| then Failure(LineError(line, ExtraWords))
      else Success(Emitted(p.bytes, p.state.(pointer := p.state.pointer + |p.bytes|)))
  }

  /** `_line_to_opcodes`: the raw line split into words, then assembled. */
  function LineToOpcodes(raw: RawLine, st: State): (r: Result<Emitted, CompileError>)
    ensures r.Success? ==> r.value.state.pointer == st.pointer + |r.value.bytes|
    ensures r.Failure? ==> r.error.lineNumber == raw.index + 1 && r.error.text == raw.original
  {
    LineOpcodes(NewLine(raw), st)
  }

  // ---------------------------------------------------------------------
  // Whole programs

  /** The source's lines, numbered from zero. */
  function RawLines(source: string): (rs: seq<RawLine>)
    ensures |rs| == |Split(source, '\n')|
    ensures forall i :: 0 <= i < |rs| ==> rs[i] == MakeRawLine(Split(source, '\n')[i], i)
  {
    var texts := Split(source, '\n');
    seq(|texts|, i requires 0 <= i < |texts| => MakeRawLine(texts[i], i))
  }

  /** The `filter(line => line.clean_text)` step: only lines with code. */
  function CodeLines(rs: seq<RawLine>): (ls: seq<RawLine>)
    ensures forall l :: l in ls <==> l in rs && l.clean != []
  {
    if |rs| == 0 then []
    else (if rs[0].clean != [] then [rs[0]] else []) + CodeLines(rs[1..])
  }

  datatype Assembled = Assembled(bytes: seq<int>, state: State)

  /** How one line is assembled in a given state. */
  type LineStep = (RawLine, State) -> Result<Emitted, CompileError>

  /** The step moves the program pointer past the bytes it emits. */
  ghost predicate AdvancesPointer(step: LineStep) {
    forall raw, st :: step(raw, st).Success? ==>
      step(raw, st).value.state.pointer == st.pointer + |step(raw, st).value.bytes|
  }

  /** The step's errors name the line it was given. */
  ghost predicate ReportsLine(step: LineStep) {
    forall raw, st :: step(raw, st).Failure? ==>
      step(raw, st).error.lineNumber == raw.index + 1 && step(raw, st).error.text == raw.original
  }

  /** The fold over code lines: each line sees the state the lines before it
      left, and the first error stops everything. */
  function Fold(lines: seq<RawLine>, initial: State, step: LineStep): (r: Result<Assembled, CompileError>)
    ensures AdvancesPointer(step) && r.Success? ==>
              r.value.state.pointer == initial.pointer + |r.value.bytes|
    ensures ReportsLine(step) && r.Failure? ==>
              exists i :: 0 <= i < |lines| && r.error.lineNumber == lines[i].index + 1
                          && r.error.text == lines[i].original
  {
    if |lines| == 0 then Success(Assembled([], initial))
    else
      var last := |lines| - 1;
      var before :- Fold(lines[..last], initial, step);
      match step(lines[last], before.state)
      case Failure(e) => Failure(e)
      case Success(emitted) => Success(Assembled(before.bytes + emitted.bytes, emitted.state))
  }

  /** The lines assembled from a fresh state at `programStart`. */
  function Assemble(lines: seq<RawLine>, programStart: int): (r: Result<Assembled, CompileError>)
    ensures r.Success? ==> r.value.state.pointer == programStart + |r.value.bytes|
    ensures r.Failure? ==>
              exists i :: 0 <= i < |lines| && r.error.lineNumber == lines[i].index + 1
                          && r.error.text == lines[i].original
  {
    assert AdvancesPointer(LineToOpcodes) && ReportsLine(LineToOpcodes);
    Fold(lines, NewState(programStart), LineToOpcodes)
  }

  /** `compile`: all bytes, converted to a `Uint8Array`, or the first error,
      which names a line of the source by number and text. */
  function Compile(source: string, programStart: int): (r: Result<seq<Byte>, CompileError>)
    ensures r.Failure? ==>
              && 1 <= r.error.lineNumber <= |Split(source, '\n')|
              && r.error.text == Split(source, '\n')[r.error.lineNumber - 1]
  {
    var assembled :- Assemble(CodeLines(RawLines(source)), programStart);
    Success(ToUint8s(assembled.bytes))
  }
}
