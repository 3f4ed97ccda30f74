# A 6502-style interpreter and its assembler, modelled in Dafny

This project models the core of a small 6502-flavoured toolchain written in TypeScript. It has three parts:

- **The interpreter** (`src/processor.ts`). It has a 64 KiB byte memory, three 8-bit registers (A, X, Y), the N, Z and C flags, and a program counter. `load_program` copies a byte program to the program counter. Each `advance()` fetches one opcode, decodes it against the interpreter's own opcode enum, and executes it. It returns `false` on `BREAK` (0x00) and throws on an unknown byte. Every register write goes through `Register.set`, which clamps the value with `& 0xFF` and sets N and Z from the result.
- **The assembler** (`src/compiler.ts`). It is single-pass and line-oriented. `compile(source, start)` splits the text into lines. It drops comments (everything from `;`), trims each line and skips blank ones. Each remaining line is turned into bytes in order, while a `State` records three things:
  - `define` substitutions
  - label addresses
  - the program pointer

  The first word of a line selects one of:
  - `define`
  - a label (`name:`)
  - an operand-less mnemonic (`CLC TAY TYA INY`)
  - `JMP` / `BEQ` to a label that is already defined
  - an addressed mnemonic (`LDA LDY INC STA ADC CMP`)

  For an addressed mnemonic, the operand syntax (`#n`, `(n),Y`, or `n`) selects the opcode, and `_parse_number` reads the operand with one level of `define`. A `$` prefix marks hexadecimal. Every error is reported with the one-based line number and the original line text.
- **The shared opcode table** (`src/opcodes.ts`).

Modules:

- `Base`: bytes, the `Uint8Array` byte conversion, and the Option/Result types.
- `Text`: `split` with its round trips, `trim` as a slice between white space, and splitting into whitespace-separated words with the layout that puts the line back together.
- `Opcodes`: the table; the byte each opcode decodes from; framing of a byte stream into whole instructions.
- `Processor`: the machine and `advance()`.
- `ProcessorFacts`: the facts about each instruction.
- `Compiler`: the assembler.
- `CompilerFacts`: one line at a time.
- `ProgramFacts`: whole programs. The fold over lines, labels, and the jump and branch encodings.
- `Integration`: assembler and interpreter together. It covers the operand round trips, compiled jumps and branches stepped by the interpreter, and the fact that compiled code always decodes.

`advance()` is modelled as a pure function `Processor.Step` from a `Machine` to an `Outcome`:

- `Halted` stands for `false`.
- `Continued` stands for `true`.
- `UnknownOpcode` stands for the thrown error.
- `FetchOutOfRange` stands for a fetch past the memory.

`Processor.StepWith` takes a `BranchRule`, so the branch can also be stepped with the corrected target rule described under Findings.

## Model

| member | source | states |
|---|---|---|
| Base.ToUint8 | src/processor.ts:215-217 | `& 0xFF` (and a `Uint8Array` store) keep the value modulo 256; a value already in 0..255 is unchanged |
| Base.ToUint8s | src/compiler.ts:13 | `new Uint8Array(numbers)` keeps the length and converts each element by `ToUint8` |
| Opcodes.Lookup | src/opcodes.ts:1-20 | a member found for a byte is in the table and has that byte; nothing found means no member of the list has it |
| Opcodes.FromByte | src/opcodes.ts:1-20 | reading a byte back as an opcode gives a member whose value is that byte |
| Opcodes.ValueInjective | src/opcodes.ts:1-20 | the eighteen opcode values are pairwise distinct |
| Opcodes.FromByteValue | src/opcodes.ts:1-20 | every member's byte decodes back to that member |
| Opcodes.FromByteNone | src/opcodes.ts:1-20 | a byte decodes to nothing exactly when no member has it |
| Opcodes.Value | src/opcodes.ts:1-20 | the byte of each enum member; `BREAK` is 0x00 and no other member is |
| Opcodes.FramedAppend | src/compiler.ts:6-11 | appending one whole instruction to a stream of whole instructions keeps it framed |
| Opcodes.StartsAreOpcodes | src/processor.ts:40-100 | at every instruction start of a framed stream lies a byte the decoder knows, and its operand bytes lie inside the stream |
| Processor.Initial | src/processor.ts:22-31 | a new processor has zeroed memory, zero registers, all flags clear and the program counter at 0x0600 |
| Processor.Decode | src/processor.ts:43-100 | the `switch` of `advance()` decodes a byte to a member whose interpreter-enum value is that byte |
| Processor.TablesAgree | src/processor.ts:1-20 | every member of the interpreter's own enum has the same byte as in the shared table, and the interpreter decodes that byte to it |
| Processor.DecodeMatchesTable | src/processor.ts:43-100 | the interpreter and the shared table decode every byte the same way |
| Processor.RegisterSet | src/processor.ts:206-217 | the stored value equals the input modulo 256; N is set iff it is at least 0x80; Z is set iff the input is 0 modulo 256; C is untouched |
| Processor.Set | src/processor.ts:206-213 | the written register holds the clamped value and N/Z describe it; C, the other registers, memory and the program counter are unchanged |
| Processor.SetIdempotent | src/processor.ts:206-213 | writing a register again with the value it now holds changes nothing |
| Processor.Next | src/processor.ts:186-190 | `_next` yields the byte at the program counter and moves the program counter by exactly one |
| Processor.Word16 | src/processor.ts:182-184 | `_16_bit` gives an address in 0..0xFFFF whose low and high bytes are the two inputs |
| Processor.AbsoluteAddress | src/processor.ts:164-168 | the absolute operand is the little-endian word of the two bytes at the program counter (low byte first), and reading it consumes those two bytes and nothing else |
| Processor.AbsoluteYIndexedAddress | src/processor.ts:170-172 | the absolute,Y address is that little-endian word plus Y, without wrapping, and reading it consumes two bytes and nothing else |
| Processor.IndirectYIndexedAddress | src/processor.ts:174-180 | the (zp),Y address is the little-endian word stored at the zero-page byte operand and the byte after it, plus Y, and reading it consumes one byte and nothing else |
| Processor.Signed | src/processor.ts:126-130 | `_twos_compliment` lies in [-128, 127] and converts back to the same byte |
| Processor.Store | src/processor.ts:152-154 | `_store` writes the register into the cell when the address is inside memory; every other cell, the registers, the flags and the program counter are unchanged |
| Processor.AddWithCarry | src/processor.ts:105-111 | A becomes (A + value + C) mod 256 with N/Z describing it; C is set iff the unclamped sum exceeds 255; X, Y, memory and the program counter are unchanged |
| Processor.IncrementMemory | src/processor.ts:140-142 | the cell goes up by one modulo 256 (0xFF wraps to 0x00, as a `Uint8Array` store does); nothing else changes, not even a flag |
| Processor.BranchIf | src/processor.ts:119-124 | the offset byte is always consumed; a false condition leaves the program counter after it; a true one adds the signed offset, plus one as written; nothing but the program counter changes |
| Processor.Execute | src/processor.ts:43-102 | executing a decoded opcode stops exactly on `BREAK` and otherwise continues |
| Processor.StepWith | src/processor.ts:40-103 | `advance()` returns false exactly on a 0x00 byte at the program counter, throws exactly on a byte the `switch` lacks, carrying that byte, and only executes a byte it decodes |
| Processor.Step | src/processor.ts:119-124 | as written, a `BEQ` taken with Z set lands at the address after the two-byte instruction plus the signed offset plus one |
| Processor.CorrectedStep | src/compiler.ts:65-72 | with the target the assembler encodes, a taken `BEQ` lands at the address after the instruction plus the signed offset, and every step that does not start on `BEQ` is the same as `Processor.Step` |
| Processor.Load | src/processor.ts:33-38 | `load_program` puts `program[i]` at `pc + i` where memory holds it; every other cell, the registers, the flags and the program counter are unchanged |
| Processor.LoadProgram | src/processor.ts:33-38 | the byte-copy loop computes exactly `Load` |
| ProcessorFacts.DecodeAt | src/processor.ts:41-43 | the interpreter decodes the byte at the program counter as the shared table does |
| ProcessorFacts.StepIs | src/processor.ts:40-43 | on a table byte whose operands fit in memory, `advance()` executes that opcode with the program counter past the opcode byte |
| ProcessorFacts.HaltsExactlyOnBreak | src/processor.ts:44-45 | `advance()` returns false exactly when the byte is 0x00, and then only the program counter has moved, by one |
| ProcessorFacts.UnknownExactlyOffTable | src/processor.ts:98-99 | `advance()` throws exactly when no opcode has the byte, and the error carries that byte |
| ProcessorFacts.ContinuesOnOtherOpcodes | src/processor.ts:46-102 | every other table byte whose operands fit makes `advance()` return true |
| ProcessorFacts.ExecuteAdvances | src/processor.ts:46-97 | for every opcode that does not jump, execution leaves the program counter just past its operand bytes |
| ProcessorFacts.AdvancesByLength | src/processor.ts:40-102 | a non-jumping instruction moves the program counter by its length (1, 2 or 3) |
| ProcessorFacts.ExecuteRegisters | src/processor.ts:46-97 | for every opcode, only the register it writes can change, and N/Z then describe that register |
| ProcessorFacts.RegisterDiscipline | src/processor.ts:206-213 | over one `advance()`, registers change only through `Register.set`: at most one register changes, N/Z describe it, and X never changes |
| ProcessorFacts.ExecuteFlags | src/processor.ts:46-97 | for every opcode, C changes only on CLC/ADC, N only on a register write, and Z only on a register write or CMP |
| ProcessorFacts.FlagDiscipline | src/processor.ts:46-111 | the same flag discipline over one `advance()` |
| ProcessorFacts.ExecuteMemory | src/processor.ts:46-97 | for every opcode other than the stores and INC zero page, memory is unchanged |
| ProcessorFacts.MemoryDiscipline | src/processor.ts:140-154 | over one `advance()`, only the store and memory-increment instructions change memory |
| ProcessorFacts.AddWithCarryStep | src/processor.ts:105-111 | ADC #: A becomes (A + operand + C) mod 256; C is set iff that sum exceeds 255; C·256 + A recovers the sum; N/Z describe A |
| ProcessorFacts.StoreZeroPageStep | src/processor.ts:55-57 | STA zp writes A into the cell named by the operand byte; nothing else changes |
| ProcessorFacts.StoreAbsoluteStep | src/processor.ts:61-63 | STA abs writes A at the little-endian operand address |
| ProcessorFacts.StoreAbsoluteYIndexedStep | src/processor.ts:170-172 | STA abs,Y writes A at address + Y with no wrap; an address past memory changes nothing |
| ProcessorFacts.StoreIndirectYIndexedStep | src/processor.ts:174-180 | STA (zp),Y reads the pointer from zp and zp+1 (no zero-page wrap), adds Y, and writes A there, or changes nothing past memory |
| ProcessorFacts.IncrementZeroPageStep | src/processor.ts:140-142 | INC zp adds one to the cell modulo 256 and touches no flag |
| ProcessorFacts.CompareImmediateStep | src/processor.ts:88-91 | CMP # sets only Z, to whether A equals the operand |
| ProcessorFacts.LoadSteps | src/processor.ts:144-150 | LDA #, LDY # and LDA zp load the operand byte or the addressed cell through `Register.set` |
| ProcessorFacts.RegisterSteps | src/processor.ts:132-138 | INY/DEY step Y by ±1 modulo 256; TAY/TYA copy through `Register.set`; CLC clears only C |
| ProcessorFacts.JumpAbsoluteStep | src/processor.ts:49-51 | JMP sets the program counter to the little-endian operand address |
| ProcessorFacts.BranchIfEqualStep | src/processor.ts:119-124 | BEQ always consumes its offset byte; with Z set, the program counter becomes the address after the instruction plus the signed offset plus one (corrected rule: without the one) |
| ProcessorFacts.LoadProgramFrame | src/processor.ts:33-38 | after loading, `memory[pc..pc+n]` is the program and the cells before and after it, the registers, the flags and the program counter are as before |
| Text.Split | src/compiler.ts:7 | `split` on one character yields at least one piece, none containing the separator |
| Text.JoinSplit | src/compiler.ts:7 | joining the pieces of a split gives back the text |
| Text.SplitJoin | src/compiler.ts:7 | splitting a join of separator-free pieces gives back the pieces |
| Text.Trim | src/compiler.ts:17 | `trim()` leaves no white space at either end and keeps only characters of the input (that it is one slice: `Text.TrimSlice`) |
| Text.TrimSlice | src/compiler.ts:17 | `trim()` returns one contiguous slice of the text with only white space before and after it; with `Text.Trim` this pins the result down exactly |
| Text.TrimTrimmed | src/compiler.ts:17 | trimming text with no white space at its ends leaves it unchanged |
| Text.TrimKeepsText | src/compiler.ts:17 | trimming removes only white space, and gives the empty string exactly when the text was all white space |
| Text.Words | src/compiler.ts:217-219 | every word of a line is non-empty and contains no white space |
| Text.WordsKeepText | src/compiler.ts:217-219 | the words, concatenated, are the line's non-white-space characters in order |
| Text.WordsNonEmpty | src/compiler.ts:217-219 | a line has no words exactly when it is all white space |
| Text.WordsLayout | src/compiler.ts:217-219 | the line is the words interleaved with white-space-only gaps, every gap between two words non-empty: the words are exactly the maximal runs of non-white-space characters, in order |
| Compiler.MakeRawLine | src/compiler.ts:16-23 | keeps the original text and index; the clean text has no `;` and no white space at either end |
| Compiler.LineError | src/compiler.ts:238-241 | an error reports line number index + 1 and the original text |
| Compiler.NextWord | src/compiler.ts:222-232 | `next_word` succeeds exactly while words remain, giving the word at the cursor, and otherwise fails with "Not enough words" |
| Compiler.LabelName | src/compiler.ts:49 | a label found by `/([^:]+):/` is non-empty and has no colon |
| Compiler.ImmediateOperand | src/compiler.ts:141 | `/#(.*)/` matches exactly when the word contains `#` |
| Compiler.IndirectOperand | src/compiler.ts:146 | the text captured by `/\(([^)]*)\),Y/` has no `)` |
| Compiler.HexOperand | src/compiler.ts:163 | the text captured by `/\$(.+)/` is non-empty |
| Compiler.OperandOf | src/compiler.ts:139-152 | `_address_opcode` selects the immediate mode exactly when the word has a `#`; an indirect-Y text has no `)`; a zero-page operand is the word as it stands |
| Compiler.ParseInt | src/compiler.ts:166-169 | `parseInt` of an empty string is NaN, and a negative result needs a leading `-` |
| Compiler.ParseNumber | src/compiler.ts:160-170 | an undefined operand with no character that could be a digit reads as NaN, which is stored as 0 |
| Compiler.Singleton | src/compiler.ts:109-114 | every `_singletons` opcode is a one-byte instruction |
| Compiler.Addressing | src/compiler.ts:73-98 | every addressed mnemonic has at least one mode, and every opcode it can select is a two-byte instruction |
| Compiler.LittleEndian | src/compiler.ts:244-246 | two values, the first a byte, with low + 256·high equal to the input |
| Compiler.ToTwosComplement | src/compiler.ts:103-107 | the result equals the input modulo 256, is a byte for inputs in (-256, 256), and is the input when it is not negative |
| Compiler.LabelAddress | src/compiler.ts:116-125 | the label's address when it is defined; "Label not present" when not; "Not enough words" with no name |
| Compiler.Addressed | src/compiler.ts:127-137 | a successful addressed operand emits two values, consumes two words and leaves the state alone |
| Compiler.GetOpcodes | src/compiler.ts:39-101 | the dispatcher never consumes more words than the line has and never moves the program pointer |
| Compiler.LineOpcodes | src/compiler.ts:25-37 | after a line, the pointer has moved by the number of bytes emitted; a failure names that line |
| Compiler.LineToOpcodes | src/compiler.ts:25-37 | the same for a raw line, with the error naming the raw line's number and text |
| Compiler.RawLines | src/compiler.ts:6-8 | one raw line per `\n`-separated piece, numbered from zero |
| Compiler.CodeLines | src/compiler.ts:9 | exactly the lines whose clean text is non-empty are kept (order: `ProgramFacts.CodeLinesAppend`, `ProgramFacts.CodeLinesOrdered`) |
| ProgramFacts.CodeLinesOne | src/compiler.ts:9 | `filter` keeps a single line exactly when its clean text is non-empty |
| ProgramFacts.CodeLinesAppend | src/compiler.ts:9 | `filter` works line by line: the kept lines of two runs are those of the first run followed by those of the second |
| ProgramFacts.CodeLinesKeepOrder | src/compiler.ts:9 | `filter` keeps lines in their order: increasing line numbers stay increasing |
| ProgramFacts.CodeLinesOrdered | src/compiler.ts:6-9 | the lines `compile` assembles come in source order, each once |
| Compiler.Fold | src/compiler.ts:8-11 | if every line moves the pointer past its bytes, the final pointer is the start plus all bytes; if every error names its line, a failure names one of the lines |
| Compiler.Assemble | src/compiler.ts:4-11 | the final program pointer is the start plus the number of bytes; a failure names one of the lines |
| Compiler.Compile | src/compiler.ts:3-14 | a failure carries a one-based line number within the source and that line's exact text |
| CompilerFacts.CommentDropped | src/compiler.ts:17 | everything from the first `;` is dropped and the rest trimmed |
| CompilerFacts.NoCommentTrimmed | src/compiler.ts:17 | a line without `;` is only trimmed |
| CompilerFacts.CodeLineHasWords | src/compiler.ts:214-220 | a kept line has at least one word |
| CompilerFacts.NoColonNoLabel | src/compiler.ts:49 | a word without `:` is never a label |
| CompilerFacts.LabelDeclaration | src/compiler.ts:49-53 | `name:` declares exactly `name` |
| CompilerFacts.ImmediateSyntax | src/compiler.ts:141-144 | `#x` selects the immediate mode with number text `x` |
| CompilerFacts.IndirectMatch | src/compiler.ts:146 | `(x),Y` with no `)` in `x` matches the indirect pattern, capturing `x` |
| CompilerFacts.IndirectSyntax | src/compiler.ts:146-149 | `(x),Y` with no `#` or `)` in `x` selects indirect-Y-indexed with text `x` |
| CompilerFacts.ZeroPageSyntax | src/compiler.ts:151 | a word with neither `#` nor `(` is a zero-page operand taken as it stands |
| CompilerFacts.ParseIntDigits | src/compiler.ts:169 | `parseInt` reads the leading decimal digits positionally and stops at the first non-digit |
| CompilerFacts.MinusNegates | src/compiler.ts:169 | a leading `-` negates the number read, and NaN stays NaN |
| CompilerFacts.ParseIntHexDigits | src/compiler.ts:166 | `parseInt(_, 16)` reads hexadecimal digits positionally |
| CompilerFacts.ParseNumberDecimal | src/compiler.ts:160-170 | an undefined decimal operand is its decimal value |
| CompilerFacts.ParseNumberHex | src/compiler.ts:163-166 | an undefined `$`-prefixed operand is its hexadecimal value |
| CompilerFacts.DefinitionOneLevel | src/compiler.ts:161 | a defined name reads as its value, parsed without a second substitution |
| CompilerFacts.DefinitionNotChained | src/compiler.ts:161 | with `define a b` and `define b 7`, `a` does not reach 7: it reads as NaN, stored as 0 |
| CompilerFacts.DeclaredLabel | src/compiler.ts:42-53 | a line declares a label only if its first word is not `define` |
| CompilerFacts.SingletonNames | src/compiler.ts:109-114 | the operand-less mnemonics are exactly CLC, TAY, TYA, INY |
| CompilerFacts.AddressingNames | src/compiler.ts:73-98 | the addressed mnemonics are exactly LDA, LDY, INC, STA, ADC, CMP |
| CompilerFacts.MnemonicsAreNotLabels | src/compiler.ts:42-98 | no mnemonic is taken for `define` or a label |
| CompilerFacts.SingletonKind | src/compiler.ts:42-58 | an operand-less mnemonic gets past the `define` and label tests |
| CompilerFacts.JumpKind | src/compiler.ts:42-72 | `JMP`/`BEQ` get past the `define`, label and singleton tests |
| CompilerFacts.AddressedKind | src/compiler.ts:42-98 | an addressed mnemonic gets past every earlier test |
| CompilerFacts.EmptyLine | src/compiler.ts:222-227 | a line without words fails with "Not enough words" on that line |
| CompilerFacts.DefineLine | src/compiler.ts:42-47 | the full outcome of a `define` line: too few words, extra words, or the new substitution |
| CompilerFacts.LabelLine | src/compiler.ts:49-53 | the full outcome of a label line: extra words, or the label bound to the pointer |
| CompilerFacts.SingletonLine | src/compiler.ts:55-58 | the full outcome of an operand-less line: extra words, or one byte and pointer + 1 |
| CompilerFacts.JumpLine | src/compiler.ts:60-64 | the full outcome of a `JMP` line: each error case in source order, or three bytes and pointer + 3 |
| CompilerFacts.BranchLine | src/compiler.ts:65-72 | the full outcome of a `BEQ` line: each error case in source order, or two bytes and pointer + 2 |
| CompilerFacts.AddressedShort | src/compiler.ts:127-128 | an addressed mnemonic with no operand fails with "Not enough words" |
| CompilerFacts.AddressedUnsupported | src/compiler.ts:131-133 | an operand syntax the mnemonic lacks fails with "Numeric argument type not supported" |
| CompilerFacts.AddressedLong | src/compiler.ts:30-32 | a supported operand followed by more words fails with "Extra words" |
| CompilerFacts.AddressedEmits | src/compiler.ts:127-137 | otherwise the line emits the mode's opcode and the operand's value, and the pointer moves by two |
| CompilerFacts.AddressedSucceeds | src/compiler.ts:127-137 | a successful addressed line has exactly two words and a supported mode, and emits exactly that opcode and value |
| CompilerFacts.UnknownLine | src/compiler.ts:100 | an unknown first word fails with "Unknown operator" on that line |
| CompilerFacts.LineHasWords | src/compiler.ts:39-101 | a successful line starts with a mnemonic, a directive or a label |
| CompilerFacts.LineSize | src/compiler.ts:25-37 | a successful line uses exactly 3, 1 or 2 words and emits 0, 1, 3 or 2 bytes, by kind |
| CompilerFacts.UnknownOperatorFails | src/compiler.ts:100 | an unknown first word fails whatever state came before |
| CompilerFacts.MissingOperandFails | src/compiler.ts:222-227 | an operand-taking mnemonic alone on its line fails with "Not enough words" |
| CompilerFacts.ExtraWordsFail | src/compiler.ts:30-32 | a label or an operand-less mnemonic followed by anything fails with "Extra words" |
| CompilerFacts.ModeTable | src/compiler.ts:73-98 | all eighteen mnemonic-by-mode cells of the table: LDA takes immediate and zero page, LDY and ADC and CMP take immediate only, INC takes zero page only, STA takes zero page and (zp),Y, each with its opcode; every other cell is rejected (so `ADC $10` is "Numeric argument type not supported") |
| CompilerFacts.SingletonTable | src/compiler.ts:109-114 | the opcode each operand-less mnemonic selects: `CLC` clear carry (0x18), `TAY` (0xA8), `TYA` (0x98), `INY` (0xC8) |
| CompilerFacts.LineState | src/compiler.ts:182-192 | only a label line changes the labels (to the current pointer), and only `define` changes the definitions |
| CompilerFacts.LineOneInstruction | src/compiler.ts:39-101 | every successful line emits one whole table instruction, or nothing |
| CompilerFacts.ModeLengths | src/compiler.ts:73-98 | every opcode an addressed mnemonic can select is two bytes long |
| CompilerFacts.JumpToAbsentFails | src/compiler.ts:116-125 | `JMP`/`BEQ` to a name not yet in the label table fails with "Label not present" |
| CompilerFacts.JumpEmits | src/compiler.ts:60-64 | a successful `JMP` line is exactly 0x4C and the label's address, low byte first |
| CompilerFacts.BranchEmits | src/compiler.ts:65-72 | a successful `BEQ` line is exactly 0xF0 and the two's complement of label − (pointer + 2) |
| ProgramFacts.PrefixFails | src/compiler.ts:8-11 | if some prefix of the lines fails, the whole program fails |
| ProgramFacts.PrefixSucceeds | src/compiler.ts:8-11 | every prefix of a successful program succeeds, and its bytes are a prefix of the output |
| ProgramFacts.NextLine | src/compiler.ts:8-11 | one more line appends its bytes and is assembled in the state the previous lines left |
| ProgramFacts.FailsAt | src/compiler.ts:8-11 | a line that fails in the state its predecessors leave fails the program |
| ProgramFacts.LineBytesAt | src/compiler.ts:8-11 | each line's bytes sit in the output right after those of the lines before it |
| ProgramFacts.UndeclaredAbsent | src/compiler.ts:190-196 | a name no line declares is never in the label table |
| ProgramFacts.LabelRecorded | src/compiler.ts:190-192 | a label maps to the start plus the bytes before its latest declaration |
| ProgramFacts.LabelBefore | src/compiler.ts:190-196 | the table seen by a later line holds the address of the latest earlier declaration |
| ProgramFacts.FoldFramed | src/compiler.ts:8-13 | a fold of whole-instruction steps is a framed stream |
| ProgramFacts.FoldJumpEncoding | src/compiler.ts:60-64 | in any fold that encodes jumps, `JMP name` emits the address of the latest earlier declaration of `name` |
| ProgramFacts.FoldBranchEncoding | src/compiler.ts:65-72 | in any fold that encodes branches, `BEQ name` emits the distance from the next instruction to that declaration |
| ProgramFacts.AssemblerKeepsLabels | src/compiler.ts:49-53 | the assembler's line step changes labels only by the line's own declaration |
| ProgramFacts.AssemblerEmitsInstructions | src/compiler.ts:39-101 | the assembler's line step emits whole instructions |
| ProgramFacts.AssemblerAdvancesPointer | src/compiler.ts:34 | the assembler's line step moves the pointer past its bytes |
| ProgramFacts.AssemblerEncodesJumps | src/compiler.ts:60-64 | the assembler's line step encodes `JMP` as the label's address, low byte first |
| ProgramFacts.AssemblerEncodesBranches | src/compiler.ts:65-72 | the assembler's line step encodes `BEQ` as the distance from pointer + 2 |
| ProgramFacts.DeclaredLabelAddress | src/compiler.ts:190-192 | after assembly, a label is the start plus the bytes of the lines before its latest declaration |
| ProgramFacts.ForwardReferenceFails | src/compiler.ts:116-125 | a `JMP`/`BEQ` to a label not declared on an earlier line fails the compile, even if a later line declares it |
| ProgramFacts.FailingLineFails | src/compiler.ts:8-11 | a line that fails in every state fails the compile |
| ProgramFacts.LineOutput | src/compiler.ts:8-11 | a line's bytes appear in the output right after those of earlier lines |
| ProgramFacts.JumpEncoding | src/compiler.ts:60-64 | compiled `JMP name` is 0x4C and the latest earlier declaration's address, low byte first |
| ProgramFacts.BranchEncoding | src/compiler.ts:65-72 | compiled `BEQ name` is 0xF0 and the two's complement of (label − address after the branch) |
| ProgramFacts.CompileFramed | src/compiler.ts:3-14 | compiled output splits into whole instructions, each starting with a table byte |
| Integration.TwosComplementRoundTrip | src/compiler.ts:103-107 | the assembler's two's complement and the interpreter's signed read undo each other exactly on [-128, 127] |
| Integration.LittleEndianRoundTrip | src/compiler.ts:244-246 | the assembler's little-endian split and the interpreter's `_16_bit` undo each other on 16-bit addresses |
| Integration.Word16RoundTrip | src/processor.ts:182-184 | splitting a combined word gives back its two bytes |
| Integration.JumpRuns | src/processor.ts:49-51 | a loaded `JMP` encoding sends the program counter to its address |
| Integration.BranchRuns | src/processor.ts:119-124 | a loaded, taken branch encoding lands one byte past its target as written, and on it under the corrected rule |
| Integration.CompiledJumpLandsOnLabel | src/compiler.ts:60-64 | compiled, loaded and stepped, `JMP name` lands on `name` |
| Integration.CompiledBranchLandsPastLabel | src/processor.ts:122 | compiled, loaded and stepped, a taken `BEQ name` lands one byte past `name` |
| Integration.CompiledBranchLandsOnLabel | src/compiler.ts:65-72 | under the corrected branch rule, a taken `BEQ name` lands on `name` |
| Integration.BranchOutOfReach | src/compiler.ts:65-72 | the assembler emits a byte even for labels out of signed-byte reach, and no signed read recovers such a distance |
| Integration.SelfLoopLandsOneByteLate | src/processor.ts:122 | `start:` then `BEQ start` at 0x0600 with Z set lands on 0x0601 as written and on 0x0600 when corrected |
| Integration.FramedCodeDecodes | src/processor.ts:40-100 | at every instruction start of loaded framed code, `advance()` never throws, never fetches out of range, and halts exactly on 0x00 |
| Integration.CompiledCodeDecodes | src/compiler.ts:3-14 | the same for anything `compile` returns |

## Left out

- `src/app.ts` and `Asm6502.ts` are not part of this model. They are presentation glue and an older copy of the core.
- Error messages are not modelled as strings. An error carries its kind, the one-based line number and the original line text. `_hex` and the message text are left out.
- JSR, RTS, LDX, BNE, CPX, the stack and a reset are not modelled. The modelled source files do not implement them.
- The compiler takes one pass. A label can only be used after the line that declares it (`ProgramFacts.ForwardReferenceFails`). A two-pass design with placeholder fix-ups, which would accept forward references, is not what the code does, and the model follows the code.
- A fetch past 0xFFFF, or at a negative program counter after a backward branch, is a JavaScript read of `undefined`. The model stops there with `FetchOutOfRange` and does not model what the source computes from `undefined`.
- Processor.Machine: the program counter is an unbounded integer, as in the source. It is never wrapped to 16 bits.
- Compiler.ParseInt models `parseInt` on words only. Those have no leading white space. It covers:
  - an optional sign
  - the `0x` prefix
  - ASCII digits and letters up to radix 36
  - NaN when no digit is read

  `_parse_number` returns NaN to the `Uint8Array`, which stores it as 0. `Compiler.ParseNumber` therefore returns 0 for NaN.

  `parseInt` returns a double. Above 2^53 its value is rounded to the nearest double, and a run of more than about 309 decimal digits gives `Infinity`, which the `Uint8Array` stores as 0. The model reads digits into an exact integer instead. For example, `LDA #99999999999999999999` assembles to `A9 00` in the source but to `A9 FF` in the model.
- Compiler.ParseNumber: an operand whose value exceeds 2^53 is exact in the model, while the source rounds it to a double first, so the stored byte can differ.
- CompilerFacts.ParseIntDigits: states the exact positional value; the source's `parseInt` rounds it to a double above 2^53.
- CompilerFacts.ParseIntHexDigits: states the exact hexadecimal value; the source rounds it to a double above 2^53.
- CompilerFacts.ParseNumberDecimal: states the exact decimal value; above 2^53 the source stores the byte of the rounded double (or 0 for `Infinity`).
- CompilerFacts.ParseNumberHex: states the exact hexadecimal value; above 2^53 the source stores the byte of the rounded double (or 0 for `Infinity`).
- Compiler.LittleEndian models `value >> 8` as floor division. That matches JavaScript for label addresses below 2^31. The 32-bit truncation of `>>` is not modelled.
- Base.ToUint8 models `& 0xFF` and the `Uint8Array` store on exact integers. The doubles above 2^53 and the `Infinity` that `parseInt` can hand it on the compile path (see `Compiler.ParseInt` above) are not modelled.
- The processor is modelled as an immutable `Machine` and a pure step function. The shared mutable `Status` object that every `Register` holds is modelled as the one `status` field those writes go through.
- CMP sets only Z, as the source does (its TODO notwithstanding). N and C are not modelled for CMP.

## Findings

| source | as written | input that shows it | evidently intended | confidence | as-written member | corrected member |
|---|---|---|---|---|---|---|
| src/processor.ts:122 with src/compiler.ts:65-72 | The assembler encodes a branch as label − (address of the branch + 2), so the offset is relative to the address after the two-byte instruction. The interpreter's `_branch_if` has already fetched the offset (pc = branch + 2) and then adds offset **+ 1**. | `start:` then `BEQ start`, loaded at 0x0600 and stepped once with Z set. The offset byte is 0xFE (−2), and the program counter ends at 0x0601, inside the branch instruction, instead of 0x0600. | A taken branch lands on the label: pc := address after the branch + signed offset. | not executed | Integration.CompiledBranchLandsPastLabel | Integration.CompiledBranchLandsOnLabel |

`Integration.SelfLoopLandsOneByteLate` works through the concrete self-loop above under both rules. The corrected rule is `Processor.BranchTarget` with `Corrected`, reached through `Processor.CorrectedStep`.
