/** What the assembler promises: how a line is cleaned, how many bytes and
    words each kind of line takes, how operand syntax selects the addressing
    mode, how numbers are read, where labels point, and which programs are
    rejected. */
module CompilerFacts {
  import opened Base
  import opened Text
  import opened Opcodes
  import opened Compiler

  // ---------------------------------------------------------------------
  // Cleaning a line

  /** Everything from the first `;` on is a comment and is dropped before
      trimming. */
  lemma CommentDropped(code: string, comment: string, index: nat)
    requires ';' !in code
    ensures MakeRawLine(code + ";" + comment, index).clean == Trim(code)
  {
    var text := code + ";" + comment;
    IndexOfAfter(code, ';', comment);
    assert text[..|code|] == code;
  }

  /** A line without `;` is only trimmed. */
  lemma NoCommentTrimmed(text: string, index: nat)
    requires ';' !in text
    ensures MakeRawLine(text, index).clean == Trim(text)
  {
    IndexOfFirst(text, ';');
  }

  /** A line kept for assembly has at least one word. */
  lemma CodeLineHasWords(raw: RawLine)
    requires raw.clean != []
    requires !IsWhitespace(raw.clean[0])
    ensures |Words(raw.clean)| > 0
  {
    WordsNonEmpty(raw.clean);
  }

  // ---------------------------------------------------------------------
  // Operand syntax

  /** The label regular expression finds nothing in a word without `:`. */
  lemma {:induction false} NoColonNoLabel(word: string)
    requires ':' !in word
    ensures LabelName(word).None?
  {
    var start := SkipColons(word, 0);
    if start < |word| {
      IndexFromFirst(word, ':', start);
    }
  }

  /** `name:` declares the label `name`. */
  lemma LabelDeclaration(name: string)
    requires |name| > 0 && ':' !in name
    ensures LabelName(name + ":") == Some(name)
  {
    var word := name + ":";
    assert word[0] == name[0];
    assert SkipColons(word, 0) == 0;
    forall i | 0 <= i < |name| ensures word[i] != ':' {
      assert word[i] == name[i];
    }
    IndexFromAt(word, ':', 0, |name|);
    assert word[0..|name|] == name;
  }

  /** `#x` is an immediate operand whose number is `x`. */
  lemma ImmediateSyntax(x: string)
    ensures OperandOf("#" + x) == Operand(Immediate, x)
  {
    IndexOfAfter("", '#', x);
    assert [] + ['#'] + x == "#" + x;
    assert ("#" + x)[1..] == x;
  }

  lemma IndirectMatch(x: string)
    requires ')' !in x
    ensures IndirectOperand("(" + x + "),Y") == Some(x)
  {
    var word := "(" + x + "),Y";
    assert word[0] == '(';
    var j := |x| + 1;
    forall i | 1 <= i < j ensures word[i] != ')' {
      assert word[i] == x[i - 1];
    }
    IndexFromAt(word, ')', 1, j);
    assert word[j + 1] == ',' && word[j + 2] == 'Y';
    assert word[1..j] == x;
  }

  /** `(x),Y` with no `#` or `)` in `x` is an indirect-Y-indexed operand whose
      number is `x`. */
  lemma IndirectSyntax(x: string)
    requires '#' !in x && ')' !in x
    ensures OperandOf("(" + x + "),Y") == Operand(IndirectYIndexed, x)
  {
    var word := "(" + x + "),Y";
    assert '#' !in word by {
      assert word == ['('] + x + [')', ',', 'Y'];
    }
    IndirectMatch(x);
  }

  /** Any other operand, one with neither `#` nor `(`, is a zero-page address
      taken as it stands. */
  lemma ZeroPageSyntax(word: string)
    requires '#' !in word && '(' !in word
    ensures OperandOf(word) == Operand(ZeroPage, word)
  {
    IndexFromFirst(word, '(', 0);
  }

  // ---------------------------------------------------------------------
  // Numbers

  predicate IsDigits(ds: string, radix: nat) {
    |ds| > 0 && forall i :: 0 <= i < |ds| ==> DigitValue(ds[i]) < radix
  }

  /** `parseInt` stops at the first character that is not a digit of the
      radix and reads the digits before it positionally; with no radix given
      that is decimal. */
  lemma ParseIntDigits(ds: string, rest: string)
    requires IsDigits(ds, 10)
    requires |rest| > 0 ==> DigitValue(rest[0]) >= 10 && (ds == "0" ==> rest[0] != 'x' && rest[0] != 'X')
    ensures ParseInt(ds + rest, 0) == Some(DigitsValue(ds, 10))
  {
    var s := ds + rest;
    assert s[0] == ds[0];
    assert s[0] != '-' && s[0] != '+' by {
      assert DigitValue('-') == 36 && DigitValue('+') == 36;
    }
    var hexPrefix := |s| >= 2 && s[0] == '0' && (s[1] == 'x' || s[1] == 'X');
    assert !hexPrefix by {
      if |ds| >= 2 {
        assert s[1] == ds[1];
        assert DigitValue('x') == 33 && DigitValue('X') == 33;
      } else if |rest| > 0 && s[0] == '0' {
        assert ds == "0";
        assert s[1] == rest[0];
      }
    }
    DigitEndAt(s, 0, |ds|, 10);
    assert s[0..|ds|] == ds;
  }

  /** A minus sign in front of an unsigned string negates what it reads as,
      and leaves NaN as NaN. */
  lemma MinusNegates(s: string)
    requires |s| > 0 && s[0] != '-' && s[0] != '+'
    ensures ParseInt("-" + s, 0) == if ParseInt(s, 0).Some? then Some(-ParseInt(s, 0).value) else None
  {
    var t := "-" + s;
    assert t[0] == '-' && t[1] == s[0];
    var hexPrefix := |s| >= 2 && s[0] == '0' && (s[1] == 'x' || s[1] == 'X');
    assert hexPrefix <==> 3 <= |t| && t[1] == '0' && (t[2] == 'x' || t[2] == 'X') by {
      if |s| >= 2 {
        assert t[2] == s[1];
      }
    }
    var from := if hexPrefix then 2 else 0;
    var base := if hexPrefix then 16 else 10;
    var until := DigitEnd(s, from, base);
    DigitEndShift('-', s, from, base);
    assert t[1..] == s;
    assert t[from + 1..until + 1] == t[1..][from..until];
  }

  lemma {:induction false} DigitEndShift(c: char, s: string, from: nat, radix: nat)
    requires from <= |s|
    ensures DigitEnd([c] + s, from + 1, radix) == DigitEnd(s, from, radix) + 1
    decreases |s| - from
  {
    if from < |s| {
      assert ([c] + s)[from + 1] == s[from];
      if DigitValue(s[from]) < radix {
        DigitEndShift(c, s, from + 1, radix);
      }
    }
  }

  /** `parseInt(_, 16)` reads hexadecimal digits the same way. */
  lemma ParseIntHexDigits(ds: string)
    requires IsDigits(ds, 16)
    ensures ParseInt(ds, 16) == Some(DigitsValue(ds, 16))
  {
    if |ds| >= 2 {
      assert DigitValue(ds[1]) < 16;
    }
    DigitEndAt(ds, 0, |ds|, 16);
    assert ds[0..|ds|] == ds;
  }

  /** The digit run from `from` ends at the first non-digit. */
  lemma {:induction false} DigitEndAt(s: string, from: nat, until: nat, radix: nat)
    requires from <= until <= |s|
    requires forall i :: from <= i < until ==> DigitValue(s[i]) < radix
    requires until < |s| ==> DigitValue(s[until]) >= radix
    ensures DigitEnd(s, from, radix) == until
    decreases |s| - from
  {
    if from < until {
      DigitEndAt(s, from + 1, until, radix);
    }
  }

  /** A decimal operand that is not a defined name is its value. */
  lemma ParseNumberDecimal(ds: string, st: State)
    requires IsDigits(ds, 10) && ds !in st.definitions
    ensures ParseNumber(ds, st) == DigitsValue(ds, 10)
  {
    assert '$' !in ds by {
      assert DigitValue('$') == 36;
    }
    ParseIntDigits(ds, "");
    assert ds + "" == ds;
  }

  /** A `$`-prefixed operand that is not a defined name is hexadecimal. */
  lemma ParseNumberHex(ds: string, st: State)
    requires IsDigits(ds, 16) && "$" + ds !in st.definitions
    ensures ParseNumber("$" + ds, st) == DigitsValue(ds, 16)
  {
    var s := "$" + ds;
    IndexOfAfter("", '$', ds);
    assert [] + ['$'] + ds == s;
    assert s[1..] == ds;
    ParseIntHexDigits(ds);
  }

  /** A defined name stands for its value, once: the value is read as a
      number and is not itself looked up again. */
  lemma DefinitionOneLevel(name: string, st: State)
    requires name in st.definitions
    ensures ParseNumber(name, st) == ParseNumber(st.definitions[name], st.(definitions := map[]))
  {
  }

  /** So a name defined as another defined name does not reach the second
      value: with `define a b` and `define b 7`, `a` reads as NaN, which the
      byte array stores as 0. */
  lemma DefinitionNotChained()
    ensures ParseNumber("a", State(map["a" := "b", "b" := "7"], map[], 0)) == 0
  {
    var st := State(map["a" := "b", "b" := "7"], map[], 0);
    assert st.definitions["a"] == "b";
    assert IndexOf("b", '$').None?;
    assert DigitValue('b') == 11;
    assert DigitEnd("b", 0, 10) == 0;
  }

  // ---------------------------------------------------------------------
  // One line

  /** The first word of a line names a mnemonic, a directive or a label. */
  predicate Known(word: string) {
    word == "define" || LabelName(word).Some? || Singleton(word).Some?
    || word == "JMP" || word == "BEQ" || Addressing(word).Some?
  }

  /** The label a line declares, if it declares one. */
  function DeclaredLabel(line: Line): (r: Option<string>)
    ensures r.Some? ==> |line.words| > 0 && line.words[0] != "define"
  {
    if |line.words| > 0 && line.words[0] != "define" then LabelName(line.words[0]) else None
  }

  function LabelOf(raw: RawLine): Option<string> {
    DeclaredLabel(NewLine(raw))
  }

  lemma SingletonNames(word: string)
    ensures Singleton(word).Some? <==> word in {"CLC", "TAY", "TYA", "INY"}
  {
  }

  lemma AddressingNames(word: string)
    ensures Addressing(word).Some? <==> word in {"LDA", "LDY", "INC", "STA", "ADC", "CMP"}
  {
  }

  /** No mnemonic is mistaken for a label. */
  lemma MnemonicsAreNotLabels(word: string)
    requires word in {"CLC", "TAY", "TYA", "INY", "JMP", "BEQ", "LDA", "LDY", "INC", "STA", "ADC", "CMP"}
    ensures LabelName(word).None? && word != "define"
  {
    assert ':' !in word;
    NoColonNoLabel(word);
  }

  /** Where each mnemonic falls in the dispatcher's order of trial. */
  lemma SingletonKind(word: string)
    requires Singleton(word).Some?
    ensures word != "define" && LabelName(word).None?
  {
    SingletonNames(word);
    MnemonicsAreNotLabels(word);
  }

  lemma JumpKind(word: string)
    requires word == "JMP" || word == "BEQ"
    ensures word != "define" && LabelName(word).None? && Singleton(word).None?
  {
    MnemonicsAreNotLabels(word);
  }

  lemma AddressedKind(word: string)
    requires Addressing(word).Some?
    ensures word != "define" && LabelName(word).None? && Singleton(word).None?
    ensures word != "JMP" && word != "BEQ"
  {
    AddressingNames(word);
    MnemonicsAreNotLabels(word);
    SingletonNames(word);
  }

  // The branches of `GetOpcodes`, one lemma each.

  lemma DispatchDefine(words: seq<string>, st: State)
    requires |words| > 0 && words[0] == "define"
    ensures GetOpcodes(words, st)
            == if |words| < 3 then Failure(NotEnoughWords)
               else Success(Parsed([], 3, st.(definitions := st.definitions[words[1] := words[2]])))
  {
  }

  lemma DispatchLabel(words: seq<string>, st: State)
    requires |words| > 0 && words[0] != "define" && LabelName(words[0]).Some?
    ensures GetOpcodes(words, st)
            == Success(Parsed([], 1, st.(labels := st.labels[LabelName(words[0]).value := st.pointer])))
  {
  }

  lemma DispatchSingleton(words: seq<string>, st: State)
    requires |words| > 0 && Singleton(words[0]).Some?
    ensures GetOpcodes(words, st) == Success(Parsed([Value(Singleton(words[0]).value)], 1, st))
  {
    SingletonKind(words[0]);
  }

  lemma DispatchJump(words: seq<string>, st: State)
    requires |words| > 0 && words[0] == "JMP"
    ensures GetOpcodes(words, st)
            == match LabelAddress(words, st)
               case Failure(e) => Failure(e)
               case Success(address) =>
                 Success(Parsed([Value(JumpAbsolute)] + LittleEndian(address), 2, st))
  {
    JumpKind(words[0]);
  }

  lemma DispatchBranch(words: seq<string>, st: State)
    requires |words| > 0 && words[0] == "BEQ"
    ensures GetOpcodes(words, st)
            == match LabelAddress(words, st)
               case Failure(e) => Failure(e)
               case Success(target) =>
                 Success(Parsed([Value(BranchIfEqual), ToTwosComplement(target - (st.pointer + 2))], 2, st))
  {
    JumpKind(words[0]);
  }

  lemma DispatchAddressed(words: seq<string>, st: State)
    requires |words| > 0 && Addressing(words[0]).Some?
    ensures GetOpcodes(words, st) == Addressed(words, st, Addressing(words[0]).value)
  {
    AddressedKind(words[0]);
  }

  lemma DispatchUnknown(words: seq<string>, st: State)
    requires |words| > 0 && !Known(words[0])
    ensures GetOpcodes(words, st) == Failure(UnknownOperator)
  {
  }

  // What each kind of line assembles to, errors included.

  lemma EmptyLine(line: Line, st: State)
    requires |line.words| == 0
    ensures LineOpcodes(line, st) == Failure(CompileError(NotEnoughWords, line.index + 1, line.original))
  {
  }

  lemma DefineLine(line: Line, st: State)
    requires |line.words| > 0 && line.words[0] == "define"
    ensures var ws := line.words;
            LineOpcodes(line, st)
            == if |ws| < 3 then Failure(CompileError(NotEnoughWords, line.index + 1, line.original))
               else if |ws| > 3 then Failure(CompileError(ExtraWords, line.index + 1, line.original))
               else Success(Emitted([], st.(definitions := st.definitions[ws[1] := ws[2]])))
  {
    DispatchDefine(line.words, st);
  }

  lemma LabelLine(line: Line, st: State)
    requires DeclaredLabel(line).Some?
    ensures LineOpcodes(line, st)
            == if |line.words| > 1 then Failure(CompileError(ExtraWords, line.index + 1, line.original))
               else Success(Emitted([], st.(labels := st.labels[DeclaredLabel(line).value := st.pointer])))
  {
    DispatchLabel(line.words, st);
  }

  lemma SingletonLine(line: Line, st: State)
    requires |line.words| > 0 && Singleton(line.words[0]).Some?
    ensures var ws := line.words;
            LineOpcodes(line, st)
            == if |ws| > 1 then Failure(CompileError(ExtraWords, line.index + 1, line.original))
               else Success(Emitted([Value(Singleton(ws[0]).value)], st.(pointer := st.pointer + 1)))
  {
    SingletonKind(line.words[0]);
    DispatchSingleton(line.words, st);
  }

  lemma JumpLine(line: Line, st: State)
    requires |line.words| > 0 && line.words[0] == "JMP"
    ensures var ws := line.words;
            LineOpcodes(line, st)
            == if |ws| < 2 then Failure(CompileError(NotEnoughWords, line.index + 1, line.original))
               else if ws[1] !in st.labels
               then Failure(CompileError(LabelNotPresent(ws[1]), line.index + 1, line.original))
               else if |ws| > 2 then Failure(CompileError(ExtraWords, line.index + 1, line.original))
               else Success(Emitted([Value(JumpAbsolute)] + LittleEndian(st.labels[ws[1]]),
                                    st.(pointer := st.pointer + 3)))
  {
    JumpKind(line.words[0]);
    DispatchJump(line.words, st);
  }

  lemma BranchLine(line: Line, st: State)
    requires |line.words| > 0 && line.words[0] == "BEQ"
    ensures var ws := line.words;
            LineOpcodes(line, st)
            == if |ws| < 2 then Failure(CompileError(NotEnoughWords, line.index + 1, line.original))
               else if ws[1] !in st.labels
               then Failure(CompileError(LabelNotPresent(ws[1]), line.index + 1, line.original))
               else if |ws| > 2 then Failure(CompileError(ExtraWords, line.index + 1, line.original))
               else Success(Emitted([Value(BranchIfEqual), ToTwosComplement(st.labels[ws[1]] - (st.pointer + 2))],
                                    st.(pointer := st.pointer + 2)))
  {
    JumpKind(line.words[0]);
    DispatchBranch(line.words, st);
  }

  lemma AddressedShort(line: Line, st: State)
    requires |line.words| == 1 && Addressing(line.words[0]).Some?
    ensures LineOpcodes(line, st) == Failure(CompileError(NotEnoughWords, line.index + 1, line.original))
  {
    AddressedKind(line.words[0]);
    DispatchAddressed(line.words, st);
  }

  /** A mnemonic with an addressed operand whose syntax selects a mode the
      mnemonic lacks is rejected. */
  lemma AddressedUnsupported(line: Line, st: State)
    requires |line.words| >= 2 && Addressing(line.words[0]).Some?
    requires ModeOpcode(Addressing(line.words[0]).value, OperandOf(line.words[1]).mode).None?
    ensures LineOpcodes(line, st)
            == Failure(CompileError(ArgumentTypeNotSupported, line.index + 1, line.original))
  {
    var ws := line.words;
    AddressedKind(ws[0]);
    DispatchAddressed(ws, st);
    AddressedResult(ws, st, Addressing(ws[0]).value);
  }

  lemma AddressedLong(line: Line, st: State)
    requires |line.words| > 2 && Addressing(line.words[0]).Some?
    requires ModeOpcode(Addressing(line.words[0]).value, OperandOf(line.words[1]).mode).Some?
    ensures LineOpcodes(line, st) == Failure(CompileError(ExtraWords, line.index + 1, line.original))
  {
    var ws := line.words;
    AddressedKind(ws[0]);
    DispatchAddressed(ws, st);
    AddressedResult(ws, st, Addressing(ws[0]).value);
  }

  /** Otherwise it emits the opcode for the mode the operand's syntax
      selects, then the operand's value, and the pointer moves by two. */
  lemma AddressedEmits(line: Line, st: State)
    requires |line.words| == 2 && Addressing(line.words[0]).Some?
    requires ModeOpcode(Addressing(line.words[0]).value, OperandOf(line.words[1]).mode).Some?
    ensures var ws := line.words;
            var operand := OperandOf(ws[1]);
            var op := ModeOpcode(Addressing(ws[0]).value, operand.mode).value;
            LineOpcodes(line, st)
              == Success(Emitted([Value(op), ParseNumber(operand.text, st)], st.(pointer := st.pointer + 2)))
  {
    var ws := line.words;
    AddressedKind(ws[0]);
    DispatchAddressed(ws, st);
    AddressedResult(ws, st, Addressing(ws[0]).value);
  }

  /** A successful addressed line is the two-word form with a supported
      mode. */
  lemma AddressedSucceeds(line: Line, st: State)
    requires LineOpcodes(line, st).Success?
    requires |line.words| > 0 && Addressing(line.words[0]).Some?
    ensures |line.words| == 2
    ensures ModeOpcode(Addressing(line.words[0]).value, OperandOf(line.words[1]).mode).Some?
    ensures var ws := line.words;
            var operand := OperandOf(ws[1]);
            var op := ModeOpcode(Addressing(ws[0]).value, operand.mode).value;
            LineOpcodes(line, st).value
              == Emitted([Value(op), ParseNumber(operand.text, st)], st.(pointer := st.pointer + 2))
  {
    var ws := line.words;
    if |ws| == 1 {
      AddressedShort(line, st);
      assert false;
    }
    var t := Addressing(ws[0]).value;
    if ModeOpcode(t, OperandOf(ws[1]).mode).None? {
      AddressedUnsupported(line, st);
      assert false;
    }
    if |ws| > 2 {
      AddressedLong(line, st);
      assert false;
    }
    AddressedEmits(line, st);
  }

  lemma UnknownLine(line: Line, st: State)
    requires |line.words| > 0 && !Known(line.words[0])
    ensures LineOpcodes(line, st) == Failure(CompileError(UnknownOperator, line.index + 1, line.original))
  {
    DispatchUnknown(line.words, st);
  }

  /** `_addressed` reads only the mnemonic's operand word. */
  lemma AddressedResult(words: seq<string>, st: State, t: AddressingOpcodes)
    requires |words| >= 2
    ensures ModeOpcode(t, OperandOf(words[1]).mode).None? ==>
              Addressed(words, st, t) == Failure(ArgumentTypeNotSupported)
    ensures ModeOpcode(t, OperandOf(words[1]).mode).Some? ==>
              Addressed(words, st, t)
                == Success(Parsed([Value(ModeOpcode(t, OperandOf(words[1]).mode).value),
                                   ParseNumber(OperandOf(words[1]).text, st)], 2, st))
  {
  }

  // What the kinds of line have in common.

  /** A successful line has words, and its first word is a mnemonic, a
      directive or a label. */
  lemma LineHasWords(line: Line, st: State)
    requires LineOpcodes(line, st).Success?
    ensures |line.words| > 0 && Known(line.words[0])
  {
    if |line.words| == 0 {
      EmptyLine(line, st);
      assert false;
    }
    if !Known(line.words[0]) {
      UnknownLine(line, st);
      assert false;
    }
  }

  /** A successful line used exactly its words: three for `define`, one for
      a label or an operand-less instruction, two otherwise; and it emitted
      nothing for `define` and labels, one byte for the operand-less
      instructions, three for `JMP` and two for the rest. */
  lemma LineSize(line: Line, st: State)
    requires LineOpcodes(line, st).Success?
    ensures var ws := line.words;
            var n := |LineOpcodes(line, st).value.bytes|;
            && |ws| > 0 && Known(ws[0])
            && (ws[0] == "define" ==> |ws| == 3 && n == 0)
            && (DeclaredLabel(line).Some? ==> |ws| == 1 && n == 0)
            && (ws[0] in {"CLC", "TAY", "TYA", "INY"} ==> |ws| == 1 && n == 1)
            && (ws[0] == "JMP" ==> |ws| == 2 && n == 3)
            && (ws[0] in {"BEQ", "LDA", "LDY", "INC", "STA", "ADC", "CMP"} ==> |ws| == 2 && n == 2)
  {
    LineHasWords(line, st);
    var first := line.words[0];
    SingletonNames(first);
    AddressingNames(first);
    if first in {"CLC", "TAY", "TYA", "INY", "JMP", "BEQ", "LDA", "LDY", "INC", "STA", "ADC", "CMP"} {
      MnemonicsAreNotLabels(first);
    }
    if first == "define" {
      DefineLine(line, st);
    } else if LabelName(first).Some? {
      LabelLine(line, st);
    } else if Singleton(first).Some? {
      SingletonLine(line, st);
    } else if first == "JMP" {
      JumpLine(line, st);
    } else if first == "BEQ" {
      BranchLine(line, st);
    } else {
      AddressedSucceeds(line, st);
    }
  }

  /** A first word that is no mnemonic, directive or label is rejected, on
      that line, whatever came before. */
  lemma UnknownOperatorFails(line: Line, st: State)
    requires |line.words| > 0 && !Known(line.words[0])
    ensures LineOpcodes(line, st).Failure? && LineOpcodes(line, st).error.kind == UnknownOperator
  {
    UnknownLine(line, st);
  }

  /** An instruction that needs an operand and has none is rejected. */
  lemma MissingOperandFails(line: Line, st: State)
    requires |line.words| == 1
    requires line.words[0] in {"JMP", "BEQ", "LDA", "LDY", "INC", "STA", "ADC", "CMP"}
    ensures LineOpcodes(line, st) == Failure(CompileError(NotEnoughWords, line.index + 1, line.original))
  {
    var first := line.words[0];
    AddressingNames(first);
    if first == "JMP" {
      JumpLine(line, st);
    } else if first == "BEQ" {
      BranchLine(line, st);
    } else {
      AddressedShort(line, st);
    }
  }

  /** A label or operand-less instruction followed by anything is rejected. */
  lemma ExtraWordsFail(line: Line, st: State)
    requires |line.words| > 1
    requires DeclaredLabel(line).Some? || line.words[0] in {"CLC", "TAY", "TYA", "INY"}
    ensures LineOpcodes(line, st) == Failure(CompileError(ExtraWords, line.index + 1, line.original))
  {
    if DeclaredLabel(line).Some? {
      LabelLine(line, st);
    } else {
      SingletonNames(line.words[0]);
      SingletonLine(line, st);
    }
  }

  /** The modes each addressed mnemonic accepts. */
  lemma ModeTable()
    ensures ModeOpcode(Addressing("LDA").value, Immediate) == Some(LoadAccumulatorImmediate)
    ensures ModeOpcode(Addressing("LDA").value, ZeroPage) == Some(LoadAccumulatorZeroPage)
    ensures ModeOpcode(Addressing("LDA").value, IndirectYIndexed).None?
    ensures ModeOpcode(Addressing("LDY").value, Immediate) == Some(LoadYImmediate)
    ensures ModeOpcode(Addressing("LDY").value, ZeroPage).None?
    ensures ModeOpcode(Addressing("INC").value, ZeroPage) == Some(IncrementZeroPage)
    ensures ModeOpcode(Addressing("INC").value, Immediate).None?
    ensures ModeOpcode(Addressing("STA").value, ZeroPage) == Some(StoreAccumulatorZeroPage)
    ensures ModeOpcode(Addressing("STA").value, IndirectYIndexed) == Some(StoreAccumulatorIndirectYIndexed)
    ensures ModeOpcode(Addressing("STA").value, Immediate).None?
    ensures ModeOpcode(Addressing("ADC").value, Immediate) == Some(AddWithCarryImmediate)
    ensures ModeOpcode(Addressing("CMP").value, Immediate) == Some(CompareImmediate)
    ensures ModeOpcode(Addressing("LDY").value, IndirectYIndexed).None?
    ensures ModeOpcode(Addressing("INC").value, IndirectYIndexed).None?
    ensures ModeOpcode(Addressing("ADC").value, ZeroPage).None?
    ensures ModeOpcode(Addressing("ADC").value, IndirectYIndexed).None?
    ensures ModeOpcode(Addressing("CMP").value, ZeroPage).None?
    ensures ModeOpcode(Addressing("CMP").value, IndirectYIndexed).None?
  {
  }

  /** The opcode each operand-less mnemonic selects. */
  lemma SingletonTable()
    ensures Singleton("CLC") == Some(ClearCarry)
    ensures Singleton("TAY") == Some(TransferAccumulatorToY)
    ensures Singleton("TYA") == Some(TransferYToAccumulator)
    ensures Singleton("INY") == Some(IncrementY)
  {
  }

  /** Only a label line changes the label table, and it records the program
      pointer at that line; only `define` changes the definitions. */
  lemma LineState(line: Line, st: State)
    requires LineOpcodes(line, st).Success?
    ensures var st' := LineOpcodes(line, st).value.state;
            && st'.labels == (match DeclaredLabel(line)
                              case Some(name) => st.labels[name := st.pointer]
                              case None => st.labels)
            && st'.definitions == (if line.words[0] == "define"
                                   then st.definitions[line.words[1] := line.words[2]]
                                   else st.definitions)
  {
    LineHasWords(line, st);
    var first := line.words[0];
    if first == "define" {
      DefineLine(line, st);
    } else if LabelName(first).Some? {
      LabelLine(line, st);
    } else if Singleton(first).Some? {
      SingletonLine(line, st);
    } else if first == "JMP" {
      JumpLine(line, st);
    } else if first == "BEQ" {
      BranchLine(line, st);
    } else {
      AddressedSucceeds(line, st);
    }
  }

  /** Every successful line is one whole instruction of the opcode table (or
      nothing), once its values are stored as bytes. */
  lemma LineOneInstruction(line: Line, st: State)
    requires LineOpcodes(line, st).Success?
    ensures OneInstruction(ToUint8s(LineOpcodes(line, st).value.bytes))
  {
    LineHasWords(line, st);
    var ws := line.words;
    var first := ws[0];
    var bytes := LineOpcodes(line, st).value.bytes;
    if first == "define" {
      DefineLine(line, st);
    } else if LabelName(first).Some? {
      LabelLine(line, st);
    } else if Singleton(first).Some? {
      SingletonLine(line, st);
      Emits(bytes, Singleton(first).value);
    } else if first == "JMP" {
      JumpLine(line, st);
      Emits(bytes, JumpAbsolute);
    } else if first == "BEQ" {
      BranchLine(line, st);
      Emits(bytes, BranchIfEqual);
    } else {
      AddressedSucceeds(line, st);
      var t := Addressing(first).value;
      var mode := OperandOf(ws[1]).mode;
      AddressingNames(first);
      ModeLengths(t, mode);
      Emits(bytes, ModeOpcode(t, mode).value);
    }
  }

  /** Values led by an opcode's byte and as long as its instruction are one
      instruction. */
  lemma Emits(values: seq<int>, op: Opcode)
    requires |values| == Length(op) && values[0] == Value(op)
    ensures OneInstruction(ToUint8s(values))
  {
    FromByteValue(op);
    assert ToUint8s(values)[0] == Value(op);
  }

  /** Every opcode an addressed mnemonic can select takes one operand byte. */
  lemma ModeLengths(t: AddressingOpcodes, mode: Mode)
    requires t in {Addressing("LDA").value, Addressing("LDY").value, Addressing("INC").value,
                   Addressing("STA").value, Addressing("ADC").value, Addressing("CMP").value}
    requires ModeOpcode(t, mode).Some?
    ensures Length(ModeOpcode(t, mode).value) == 2
  {
  }

  /** `JMP` and `BEQ` name a label already in the table, or the line fails. */
  lemma JumpToAbsentFails(line: Line, st: State)
    requires |line.words| >= 2 && (line.words[0] == "JMP" || line.words[0] == "BEQ")
    requires line.words[1] !in st.labels
    ensures LineOpcodes(line, st)
            == Failure(CompileError(LabelNotPresent(line.words[1]), line.index + 1, line.original))
  {
    if line.words[0] == "JMP" {
      JumpLine(line, st);
    } else {
      BranchLine(line, st);
    }
  }

  /** A successful `JMP name` line emits the jump opcode and the label's
      address, low byte first. */
  lemma JumpEmits(line: Line, st: State)
    requires LineOpcodes(line, st).Success?
    requires |line.words| > 0 && line.words[0] == "JMP"
    ensures var ws := line.words;
            |ws| == 2 && ws[1] in st.labels
            && LineOpcodes(line, st).value.bytes == [Value(JumpAbsolute)] + LittleEndian(st.labels[ws[1]])
  {
    JumpLine(line, st);
  }

  /** A successful `BEQ name` line emits the branch opcode and the distance
      from the address after the branch to the label. */
  lemma BranchEmits(line: Line, st: State)
    requires LineOpcodes(line, st).Success?
    requires |line.words| > 0 && line.words[0] == "BEQ"
    ensures var ws := line.words;
            |ws| == 2 && ws[1] in st.labels
            && LineOpcodes(line, st).value.bytes
               == [Value(BranchIfEqual), ToTwosComplement(st.labels[ws[1]] - (st.pointer + 2))]
  {
    BranchLine(line, st);
  }
}
