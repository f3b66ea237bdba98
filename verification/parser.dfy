/** The staged assembler's first stage (src/assembler/parse.ts): a `Parse`
    object lexes each source line, records at most one instruction per line and
    the line's label definitions, remembers the line of the first `end`, and
    reports problems in its own diagnostics log.

    The object's step-by-step updates are specified by pure functions over a
    snapshot `PState` of its state; the lemmas below the class state what those
    functions guarantee. */
module Parser {
  import opened Wrappers
  import opened Text
  import opened OrderedMaps
  import opened Platform
  import Diag
  import opened AsmTypes
  import opened Lexing

  /** The parser's state at one moment: the current line number, the parse
      tree, the line of the first `end` and the diagnostics so far. */
  datatype PState = PState(line: int, tree: ParseTree, firstEnd: Option<int>, log: Diag.Log)

  /** The state of a fresh parser, before its first line. */
  const Start: PState := PState(0, EmptyTree(), None, Diag.Empty)

  // ---------------------------------------------------------------------------
  // Lexing diagnostics

  /** The error raised for a word whose body does not have its class's shape. */
  function InvalidMessage(kind: WordKind): string {
    match kind
    case IntegerWord => "Integer is invalid."
    case AddressWord => "Address is invalid."
    case LineNumWord => "Line reference is invalid."
    case LabelWord => "Label definition is invalid."
    case IdentifierWord => "Identifier is invalid."
  }

  /** The tokens that carry a number, which `check_range` inspects. */
  predicate IsNumeric(t: Token) {
    t.Integer? || t.Address? || t.LineNum?
  }

  /** `check_range`: an error for a number outside the representable range. */
  function RangeLog(log: Diag.Log, line: int, n: int): Diag.Log {
    if n < MOPS_MIN_INTEGER then log.Error(line, "Number too low to represent.")
    else if n > MOPS_MAX_INTEGER then log.Error(line, "Number too high to represent.")
    else log
  }

  /** The diagnostics `lex_word` adds for one word. */
  function LexWordLog(log: Diag.Log, line: int, word: string): Diag.Log {
    match Lexing.LexWord(word)
    case Malformed(kind) => log.Error(line, InvalidMessage(kind))
    case Lexed(t) => if IsNumeric(t) then RangeLog(log, line, t.n) else log
  }

  /** The diagnostics `lex_line` adds for the words of a line, in order. */
  function LexWordsLog(log: Diag.Log, line: int, words: seq<string>): Diag.Log {
    if words == [] then log
    else LexWordLog(LexWordsLog(log, line, words[..|words| - 1]), line, words[|words| - 1])
  }

  /** Lexing one more word appends its token and its diagnostics. */
  lemma LexWordsStep(log: Diag.Log, line: int, words: seq<string>, i: int)
    requires 0 <= i < |words|
    ensures LexWordsLog(log, line, words[..i + 1]) == LexWordLog(LexWordsLog(log, line, words[..i]), line, words[i])
    ensures LexedTokens(words[..i + 1]) == LexedTokens(words[..i]) + (if LexWord(words[i]).Lexed? then [LexWord(words[i]).token] else [])
  {
    assert words[..i + 1][..i] == words[..i];
  }

  // ---------------------------------------------------------------------------
  // Recording instructions and labels

  /** `push_instruction_and_line`: the instruction is stored under the current
      line, and the first `end` fixes `firstEnd`. */
  function PushSpec(st: PState, instr: Instruction, arg: AsmArgument): PState {
    var firstEnd := if instr.operation == End && st.firstEnd.None? then Some(st.line) else st.firstEnd;
    var lines := st.tree.instructionLines.Set(st.line, AsmInstruction(instr, arg, st.line));
    st.(tree := st.tree.(instructionLines := lines), firstEnd := firstEnd)
  }

  /** Recording a selected entry: `nop` raises an extension gated by the `nop`
      setting, an address used as a jump target raises an admitted extension. */
  function ChosenSpec(st: PState, settings: Settings, e: CodedInstruction, arg: AsmArgument, addressTarget: bool): PState {
    var log :=
      if e.instruction == Instruction(Nop, NoArg) then st.log.Extension(st.line, "NOP is an extension.", settings.nop)
      else if addressTarget then st.log.Extension(st.line, "Address targets are an extension.", true)
      else st.log;
    PushSpec(st.(log := log), e.instruction, arg)
  }

  /** What the outcome of selecting an entry does to the state: a chosen entry
      is recorded, every refusal is an error with its own message. */
  function SelectionSpec(st: PState, settings: Settings, s: Selection): PState {
    match s
    case NoTokens => st
    case NotMnemonic => st.(log := st.log.Error(st.line, "First token is not a mnemonic."))
    case Chosen(e, arg, addressTarget) => ChosenSpec(st, settings, e, arg, addressTarget)
    case Superfluous => st.(log := st.log.Error(st.line, "Superfluous token found."))
    case MissingArgument => st.(log := st.log.Error(st.line, "Missing argument."))
    case WrongToken => st.(log := st.log.Error(st.line, "Wrong token found."))
  }

  /** `interpret_instruction` on the instruction part of a line. */
  function InstructionSpec(st: PState, settings: Settings, mnemonics: map<string, Operation>, toks: seq<Token>): PState {
    SelectionSpec(st, settings, Select(mnemonics, settings.jumpAddress, toks))
  }

  /** `interpret_labels` on the label part of a line. */
  function LabelsSpec(st: PState, toks: seq<Token>): PState
    decreases |toks|
  {
    if toks == [] then st
    else if !toks[0].LabelDef? then st.(log := st.log.Error(st.line, "Different token after label definition."))
    else
      var name := ToLower(toks[0].name);
      var log := if st.tree.labels.Has(name) then st.log.Error(st.line, "Redefinition of label.") else st.log;
      LabelsSpec(st.(tree := st.tree.(labels := st.tree.labels.Set(name, st.line)), log := log), toks[1..])
  }

  /** The extensions `interpret_line` raises about the shape of a line: an
      indented mnemonic, labels without an instruction, several labels. */
  function LineShapeLog(log: Diag.Log, line: int, settings: Settings, white: bool, instruction: seq<Token>, labels: seq<Token>): Diag.Log {
    var log1 :=
      if |instruction| > 0 && white then log.Extension(line, "Whitespace before mnemonics is an extension.", settings.initialWhite)
      else log;
    var log2 :=
      if |instruction| == 0 && |labels| > 0 then log1.Extension(line, "Labels on empty lines are an extension.", settings.emptyLineJumps)
      else log1;
    if |labels| > 1 then log2.Extension(line, "Multiple labels per line are an extension.", settings.multipleLabels)
    else log2
  }

  /** `interpret_line`: the tokens before the first label definition, without the
      white-space marker, are the instruction; the rest are labels. */
  function LineSpec(st: PState, settings: Settings, mnemonics: map<string, Operation>, toks: seq<Token>): PState {
    var idx := FirstLabel(toks);
    var instruction := DropWhite(toks[..idx]);
    var labels := toks[idx..];
    var log := LineShapeLog(st.log, st.line, settings, |toks| > 0 && toks[0].White?, instruction, labels);
    LabelsSpec(InstructionSpec(st.(log := log), settings, mnemonics, instruction), labels)
  }

  /** One iteration of `parse`: advance the line number, cut the comment, then
      lex and interpret the rest. */
  function LineStep(st: PState, settings: Settings, mnemonics: map<string, Operation>, text: string): PState {
    CodeStep(st, settings, mnemonics, BeforeComment(text))
  }

  /** An iteration of `parse` on a line without its comment. */
  function CodeStep(st: PState, settings: Settings, mnemonics: map<string, Operation>, code: string): PState {
    WordsStep(st, settings, mnemonics, Words(code), Lexing.LexLine(code))
  }

  /** Parsing one more line is one more iteration. */
  lemma ParseLinesStep(st: PState, settings: Settings, mnemonics: map<string, Operation>, lines: seq<string>, i: int)
    requires 0 <= i < |lines|
    ensures ParseLines(st, settings, mnemonics, lines[..i + 1]) == LineStep(ParseLines(st, settings, mnemonics, lines[..i]), settings, mnemonics, lines[i])
  {
    assert lines[..i + 1][..i] == lines[..i];
  }

  /** An iteration of `parse` on a line's words and tokens. */
  function WordsStep(st: PState, settings: Settings, mnemonics: map<string, Operation>, words: seq<string>, toks: seq<Token>): PState {
    LineSpec(Lexed(st, words), settings, mnemonics, toks)
  }

  /** The state once the next line's words are lexed. */
  function Lexed(st: PState, words: seq<string>): PState {
    st.(line := st.line + 1, log := LexWordsLog(st.log, st.line + 1, words))
  }

  /** `parse` over the given lines, in order. */
  function ParseLines(st: PState, settings: Settings, mnemonics: map<string, Operation>, lines: seq<string>): PState {
    if lines == [] then st
    else LineStep(ParseLines(st, settings, mnemonics, lines[..|lines| - 1]), settings, mnemonics, lines[|lines| - 1])
  }

  /** What `new Parse(settings, code)` ends with. */
  function ParseSpec(settings: Settings, code: string): PState {
    ParseLines(Start, settings, RealMnemonics(settings.replaceMnemonics), Lines(code))
  }

  // ---------------------------------------------------------------------------
  // The parser object

  class Parse {
    const settings: Settings
    const realMnemonics: map<string, Operation>
    var currentLine: int
    var parseTree: ParseTree
    var firstEnd: Option<int>
    const diagnostics: Diag.Diagnostics

    function State(): PState
      reads this, diagnostics
    {
      PState(currentLine, parseTree, firstEnd, diagnostics.Snapshot())
    }

    /** Builds the mnemonic table from the settings and parses the whole code. */
    constructor(settings: Settings, code: string)
      ensures this.settings == settings
      ensures realMnemonics == RealMnemonics(settings.replaceMnemonics)
      ensures fresh(diagnostics)
      ensures State() == ParseSpec(settings, code)
    {
      this.settings := settings;
      realMnemonics := RealMnemonics(settings.replaceMnemonics);
      currentLine := 0;
      parseTree := EmptyTree();
      firstEnd := None;
      diagnostics := new Diag.Diagnostics();
      new;
      ParseCode(code);
    }

    method CheckRange(n: int)
      modifies diagnostics
      ensures diagnostics.Snapshot() == RangeLog(old(diagnostics.Snapshot()), currentLine, n)
    {
      if n < MOPS_MIN_INTEGER {
        diagnostics.Error(currentLine, "Number too low to represent.");
      } else if n > MOPS_MAX_INTEGER {
        diagnostics.Error(currentLine, "Number too high to represent.");
      }
    }

    /** `lex_word`: the token of a well-shaped word (numbers are range-checked
        but kept), or nothing and an error. */
    method LexWord(word: string) returns (t: Option<Token>)
      modifies diagnostics
      ensures t == if Lexing.LexWord(word).Lexed? then Some(Lexing.LexWord(word).token) else None
      ensures diagnostics.Snapshot() == LexWordLog(old(diagnostics.Snapshot()), currentLine, word)
    {
      match Lexing.LexWord(word)
      case Malformed(kind) =>
        diagnostics.Error(currentLine, InvalidMessage(kind));
        t := None;
      case Lexed(tok) =>
        if IsNumeric(tok) {
          CheckRange(tok.n);
        }
        t := Some(tok);
    }

    /** `lex_line`: the white-space marker, then the tokens of the words that lexed. */
    method LexLine(line: string) returns (toks: seq<Token>)
      modifies diagnostics
      ensures toks == Lexing.LexLine(line)
      ensures diagnostics.Snapshot() == LexWordsLog(old(diagnostics.Snapshot()), currentLine, Words(line))
    {
      var lexed := LexWords(Words(line));
      toks := LineStart(line) + lexed;
    }

    /** The loop of `lex_line` over the line's words. */
    method LexWords(words: seq<string>) returns (toks: seq<Token>)
      modifies diagnostics
      ensures toks == LexedTokens(words)
      ensures diagnostics.Snapshot() == LexWordsLog(old(diagnostics.Snapshot()), currentLine, words)
    {
      toks := [];
      var i := 0;
      while i < |words|
        invariant 0 <= i <= |words|
        invariant toks == LexedTokens(words[..i])
        invariant diagnostics.Snapshot() == LexWordsLog(old(diagnostics.Snapshot()), currentLine, words[..i])
      {
        var t := LexWord(words[i]);
        if t.Some? {
          toks := toks + [t.value];
        }
        LexWordsStep(old(diagnostics.Snapshot()), currentLine, words, i);
        i := i + 1;
      }
      assert words[..i] == words;
    }

    method PushInstructionAndLine(instr: Instruction, arg: AsmArgument)
      modifies this
      ensures State() == PushSpec(old(State()), instr, arg)
    {
      if instr.operation == End && firstEnd.None? {
        firstEnd := Some(currentLine);
      }
      parseTree := parseTree.(instructionLines := parseTree.instructionLines.Set(currentLine, AsmInstruction(instr, arg, currentLine)));
    }

    /** `try_val_instruction`. */
    method TryVal(entry: CodedInstruction, tok: Token) returns (accepted: bool)
      requires entry.instruction.argType == Val
      modifies this, diagnostics
      ensures accepted <==> Accept(Val, tok, settings.jumpAddress).Some?
      ensures !accepted ==> State() == old(State())
      ensures accepted ==> State() == ChosenSpec(old(State()), settings, entry, Accept(Val, tok, settings.jumpAddress).value.0, false)
    {
      accepted := false;
      if tok.Integer? {
        PushInstructionAndLine(entry.instruction, AsmValue(tok.n));
        accepted := true;
      }
    }

    /** `try_adr_instruction`, with the alias looked up by its lower-case spelling. */
    method TryAdr(entry: CodedInstruction, tok: Token) returns (accepted: bool)
      requires entry.instruction.argType in {AdrSrc, AdrDst}
      modifies this, diagnostics
      ensures accepted <==> AcceptAddress(tok).Some?
      ensures !accepted ==> State() == old(State())
      ensures accepted ==> State() == ChosenSpec(old(State()), settings, entry, AcceptAddress(tok).value.0, false)
    {
      accepted := false;
      if tok.Address? {
        PushInstructionAndLine(entry.instruction, AsmAddress(tok.n));
        accepted := true;
      } else if tok.Identifier? && AliasOf(tok.name).Some? {
        PushInstructionAndLine(entry.instruction, AsmAddress(AliasOf(tok.name).value));
        accepted := true;
      }
    }

    /** `try_tar_instruction`. */
    method TryTar(entry: CodedInstruction, tok: Token) returns (accepted: bool)
      requires entry.instruction.argType == Tar
      modifies this, diagnostics
      ensures accepted <==> Accept(Tar, tok, settings.jumpAddress).Some?
      ensures !accepted ==> State() == old(State())
      ensures accepted ==> var a := Accept(Tar, tok, settings.jumpAddress).value;
        State() == ChosenSpec(old(State()), settings, entry, a.0, a.1)
    {
      accepted := false;
      if tok.LineNum? {
        PushInstructionAndLine(entry.instruction, AsmLineNumber(tok.n));
        accepted := true;
      } else if tok.Identifier? {
        PushInstructionAndLine(entry.instruction, AsmIdentifier(tok.name));
        accepted := true;
      } else if settings.jumpAddress && tok.Address? {
        diagnostics.Extension(currentLine, "Address targets are an extension.", true);
        PushInstructionAndLine(entry.instruction, AsmAddress(tok.n));
        accepted := true;
      }
    }

    /** `try_unary_instruction`: the acceptor for the entry's argument kind. */
    method TryUnary(entry: CodedInstruction, tok: Token) returns (accepted: bool)
      modifies this, diagnostics
      ensures var a := Accept(entry.instruction.argType, tok, settings.jumpAddress);
        && (accepted <==> a.Some?)
        && (!accepted ==> State() == old(State()))
        && (accepted ==> State() == ChosenSpec(old(State()), settings, entry, a.value.0, a.value.1))
    {
      match entry.instruction.argType
      case Val => accepted := TryVal(entry, tok);
      case AdrSrc => accepted := TryAdr(entry, tok);
      case AdrDst => accepted := TryAdr(entry, tok);
      case Tar => accepted := TryTar(entry, tok);
      case NoArg => accepted := false;
    }

    /** `interpret_instruction`: a lone mnemonic records its argument-less entry;
        with one argument the entries taking an argument are tried in catalog
        order; anything else is an error. */
    method InterpretInstruction(toks: seq<Token>)
      modifies this, diagnostics
      ensures State() == InstructionSpec(old(State()), settings, realMnemonics, toks)
    {
      if |toks| < 1 {
        return;
      }
      if !IsMnemonic(realMnemonics, toks[0]) {
        diagnostics.Error(currentLine, "First token is not a mnemonic.");
        return;
      }
      InterpretArguments(Matching(realMnemonics[toks[0].name]), toks[1..]);
    }

    /** The rest of `interpret_instruction`, once the mnemonic has given the
        operation's catalog entries: `args` are the tokens after the mnemonic. */
    method InterpretArguments(matching: seq<CodedInstruction>, args: seq<Token>)
      modifies this, diagnostics
      ensures State() == SelectionSpec(old(State()), settings, SelectAmong(matching, settings.jumpAddress, args))
    {
      var nullary := FirstNullary(matching);
      if |args| == 0 && nullary.Some? {
        if nullary.value.instruction.operation == Nop {
          diagnostics.Extension(currentLine, "NOP is an extension.", settings.nop);
        }
        PushInstructionAndLine(nullary.value.instruction, NoArgument);
        return;
      }
      var unary := WithArgument(matching);
      if |args| == 1 && |unary| > 0 {
        var i := 0;
        while i < |unary|
          invariant 0 <= i <= |unary|
          invariant State() == old(State())
          invariant forall j :: 0 <= j < i ==> Accept(unary[j].instruction.argType, args[0], settings.jumpAddress).None?
        {
          var accepted := TryUnary(unary[i], args[0]);
          if accepted {
            FirstAcceptingAt(unary, args[0], settings.jumpAddress, i);
            return;
          }
          i := i + 1;
        }
      }
      if |args| > 1 {
        diagnostics.Error(currentLine, "Superfluous token found.");
      } else if |args| == 0 && nullary.None? {
        diagnostics.Error(currentLine, "Missing argument.");
      } else {
        diagnostics.Error(currentLine, "Wrong token found.");
      }
    }

    /** `interpret_labels`: each label is stored, lower-cased, under the current
        line; a redefinition is an error, and a token that is not a label
        definition is an error that ends the line's labels. */
    method InterpretLabels(toks: seq<Token>)
      modifies this, diagnostics
      ensures State() == LabelsSpec(old(State()), toks)
    {
      var i := 0;
      while i < |toks|
        invariant 0 <= i <= |toks|
        invariant LabelsSpec(State(), toks[i..]) == LabelsSpec(old(State()), toks)
      {
        var t := toks[i];
        assert toks[i..][0] == t && toks[i..][1..] == toks[i + 1..];
        if !t.LabelDef? {
          diagnostics.Error(currentLine, "Different token after label definition.");
          return;
        }
        var canonical := ToLower(t.name);
        if parseTree.labels.Has(canonical) {
          diagnostics.Error(currentLine, "Redefinition of label.");
        }
        parseTree := parseTree.(labels := parseTree.labels.Set(canonical, currentLine));
        i := i + 1;
      }
    }

    /** `interpret_line`. */
    method InterpretLine(toks: seq<Token>)
      modifies this, diagnostics
      ensures State() == LineSpec(old(State()), settings, realMnemonics, toks)
    {
      var idx := FirstLabel(toks);
      var instruction := DropWhite(toks[..idx]);
      var labels := toks[idx..];
      if |instruction| > 0 && |toks| > 0 && toks[0].White? {
        diagnostics.Extension(currentLine, "Whitespace before mnemonics is an extension.", settings.initialWhite);
      }
      if |instruction| == 0 && |labels| > 0 {
        diagnostics.Extension(currentLine, "Labels on empty lines are an extension.", settings.emptyLineJumps);
      }
      if |labels| > 1 {
        diagnostics.Extension(currentLine, "Multiple labels per line are an extension.", settings.multipleLabels);
      }
      InterpretInstruction(instruction);
      InterpretLabels(labels);
    }

    /** `parse`: each line of the code in turn, numbered from one. */
    method ParseCode(code: string)
      modifies this, diagnostics
      ensures State() == ParseLines(old(State()), settings, realMnemonics, Lines(code))
    {
      var lines := Lines(code);
      var i := 0;
      while i < |lines|
        invariant 0 <= i <= |lines|
        invariant State() == ParseLines(old(State()), settings, realMnemonics, lines[..i])
      {
        ParseLine(lines[i]);
        ParseLinesStep(old(State()), settings, realMnemonics, lines, i);
        i := i + 1;
      }
      assert lines[..i] == lines;
    }

    /** The body of `parse`'s loop: the next line, without its comment. */
    method ParseLine(line: string)
      modifies this, diagnostics
      ensures State() == LineStep(old(State()), settings, realMnemonics, line)
    {
      currentLine := currentLine + 1;
      var text := BeforeComment(line);
      var toks := LexLine(text);
      InterpretLine(toks);
    }
  }

  // ---------------------------------------------------------------------------
  // What parsing guarantees

  /** The first `end` among the recorded instructions is at `firstEnd`; without
      `firstEnd` there is no `end` at all. */
  ghost predicate EndTracked(lines: OMap<int, AsmInstruction>, firstEnd: Option<int>) {
    match firstEnd
    case None => forall k :: k in lines.entries ==> lines.entries[k].instruction.operation != End
    case Some(e) =>
      && e in lines.entries && lines.entries[e].instruction.operation == End
      && forall k :: k in lines.entries && k < e ==> lines.entries[k].instruction.operation != End
  }

  /** The parser's invariant: instructions are recorded in increasing line
      order, each under its own line, each a catalog instruction with an argument
      of its kind; `firstEnd` tracks the first `end`; labels are lower-case and
      name lines already read. */
  ghost predicate WellFormed(st: PState) {
    var lines := st.tree.instructionLines;
    var labels := st.tree.labels;
    && lines.Valid() && labels.Valid()
    && (forall i, j :: 0 <= i < j < |lines.keys| ==> lines.keys[i] < lines.keys[j])
    && (forall k :: k in lines.entries ==> 1 <= k <= st.line && lines.entries[k].line == k && Encodable(lines.entries[k]))
    && EndTracked(lines, st.firstEnd)
    && (forall n :: n in labels.entries ==> IsLower(n) && 1 <= labels.entries[n] <= st.line)
  }

  /** The fresh parser is well formed. */
  lemma StartWellFormed()
    ensures WellFormed(Start)
    ensures Start.tree.instructionLines.keys == [] && Start.tree.labels.keys == []
    ensures !Start.log.errorState && Start.log.messages == []
  {
  }

  /** Recording an instruction of the catalog under a line after all recorded
      ones keeps the invariant and appends that line to the recorded order. */
  lemma PushFacts(st: PState, instr: Instruction, arg: AsmArgument)
    requires WellFormed(st) && st.line >= 1
    requires forall k :: k in st.tree.instructionLines.entries ==> k < st.line
    requires Encodable(AsmInstruction(instr, arg, st.line))
    ensures var r := PushSpec(st, instr, arg);
      && WellFormed(r)
      && r.line == st.line && r.tree.labels == st.tree.labels && r.log == st.log
      && r.tree.instructionLines.entries == st.tree.instructionLines.entries[st.line := AsmInstruction(instr, arg, st.line)]
      && r.tree.instructionLines.keys == st.tree.instructionLines.keys + [st.line]
  {
    var lines := st.tree.instructionLines;
    var rl := PushSpec(st, instr, arg).tree.instructionLines;
    assert st.line !in lines.entries;
    forall i, j | 0 <= i < j < |rl.keys| ensures rl.keys[i] < rl.keys[j] {
      if j == |lines.keys| {
        assert rl.keys[i] == lines.keys[i] && lines.keys[i] in lines.entries;
      }
    }
  }

  /** Interpreting the instruction part of a line records exactly the selected
      entry under the current line and nothing else; every refusal records
      nothing and raises one error. */
  lemma InstructionSpecFacts(st: PState, settings: Settings, mnemonics: map<string, Operation>, toks: seq<Token>)
    requires WellFormed(st) && st.line >= 1
    requires forall k :: k in st.tree.instructionLines.entries ==> k < st.line
    ensures var r := InstructionSpec(st, settings, mnemonics, toks);
      var s := Select(mnemonics, settings.jumpAddress, toks);
      && WellFormed(r)
      && r.line == st.line && r.tree.labels == st.tree.labels
      && st.log.GrowsTo(r.log)
      && (s.Chosen? ==>
          && r.tree.instructionLines.entries == st.tree.instructionLines.entries[st.line := AsmInstruction(s.entry.instruction, s.argument, st.line)]
          && r.tree.instructionLines.keys == st.tree.instructionLines.keys + [st.line])
      && (!s.Chosen? ==> r.tree == st.tree && r.firstEnd == st.firstEnd)
      && (!s.Chosen? && s != NoTokens ==> r.log.errorState && |r.log.messages| == |st.log.messages| + 1)
      && (s == NoTokens ==> r == st)
  {
    var s := Select(mnemonics, settings.jumpAddress, toks);
    if s.Chosen? {
      SelectChosen(mnemonics, settings.jumpAddress, toks);
      CodingRoundTrip(s.entry);
      AdmitsIsCatalog(s.entry.instruction);
      ChosenFacts(st, settings, s.entry, s.argument, s.addressTarget);
    } else {
      Diag.RaisesGrow(st.log, st.line, "", false);
    }
  }

  lemma ChosenFacts(st: PState, settings: Settings, e: CodedInstruction, arg: AsmArgument, addressTarget: bool)
    requires WellFormed(st) && st.line >= 1
    requires forall k :: k in st.tree.instructionLines.entries ==> k < st.line
    requires Admits(e.instruction.operation, e.instruction.argType) && Fits(e.instruction.argType, arg, addressTarget)
    ensures var r := ChosenSpec(st, settings, e, arg, addressTarget);
      && WellFormed(r)
      && r.line == st.line && r.tree.labels == st.tree.labels
      && st.log.GrowsTo(r.log)
      && r.tree.instructionLines.entries == st.tree.instructionLines.entries[st.line := AsmInstruction(e.instruction, arg, st.line)]
      && r.tree.instructionLines.keys == st.tree.instructionLines.keys + [st.line]
  {
    var l := st.log;
    Diag.RaisesGrow(l, st.line, "NOP is an extension.", settings.nop);
    Diag.RaisesGrow(l, st.line, "Address targets are an extension.", true);
    var l1 :=
      if e.instruction == Instruction(Nop, NoArg) then l.Extension(st.line, "NOP is an extension.", settings.nop)
      else if addressTarget then l.Extension(st.line, "Address targets are an extension.", true)
      else l;
    PushFacts(st.(log := l1), e.instruction, arg);
  }

  /** Interpreting the label part of a line defines labels as `DefineLabels`
      does, and touches neither the instructions nor the line number. */
  lemma {:induction false} LabelsSpecFacts(st: PState, toks: seq<Token>)
    requires WellFormed(st) && st.line >= 1
    ensures var r := LabelsSpec(st, toks);
      && WellFormed(r)
      && r.line == st.line && r.firstEnd == st.firstEnd
      && r.tree.instructionLines == st.tree.instructionLines
      && r.tree.labels == DefineLabels(st.tree.labels, st.line, toks).0
      && |r.log.messages| == |st.log.messages| + |DefineLabels(st.tree.labels, st.line, toks).1|
      && st.log.GrowsTo(r.log)
      && (DefineLabels(st.tree.labels, st.line, toks).1 != [] ==> r.log.errorState)
    decreases |toks|
  {
    if toks == [] {
      Diag.RaisesGrow(st.log, st.line, "", false);
    } else if !toks[0].LabelDef? {
      Diag.RaisesGrow(st.log, st.line, "Different token after label definition.", false);
    } else {
      var name := ToLower(toks[0].name);
      ToLowerFacts(toks[0].name);
      var log := if st.tree.labels.Has(name) then st.log.Error(st.line, "Redefinition of label.") else st.log;
      var next := st.(tree := st.tree.(labels := st.tree.labels.Set(name, st.line)), log := log);
      Diag.RaisesGrow(st.log, st.line, "Redefinition of label.", false);
      assert WellFormed(next);
      LabelsSpecFacts(next, toks[1..]);
      Diag.GrowsTransitive(st.log, log, LabelsSpec(next, toks[1..]).log);
      var rest := DefineLabels(next.tree.labels, st.line, toks[1..]);
      if st.tree.labels.Has(name) {
        Diag.AppendFacts(st.log, st.log, st.log);
        assert LabelsSpec(next, toks[1..]).log.errorState by {
          assert log.errorState;
          assert log.GrowsTo(LabelsSpec(next, toks[1..]).log);
        }
      }
    }
  }

  /** Interpreting the tokens of a line keeps the invariant, adds at most the
      instruction of the current line, keeps every label and only adds
      diagnostics. */
  lemma LineSpecFacts(st: PState, settings: Settings, mnemonics: map<string, Operation>, toks: seq<Token>)
    requires WellFormed(st) && st.line >= 1
    requires forall k :: k in st.tree.instructionLines.entries ==> k < st.line
    ensures var r := LineSpec(st, settings, mnemonics, toks);
      var old_lines := st.tree.instructionLines;
      && WellFormed(r)
      && r.line == st.line
      && st.log.GrowsTo(r.log)
      && (r.tree.instructionLines.keys == old_lines.keys || r.tree.instructionLines.keys == old_lines.keys + [st.line])
      && (forall k :: k in old_lines.entries ==> k in r.tree.instructionLines.entries && r.tree.instructionLines.entries[k] == old_lines.entries[k])
      && (forall n :: n in st.tree.labels.entries ==> n in r.tree.labels.entries)
  {
    var idx := FirstLabel(toks);
    var instruction := DropWhite(toks[..idx]);
    var labels := toks[idx..];
    var log := LineShapeLog(st.log, st.line, settings, |toks| > 0 && toks[0].White?, instruction, labels);
    LineShapeGrows(st.log, st.line, settings, |toks| > 0 && toks[0].White?, instruction, labels);
    var s1 := st.(log := log);
    InstructionSpecFacts(s1, settings, mnemonics, instruction);
    var s2 := InstructionSpec(s1, settings, mnemonics, instruction);
    LabelsSpecFacts(s2, labels);
    Diag.GrowsTransitive(st.log, log, s2.log);
    Diag.GrowsTransitive(st.log, s2.log, LabelsSpec(s2, labels).log);
    DefineLabelsFacts(s2.tree.labels, st.line, labels);
  }

  lemma LineShapeGrows(log: Diag.Log, line: int, settings: Settings, white: bool, instruction: seq<Token>, labels: seq<Token>)
    ensures log.GrowsTo(LineShapeLog(log, line, settings, white, instruction, labels))
  {
    var log1 :=
      if |instruction| > 0 && white then log.Extension(line, "Whitespace before mnemonics is an extension.", settings.initialWhite)
      else log;
    var log2 :=
      if |instruction| == 0 && |labels| > 0 then log1.Extension(line, "Labels on empty lines are an extension.", settings.emptyLineJumps)
      else log1;
    Diag.RaisesGrow(log, line, "Whitespace before mnemonics is an extension.", settings.initialWhite);
    Diag.RaisesGrow(log1, line, "Labels on empty lines are an extension.", settings.emptyLineJumps);
    Diag.RaisesGrow(log2, line, "Multiple labels per line are an extension.", settings.multipleLabels);
    Diag.GrowsTransitive(log, log1, log2);
    Diag.GrowsTransitive(log, log2, LineShapeLog(log, line, settings, white, instruction, labels));
  }

  /** One line keeps the invariant, advances the line number by one, adds at
      most the instruction of that line (at the end of the recorded order), keeps
      every label and never loses a message or clears the error state. */
  lemma LineStepFacts(st: PState, settings: Settings, mnemonics: map<string, Operation>, text: string)
    requires WellFormed(st) && st.line >= 0
    ensures var r := LineStep(st, settings, mnemonics, text);
      var old_lines := st.tree.instructionLines;
      && WellFormed(r)
      && r.line == st.line + 1
      && st.log.GrowsTo(r.log)
      && (r.tree.instructionLines.keys == old_lines.keys || r.tree.instructionLines.keys == old_lines.keys + [st.line + 1])
      && (forall k :: k in old_lines.entries ==> k in r.tree.instructionLines.entries && r.tree.instructionLines.entries[k] == old_lines.entries[k])
      && (forall n :: n in st.tree.labels.entries ==> n in r.tree.labels.entries)
  {
    var code := BeforeComment(text);
    WordsStepFacts(st, settings, mnemonics, Words(code), Lexing.LexLine(code));
  }

  /** `LineStepFacts` for any words and tokens. */
  lemma WordsStepFacts(st: PState, settings: Settings, mnemonics: map<string, Operation>, words: seq<string>, toks: seq<Token>)
    requires WellFormed(st) && st.line >= 0
    ensures var r := WordsStep(st, settings, mnemonics, words, toks);
      var old_lines := st.tree.instructionLines;
      && WellFormed(r)
      && r.line == st.line + 1
      && st.log.GrowsTo(r.log)
      && (r.tree.instructionLines.keys == old_lines.keys || r.tree.instructionLines.keys == old_lines.keys + [st.line + 1])
      && (forall k :: k in old_lines.entries ==> k in r.tree.instructionLines.entries && r.tree.instructionLines.entries[k] == old_lines.entries[k])
      && (forall n :: n in st.tree.labels.entries ==> n in r.tree.labels.entries)
  {
    var lexed := Lexed(st, words);
    LexedFacts(st, words);
    LineSpecFacts(lexed, settings, mnemonics, toks);
    Diag.GrowsTransitive(st.log, lexed.log, LineSpec(lexed, settings, mnemonics, toks).log);
  }

  /** Lexing the next line's words keeps the invariant, moves to the next line
      and only grows the log. */
  lemma LexedFacts(st: PState, words: seq<string>)
    requires WellFormed(st) && st.line >= 0
    ensures var r := Lexed(st, words);
      && WellFormed(r) && r.line == st.line + 1 && r.tree == st.tree && st.log.GrowsTo(r.log)
      && (forall k :: k in r.tree.instructionLines.entries ==> k < r.line)
  {
    var log := LexWordsLog(st.log, st.line + 1, words);
    assert Lexed(st, words) == st.(line := st.line + 1, log := log);
    LexWordsGrow(st.log, st.line + 1, words);
    NextLine(st, log);
  }

  /** Moving to the next line keeps the invariant, and no instruction is
      recorded under the new line yet. */
  lemma NextLine(st: PState, log: Diag.Log)
    requires WellFormed(st) && st.line >= 0
    ensures WellFormed(st.(line := st.line + 1, log := log))
    ensures forall k :: k in st.tree.instructionLines.entries ==> k < st.line + 1
  {
  }

  /** The diagnostics of lexing only grow. */
  lemma {:induction false} LexWordsGrow(log: Diag.Log, line: int, words: seq<string>)
    ensures log.GrowsTo(LexWordsLog(log, line, words))
  {
    if words == [] {
      Diag.RaisesGrow(log, line, "", false);
    } else {
      var prev := LexWordsLog(log, line, words[..|words| - 1]);
      LexWordsGrow(log, line, words[..|words| - 1]);
      Diag.RaisesGrow(prev, line, "Number too low to represent.", false);
      Diag.RaisesGrow(prev, line, "Number too high to represent.", false);
      var w := words[|words| - 1];
      if Lexing.LexWord(w).Malformed? {
        Diag.RaisesGrow(prev, line, InvalidMessage(Lexing.LexWord(w).kind), false);
      }
      Diag.GrowsTransitive(log, prev, LexWordLog(prev, line, w));
    }
  }

  /** Parsing lines one after another keeps the invariant, numbers the lines
      from the starting line on and only adds diagnostics. */
  lemma {:induction false} ParseLinesFacts(st: PState, settings: Settings, mnemonics: map<string, Operation>, lines: seq<string>)
    requires WellFormed(st) && st.line >= 0
    ensures var r := ParseLines(st, settings, mnemonics, lines);
      && WellFormed(r)
      && r.line == st.line + |lines|
      && st.log.GrowsTo(r.log)
  {
    if lines == [] {
      Diag.RaisesGrow(st.log, 0, "", false);
    } else {
      var prev := ParseLines(st, settings, mnemonics, lines[..|lines| - 1]);
      ParseLinesFacts(st, settings, mnemonics, lines[..|lines| - 1]);
      LineStepFacts(prev, settings, mnemonics, lines[|lines| - 1]);
      Diag.GrowsTransitive(st.log, prev.log, ParseLines(st, settings, mnemonics, lines).log);
    }
  }

  /** A whole parse ends well formed, on line number `n` for code of `n` lines
      (one more than its newlines), and every recorded instruction and label
      lies on one of those lines. */
  lemma ParseFacts(settings: Settings, code: string)
    ensures var r := ParseSpec(settings, code);
      && WellFormed(r)
      && r.line == |Lines(code)| == Count('\n', code) + 1
  {
    StartWellFormed();
    ParseLinesFacts(Start, settings, RealMnemonics(settings.replaceMnemonics), Lines(code));
    LinesCount(code);
  }

  /** Only the text before the first `;` of a line matters. */
  lemma CommentIgnored(st: PState, settings: Settings, mnemonics: map<string, Operation>, a: string, b: string)
    requires ';' !in a
    ensures LineStep(st, settings, mnemonics, a + ";" + b) == LineStep(st, settings, mnemonics, a)
  {
    CommentCut(a, b);
  }

  /** A malformed word is dropped with one error naming its class; a numeric
      token is kept whatever its value, with one error when it is outside the
      representable range. */
  lemma LexWordDiagnostics(log: Diag.Log, line: int, word: string)
    ensures Lexing.LexWord(word).Malformed? ==>
      LexWordLog(log, line, word) == log.Error(line, InvalidMessage(Lexing.LexWord(word).kind))
    ensures Lexing.LexWord(word).Lexed? && IsNumeric(Lexing.LexWord(word).token) ==>
      var n := Lexing.LexWord(word).token.n;
      && (n < MOPS_MIN_INTEGER ==> LexWordLog(log, line, word) == log.Error(line, "Number too low to represent."))
      && (n > MOPS_MAX_INTEGER ==> LexWordLog(log, line, word) == log.Error(line, "Number too high to represent."))
      && (MOPS_MIN_INTEGER <= n <= MOPS_MAX_INTEGER ==> LexWordLog(log, line, word) == log)
    ensures Lexing.LexWord(word).Lexed? && !IsNumeric(Lexing.LexWord(word).token) ==> LexWordLog(log, line, word) == log
  {
  }
}
