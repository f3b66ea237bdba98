/** The original single-object assembler (src/assembler.ts): one `Assembler`
    parses, compiles and links into one build whose error flag and diagnostics
    all three phases share. It makes the same decisions as the staged assembler
    about words, instructions, labels and bytes (the functions of `Lexing` and
    `Compiler` are reused), but reports them differently: a diagnostic is a
    kind and a numeric severity, a parse error blocks every byte, an indented
    line is refused, and a jump to a line without code is resolved to a line
    number. */
module Legacy {
  import opened Wrappers
  import opened Text
  import opened OrderedMaps
  import opened Platform
  import Diag
  import opened AsmTypes
  import opened Lexing
  import Parser
  import Compiler
  import Linker

  /** `AsmDiagnosticType`. */
  datatype DiagType =
    | Internal | InvalidToken | MissingToken | SuperfluousToken | Ambiguous | Redefinition
    | FlowPastEnd | CodePastEnd | NopExtension | ProgramTooLarge | InvalidArgument

  /** The values of `AsmDiagnosticSeverity`. */
  const INFO: int := 0
  const EXTENSION: int := 1
  const ERROR: int := 2

  /** The severity is a number: `raise_err` can store a line number there. */
  datatype AsmDiagnostic = AsmDiagnostic(nearLine: int, severity: int, kind: DiagType)

  /** The assembler's state at one moment: the parser's line, tree and first
      `end`, and the build (error flag, diagnostics, bytes, line offsets and
      placeholders). */
  datatype AState = AState(
    line: int,
    tree: ParseTree,
    firstEnd: Option<int>,
    hasError: bool,
    diagnostics: seq<AsmDiagnostic>,
    exe: seq<Option<int>>,
    lineOffsets: OMap<int, int>,
    linkTable: OMap<int, LinkEntry>)

  /** A new assembler. */
  const Initial: AState := AState(0, EmptyTree(), None, false, [], [], Empty(), Empty())

  /** `b` holds all of `a`'s diagnostics first and keeps its error flag. */
  predicate Kept(a: AState, b: AState) {
    a.diagnostics <= b.diagnostics && (a.hasError ==> b.hasError)
  }

  lemma KeptTransitive(a: AState, b: AState, c: AState)
    requires Kept(a, b) && Kept(b, c)
    ensures Kept(a, c)
  {
  }

  // ---------------------------------------------------------------------------
  // Raising diagnostics

  /** `raise_info`: near the given line, or the current one. */
  function InfoSpec(st: AState, kind: DiagType, near: Option<int>): AState {
    st.(diagnostics := st.diagnostics + [AsmDiagnostic(near.GetOr(st.line), INFO, kind)])
  }

  /** `raise_err`: always near the current line; the optional argument becomes
      the severity. */
  function ErrSpec(st: AState, kind: DiagType, near: Option<int>): AState {
    st.(diagnostics := st.diagnostics + [AsmDiagnostic(st.line, near.GetOr(ERROR), kind)], hasError := true)
  }

  /** `raise_strict`: an extension when allowed, otherwise an error. */
  function StrictSpec(st: AState, kind: DiagType, allow: bool, near: Option<int>): AState {
    st.(diagnostics := st.diagnostics + [AsmDiagnostic(near.GetOr(st.line), if allow then EXTENSION else ERROR, kind)],
        hasError := st.hasError || !allow)
  }

  /** Each raise appends one diagnostic and changes nothing else but the flag:
      `raise_info` never touches it, `raise_err` always sets it and files the
      diagnostic under the current line whatever it is given, and `raise_strict`
      sets it exactly when the extension is not allowed. */
  lemma RaiseFacts(st: AState, kind: DiagType, allow: bool, near: Option<int>)
    ensures var r := InfoSpec(st, kind, near);
      r.diagnostics == st.diagnostics + [AsmDiagnostic(near.GetOr(st.line), INFO, kind)] && r.hasError == st.hasError
      && r == st.(diagnostics := r.diagnostics)
    ensures var r := ErrSpec(st, kind, near);
      && r.hasError && |r.diagnostics| == |st.diagnostics| + 1 && Kept(st, r)
      && r.diagnostics[|st.diagnostics|].nearLine == st.line
      && (near.Some? ==> r.diagnostics[|st.diagnostics|].severity == near.value)
      && (near.None? ==> r.diagnostics[|st.diagnostics|].severity == ERROR)
      && r == st.(diagnostics := r.diagnostics, hasError := true)
    ensures var r := StrictSpec(st, kind, allow, near);
      && (r.hasError <==> st.hasError || !allow) && |r.diagnostics| == |st.diagnostics| + 1 && Kept(st, r)
      && r.diagnostics[|st.diagnostics|].severity == (if allow then EXTENSION else ERROR)
      && r == st.(diagnostics := r.diagnostics, hasError := r.hasError)
  {
  }

  // ---------------------------------------------------------------------------
  // Parsing

  /** `lex_word`: a malformed word is dropped with an `invalid_token` error;
      numbers are not range-checked. */
  function LexWordSpec(st: AState, word: string): AState {
    if LexWord(word).Malformed? then ErrSpec(st, InvalidToken, None) else st
  }

  /** The diagnostics `lex_line` raises for the words of a line, in order. */
  function LexWordsSpec(st: AState, words: seq<string>): AState {
    if words == [] then st
    else LexWordSpec(LexWordsSpec(st, words[..|words| - 1]), words[|words| - 1])
  }

  /** One more word of a line, as `lex_line`'s loop takes it. */
  lemma LexStep(st: AState, words: seq<string>, i: int)
    requires 0 <= i < |words|
    ensures LexWordsSpec(st, words[..i + 1]) == LexWordSpec(LexWordsSpec(st, words[..i]), words[i])
    ensures LexedTokens(words[..i + 1]) == LexedTokens(words[..i]) + (if LexWord(words[i]).Lexed? then [LexWord(words[i]).token] else [])
  {
    assert words[..i + 1][..i] == words[..i];
  }

  /** How many of the words are malformed. */
  function MalformedCount(words: seq<string>): nat {
    if words == [] then 0
    else MalformedCount(words[..|words| - 1]) + (if LexWord(words[|words| - 1]).Malformed? then 1 else 0)
  }

  /** `push_instruction_and_line`. */
  function PushSpec(st: AState, instr: Instruction, arg: AsmArgument): AState {
    var firstEnd := if instr.operation == End && st.firstEnd.None? then Some(st.line) else st.firstEnd;
    var lines := st.tree.instructionLines.Set(st.line, AsmInstruction(instr, arg, st.line));
    st.(tree := st.tree.(instructionLines := lines), firstEnd := firstEnd)
  }

  /** Recording a selected entry: `nop` is a strict `nop_extension`, an address
      used as a jump target an allowed `invalid_token`. */
  function ChosenSpec(st: AState, settings: Settings, e: CodedInstruction, arg: AsmArgument, addressTarget: bool): AState {
    var st1 :=
      if e.instruction == Instruction(Nop, NoArg) then StrictSpec(st, NopExtension, settings.nop, None)
      else if addressTarget then StrictSpec(st, InvalidToken, true, None)
      else st;
    PushSpec(st1, e.instruction, arg)
  }

  /** What the outcome of selecting an entry does: a first token that is not a
      mnemonic is a `missing_token`, more than one argument a
      `superfluous_token`, any other refusal an `invalid_token`. */
  function SelectionSpec(st: AState, settings: Settings, s: Selection): AState {
    match s
    case NoTokens => st
    case NotMnemonic => ErrSpec(st, MissingToken, None)
    case Chosen(e, arg, addressTarget) => ChosenSpec(st, settings, e, arg, addressTarget)
    case Superfluous => ErrSpec(st, SuperfluousToken, None)
    case MissingArgument => ErrSpec(st, InvalidToken, None)
    case WrongToken => ErrSpec(st, InvalidToken, None)
  }

  /** `interpret_instruction`. */
  function InstructionSpec(st: AState, settings: Settings, mnemonics: map<string, Operation>, toks: seq<Token>): AState {
    SelectionSpec(st, settings, Select(mnemonics, settings.jumpAddress, toks))
  }

  /** `interpret_labels`. */
  function LabelsSpec(st: AState, toks: seq<Token>): AState
    decreases |toks|
  {
    if toks == [] then st
    else if !toks[0].LabelDef? then ErrSpec(st, SuperfluousToken, None)
    else
      var name := ToLower(toks[0].name);
      var st1 := if st.tree.labels.Has(name) then ErrSpec(st, Redefinition, None) else st;
      LabelsSpec(st1.(tree := st1.tree.(labels := st1.tree.labels.Set(name, st.line))), toks[1..])
  }

  /** `interpret_line`: everything before the first label definition, the
      white-space marker included, is the instruction part. */
  function LineSpec(st: AState, settings: Settings, mnemonics: map<string, Operation>, toks: seq<Token>): AState {
    var idx := FirstLabel(toks);
    var instruction := toks[..idx];
    var labels := toks[idx..];
    LabelsSpec(InstructionSpec(ShapeSpec(st, settings, instruction, labels), settings, mnemonics, instruction), labels)
  }

  /** The strict diagnostics `interpret_line` raises about the shape of a line:
      labels without an instruction, several labels. */
  function ShapeSpec(st: AState, settings: Settings, instruction: seq<Token>, labels: seq<Token>): AState {
    var st1 := if |instruction| == 0 && |labels| > 0 then StrictSpec(st, SuperfluousToken, settings.emptyLineJumps, None) else st;
    if |labels| > 1 then StrictSpec(st1, SuperfluousToken, settings.multipleLabels, None) else st1
  }

  /** An iteration of `parse` on a line's words and tokens. */
  function LineStep(st: AState, settings: Settings, mnemonics: map<string, Operation>, words: seq<string>, toks: seq<Token>): AState {
    LineSpec(Lexed(st, words), settings, mnemonics, toks)
  }

  /** The state once the next line's words are lexed. */
  function Lexed(st: AState, words: seq<string>): AState {
    LexWordsSpec(st.(line := st.line + 1), words)
  }

  /** Parsing one more line is one more iteration. */
  lemma ParseLinesStep(st: AState, settings: Settings, mnemonics: map<string, Operation>, lines: seq<string>, i: int)
    requires 0 <= i < |lines|
    ensures ParseLines(st, settings, mnemonics, lines[..i + 1]) == CodeStep(ParseLines(st, settings, mnemonics, lines[..i]), settings, mnemonics, BeforeComment(lines[i]))
  {
    assert lines[..i + 1][..i] == lines[..i];
  }

  /** An iteration of `parse` on a line without its comment. */
  function CodeStep(st: AState, settings: Settings, mnemonics: map<string, Operation>, code: string): AState {
    LineStep(st, settings, mnemonics, Words(code), Lexing.LexLine(code))
  }

  /** `parse` over the given lines, in order. */
  function ParseLines(st: AState, settings: Settings, mnemonics: map<string, Operation>, lines: seq<string>): AState {
    if lines == [] then st
    else
      var prev := ParseLines(st, settings, mnemonics, lines[..|lines| - 1]);
      CodeStep(prev, settings, mnemonics, BeforeComment(lines[|lines| - 1]))
  }

  // ---------------------------------------------------------------------------
  // Compiling

  /** The build as the compile loop of the staged compiler sees it: emission is
      blocked by the shared error flag. */
  function BuildOf(st: AState): Compiler.CState {
    Compiler.CState(st.exe, st.lineOffsets, st.linkTable, Diag.Log([], st.hasError))
  }

  function WithBuild(st: AState, cs: Compiler.CState): AState {
    st.(exe := cs.exe, lineOffsets := cs.lineOffsets, linkTable := cs.linkTable)
  }

  /** What `compile` relies on: a tree of catalog instructions keyed by their
      lines, with the first `end` among them. */
  ghost predicate CompileReady(st: AState) {
    Compiler.Compilable(st.tree) && (st.firstEnd.Some? ==> st.firstEnd.value in st.tree.instructionLines.entries)
  }

  /** The label loop of `compile`: an `invalid_token` error for every label
      after the last instruction's line. */
  function LabelChecks(st: AState, labelLines: seq<int>, lastLine: int): AState {
    if labelLines == [] then st
    else
      var prev := LabelChecks(st, labelLines[..|labelLines| - 1], lastLine);
      if labelLines[|labelLines| - 1] > lastLine then ErrSpec(prev, InvalidToken, None) else prev
  }

  /** `compile` throws when it needs the last instruction and there is none. */
  datatype Outcome = Crashed | Done(state: AState)

  /** The instruction loop of `compile` over the tree's instructions, on the
      assembler's build. */
  function CompileLoop(st: AState, settings: Settings, tree: ParseTree): AState
    requires Compiler.Compilable(tree)
  {
    Compiler.InstructionsEncodable(tree);
    WithBuild(st, Compiler.CompileAll(BuildOf(st), settings, tree.labels, st.firstEnd, tree.instructionLines.Values()))
  }

  /** The two remarks that end `compile`: an info at the first `end` when code
      follows it, and a strict `flow_past_end` when there is no `end`. */
  function Remarks(st: AState, settings: Settings, lastIsEnd: bool, endLine: int): AState {
    var st1 := if st.firstEnd.Some? && !lastIsEnd then InfoSpec(st, CodePastEnd, Some(endLine)) else st;
    if st.firstEnd.None? || st.firstEnd == Some(0) then StrictSpec(st1, FlowPastEnd, settings.pastEnd, None) else st1
  }

  /** `compile`: a program too large is an error that ends the phase; labels
      with no instruction at all throw; then the label check, the instruction
      loop and the two remarks. */
  function CompileSpec(st: AState, settings: Settings): Outcome
    requires CompileReady(st)
  {
    var lines := st.tree.instructionLines;
    var instrs := lines.Values();
    if |instrs| > 2 * settings.programSize then Done(ErrSpec(st, ProgramTooLarge, None))
    else if |st.tree.labels.keys| > 0 && |instrs| == 0 then Crashed
    else
      var lastLine := if |instrs| > 0 then instrs[|instrs| - 1].line else 0;
      var st1 := LabelChecks(st, st.tree.labels.Values(), lastLine);
      var lastIsEnd := |instrs| > 0 && instrs[|instrs| - 1].instruction.operation == End;
      var endLine := if st.firstEnd.Some? then lines.entries[st.firstEnd.value].line else 0;
      Done(Remarks(CompileLoop(st1, settings, st.tree), settings, lastIsEnd, endLine))
  }

  // ---------------------------------------------------------------------------
  // Linking

  /** The first recorded line number that is non-zero and at least `to`. */
  function FirstKeyAtLeast(keys: seq<int>, to: Option<int>): (r: Option<int>)
    ensures r.Some? ==> to.Some? && r.value in keys && r.value != 0 && r.value >= to.value
    ensures r.Some? ==> exists i :: 0 <= i < |keys| && keys[i] == r.value && forall j :: 0 <= j < i ==> keys[j] == 0 || keys[j] < to.value
    ensures r.None? && to.Some? ==> forall i :: 0 <= i < |keys| ==> keys[i] == 0 || keys[i] < to.value
    decreases |keys|
  {
    if keys == [] || to.None? then None
    else if keys[0] != 0 && keys[0] >= to.value then Some(keys[0])
    else
      var r := FirstKeyAtLeast(keys[1..], to);
      assert forall i :: 1 <= i < |keys| ==> keys[1..][i - 1] == keys[i];
      if r.Some? then
        var i :| 0 <= i < |keys[1..]| && keys[1..][i] == r.value && forall j :: 0 <= j < i ==> keys[1..][j] == 0 || keys[1..][j] < to.value;
        assert keys[i + 1] == r.value && forall j :: 0 <= j < i + 1 ==> keys[j] == 0 || keys[j] < to.value;
        r
      else r
  }

  /** The value `link` writes for a placeholder: with `empty_line_jumps` the
      first line with code at or after `to` (its line number), otherwise the
      offset of line `to`. */
  function LinkTarget(lineOffsets: OMap<int, int>, settings: Settings, to: Option<int>): Option<int> {
    if settings.emptyLineJumps then FirstKeyAtLeast(lineOffsets.keys, to)
    else if to.Some? then lineOffsets.Get(to.value)
    else None
  }

  /** One placeholder: no target is an `invalid_argument` error whose severity is
      the jump's line; a target past the first `end` a strict `flow_past_end`. */
  function LinkEntrySpec(st: AState, settings: Settings, key: int, e: LinkEntry): AState {
    var target := LinkTarget(st.lineOffsets, settings, e.to);
    var st1 := if target.None? then ErrSpec(st, InvalidArgument, Some(e.from)) else st;
    var st2 :=
      if target.Some? && st.firstEnd.Some? && target.value > st.firstEnd.value then StrictSpec(st1, FlowPastEnd, settings.pastEnd, None)
      else st1;
    if 0 <= key < |st2.exe| then st2.(exe := st2.exe[key := target]) else st2
  }

  /** The loop over the first `n` placeholders of `table`. */
  function LinkEntries(st: AState, settings: Settings, table: OMap<int, LinkEntry>, n: nat): AState
    requires table.Valid() && n <= |table.keys|
  {
    if n == 0 then st
    else
      var key := table.keys[n - 1];
      LinkEntrySpec(LinkEntries(st, settings, table, n - 1), settings, key, table.entries[key])
  }

  /** `link`: every placeholder, then the size check. */
  function LinkSpec(st: AState, settings: Settings): AState
    requires st.linkTable.Valid()
  {
    var st1 := LinkEntries(st, settings, st.linkTable, |st.linkTable.keys|);
    if |st1.exe| > settings.programSize then ErrSpec(st1, ProgramTooLarge, None) else st1
  }

  // ---------------------------------------------------------------------------
  // Assembling

  /** What the parser's invariant says about this state. */
  function Proj(st: AState): Parser.PState {
    Parser.PState(st.line, st.tree, st.firstEnd, Diag.Empty)
  }

  /** The assembler's invariant between calls. */
  ghost predicate Ready(st: AState) {
    Parser.WellFormed(Proj(st)) && st.line >= 0 && st.linkTable.Valid()
  }

  /** `assemble`: parse, compile and link on the same state. */
  function AssembleSpec(st: AState, settings: Settings, mnemonics: map<string, Operation>, code: string): Outcome
    requires Ready(st)
  {
    var parsed := ParseLines(st, settings, mnemonics, Lines(code));
    ParseLinesFacts(st, settings, mnemonics, Lines(code));
    ReadyCompiles(parsed);
    match CompileSpec(parsed, settings)
    case Crashed => Crashed
    case Done(c) =>
      CompileKeepsTable(parsed, settings);
      Done(LinkSpec(c, settings))
  }

  // ---------------------------------------------------------------------------
  // What parsing guarantees

  /** Lexing raises exactly one `invalid_token` error per malformed word and
      nothing for a well-formed one, whatever number it holds. */
  lemma {:induction false} LexWordsFacts(st: AState, words: seq<string>)
    ensures LexWordsSpec(st, words) ==
      st.(diagnostics := st.diagnostics + seq(MalformedCount(words), _ => AsmDiagnostic(st.line, ERROR, InvalidToken)),
          hasError := st.hasError || MalformedCount(words) > 0)
  {
    if words != [] {
      var init := words[..|words| - 1];
      LexWordsFacts(st, init);
      var d := AsmDiagnostic(st.line, ERROR, InvalidToken);
      if LexWord(words[|words| - 1]).Malformed? {
        assert seq(MalformedCount(init), _ => d) + [d] == seq(MalformedCount(words), _ => d);
      } else {
        assert MalformedCount(words) == MalformedCount(init);
      }
    }
  }

  /** Lexing only adds diagnostics. */
  lemma {:induction false} LexWordsKeep(st: AState, words: seq<string>)
    ensures var r := LexWordsSpec(st, words);
      Kept(st, r) && r == st.(diagnostics := r.diagnostics, hasError := r.hasError)
  {
    if words != [] {
      LexWordsKeep(st, words[..|words| - 1]);
    }
  }

  /** The legacy parser records an instruction exactly as the staged parser
      does for the same tokens; only the diagnostics differ. */
  lemma InstructionAgrees(p: Parser.PState, st: AState, settings: Settings, mnemonics: map<string, Operation>, toks: seq<Token>)
    requires p.line == st.line && p.tree == st.tree && p.firstEnd == st.firstEnd
    ensures var q := Parser.InstructionSpec(p, settings, mnemonics, toks);
      var r := InstructionSpec(st, settings, mnemonics, toks);
      && q.line == r.line && q.tree == r.tree && q.firstEnd == r.firstEnd
      && Kept(st, r)
      && r.exe == st.exe && r.lineOffsets == st.lineOffsets && r.linkTable == st.linkTable
  {
    SelectionAgrees(p, st, settings, Select(mnemonics, settings.jumpAddress, toks));
  }

  /** `InstructionAgrees` for any outcome of the selection. */
  lemma SelectionAgrees(p: Parser.PState, st: AState, settings: Settings, s: Selection)
    requires p.line == st.line && p.tree == st.tree && p.firstEnd == st.firstEnd
    ensures var q := Parser.SelectionSpec(p, settings, s);
      var r := SelectionSpec(st, settings, s);
      && q.line == r.line && q.tree == r.tree && q.firstEnd == r.firstEnd
      && Kept(st, r)
      && r.exe == st.exe && r.lineOffsets == st.lineOffsets && r.linkTable == st.linkTable
  {
    match s
    case Chosen(e, arg, addressTarget) =>
      var st1 :=
        if e.instruction == Instruction(Nop, NoArg) then StrictSpec(st, NopExtension, settings.nop, None)
        else if addressTarget then StrictSpec(st, InvalidToken, true, None)
        else st;
      RaiseFacts(st, NopExtension, settings.nop, None);
      RaiseFacts(st, InvalidToken, true, None);
      assert st1 == st.(diagnostics := st1.diagnostics, hasError := st1.hasError);
    case _ =>
  }

  /** The legacy parser defines labels exactly as the staged parser does for
      the same tokens. */
  lemma {:induction false} LabelsAgree(p: Parser.PState, st: AState, toks: seq<Token>)
    requires p.line == st.line && p.tree == st.tree && p.firstEnd == st.firstEnd
    ensures var q := Parser.LabelsSpec(p, toks);
      var r := LabelsSpec(st, toks);
      && q.line == r.line && q.tree == r.tree && q.firstEnd == r.firstEnd
      && r.tree.instructionLines == st.tree.instructionLines && r.firstEnd == st.firstEnd
      && Kept(st, r)
      && r.exe == st.exe && r.lineOffsets == st.lineOffsets && r.linkTable == st.linkTable
    decreases |toks|
  {
    if toks != [] && toks[0].LabelDef? {
      var name := ToLower(toks[0].name);
      var log := if p.tree.labels.Has(name) then p.log.Error(p.line, "Redefinition of label.") else p.log;
      var st1 := if st.tree.labels.Has(name) then ErrSpec(st, Redefinition, None) else st;
      var p2 := p.(tree := p.tree.(labels := p.tree.labels.Set(name, p.line)), log := log);
      var st2 := st1.(tree := st1.tree.(labels := st1.tree.labels.Set(name, st.line)));
      LabelsAgree(p2, st2, toks[1..]);
    }
  }

  /** A line starting with white space records no instruction and is an error,
      whatever follows: the white-space marker is taken for the mnemonic. */
  lemma IndentedLineRejected(st: AState, settings: Settings, mnemonics: map<string, Operation>, toks: seq<Token>)
    requires |toks| > 0 && toks[0].White?
    ensures var r := LineSpec(st, settings, mnemonics, toks);
      && r.hasError
      && r.tree.instructionLines == st.tree.instructionLines && r.firstEnd == st.firstEnd
      && AsmDiagnostic(st.line, ERROR, MissingToken) in r.diagnostics
  {
    var idx := FirstLabel(toks);
    var instruction := toks[..idx];
    var labels := toks[idx..];
    var st2 := ShapeSpec(st, settings, instruction, labels);
    ShapeKeeps(st, settings, instruction, labels);
    assert Select(mnemonics, settings.jumpAddress, instruction) == NotMnemonic;
    var st3 := InstructionSpec(st2, settings, mnemonics, instruction);
    assert st3 == ErrSpec(st2, MissingToken, None);
    assert st3.diagnostics[|st2.diagnostics|] == AsmDiagnostic(st.line, ERROR, MissingToken);
    LabelsAgree(Proj(st3), st3, labels);
    var r := LabelsSpec(st3, labels);
    assert r.diagnostics[|st2.diagnostics|] == st3.diagnostics[|st2.diagnostics|];
  }

  /** The parser's invariant does not look at the diagnostics. */
  lemma WellFormedSame(p: Parser.PState, st: AState)
    requires p.line == st.line && p.tree == st.tree && p.firstEnd == st.firstEnd
    requires Parser.WellFormed(p)
    ensures Parser.WellFormed(Proj(st))
  {
    assert Proj(st) == p.(log := Diag.Empty);
  }

  lemma ShapeKeeps(st: AState, settings: Settings, instruction: seq<Token>, labels: seq<Token>)
    ensures var r := ShapeSpec(st, settings, instruction, labels);
      Kept(st, r) && r == st.(diagnostics := r.diagnostics, hasError := r.hasError)
  {
  }

  /** A line keeps the parser's invariant and the build, and only adds
      diagnostics. */
  lemma LineFacts(st: AState, settings: Settings, mnemonics: map<string, Operation>, toks: seq<Token>)
    requires Parser.WellFormed(Proj(st)) && st.line >= 1
    requires forall k :: k in st.tree.instructionLines.entries ==> k < st.line
    ensures var r := LineSpec(st, settings, mnemonics, toks);
      && Parser.WellFormed(Proj(r)) && r.line == st.line && Kept(st, r)
      && r.exe == st.exe && r.lineOffsets == st.lineOffsets && r.linkTable == st.linkTable
  {
    var idx := FirstLabel(toks);
    var instruction := toks[..idx];
    var labels := toks[idx..];
    var st2 := ShapeSpec(st, settings, instruction, labels);
    ShapeKeeps(st, settings, instruction, labels);
    var p := Proj(st2);
    assert p == Proj(st);
    Parser.InstructionSpecFacts(p, settings, mnemonics, instruction);
    InstructionAgrees(p, st2, settings, mnemonics, instruction);
    var p1 := Parser.InstructionSpec(p, settings, mnemonics, instruction);
    var st3 := InstructionSpec(st2, settings, mnemonics, instruction);
    Parser.LabelsSpecFacts(p1, labels);
    LabelsAgree(p1, st3, labels);
    WellFormedSame(Parser.LabelsSpec(p1, labels), LabelsSpec(st3, labels));
  }

  /** Moving to the next line keeps the invariant, and no instruction is
      recorded under the new line yet. */
  lemma NextLineReady(st: AState)
    requires Parser.WellFormed(Proj(st)) && st.line >= 0
    ensures Parser.WellFormed(Proj(st.(line := st.line + 1)))
    ensures forall k :: k in st.tree.instructionLines.entries ==> k < st.line + 1
  {
    Parser.NextLine(Proj(st), Diag.Empty);
    assert Proj(st.(line := st.line + 1)) == Proj(st).(line := st.line + 1, log := Diag.Empty);
  }

  /** One line keeps the invariant and the build, advances the line number by
      one and only adds diagnostics. */
  lemma LineStepFacts(st: AState, settings: Settings, mnemonics: map<string, Operation>, words: seq<string>, toks: seq<Token>)
    requires Parser.WellFormed(Proj(st)) && st.line >= 0
    ensures var r := LineStep(st, settings, mnemonics, words, toks);
      && Parser.WellFormed(Proj(r)) && r.line == st.line + 1 && Kept(st, r)
      && r.exe == st.exe && r.lineOffsets == st.lineOffsets && r.linkTable == st.linkTable
  {
    LexedFacts(st, words);
    var lexed := Lexed(st, words);
    LineFacts(lexed, settings, mnemonics, toks);
    KeptTransitive(st, lexed, LineSpec(lexed, settings, mnemonics, toks));
  }

  /** Lexing the next line's words keeps the invariant and the build and moves
      to the next line. */
  lemma LexedFacts(st: AState, words: seq<string>)
    requires Parser.WellFormed(Proj(st)) && st.line >= 0
    ensures var r := Lexed(st, words);
      && Parser.WellFormed(Proj(r)) && r.line == st.line + 1 && Kept(st, r)
      && (forall k :: k in r.tree.instructionLines.entries ==> k < r.line)
      && r.exe == st.exe && r.lineOffsets == st.lineOffsets && r.linkTable == st.linkTable
  {
    var next := st.(line := st.line + 1);
    var r := LexWordsSpec(next, words);
    assert Lexed(st, words) == r;
    NextLineReady(st);
    LexWordsKeep(next, words);
    WellFormedSame(Proj(next), r);
  }

  /** Parsing keeps the invariant and the build, numbers the lines on from the
      state's line, and only adds diagnostics. */
  lemma {:induction false} ParseLinesFacts(st: AState, settings: Settings, mnemonics: map<string, Operation>, lines: seq<string>)
    requires Parser.WellFormed(Proj(st)) && st.line >= 0
    ensures var r := ParseLines(st, settings, mnemonics, lines);
      && Parser.WellFormed(Proj(r)) && r.line == st.line + |lines| && Kept(st, r)
      && r.exe == st.exe && r.lineOffsets == st.lineOffsets && r.linkTable == st.linkTable
  {
    if lines != [] {
      var prev := ParseLines(st, settings, mnemonics, lines[..|lines| - 1]);
      ParseLinesFacts(st, settings, mnemonics, lines[..|lines| - 1]);
      var code := BeforeComment(lines[|lines| - 1]);
      LineStepFacts(prev, settings, mnemonics, Words(code), Lexing.LexLine(code));
    }
  }

  /** A well-formed parse is ready to compile. */
  lemma ReadyCompiles(st: AState)
    requires Parser.WellFormed(Proj(st))
    ensures CompileReady(st)
  {
  }

  // ---------------------------------------------------------------------------
  // What compiling and linking guarantee

  /** The instruction loop leaves the flag and diagnostics alone and keeps the
      maps well formed. */
  lemma {:induction false} CompileAllKeeps(cs: Compiler.CState, settings: Settings, labels: OMap<string, int>, firstEnd: Option<int>, instrs: seq<AsmInstruction>)
    requires forall i :: 0 <= i < |instrs| ==> Encodable(instrs[i])
    ensures var r := Compiler.CompileAll(cs, settings, labels, firstEnd, instrs);
      && r.log == cs.log
      && (cs.linkTable.Valid() ==> r.linkTable.Valid())
      && (cs.lineOffsets.Valid() ==> r.lineOffsets.Valid())
  {
    if instrs != [] {
      CompileAllKeeps(cs, settings, labels, firstEnd, instrs[..|instrs| - 1]);
      var prev := Compiler.CompileAll(cs, settings, labels, firstEnd, instrs[..|instrs| - 1]);
      Compiler.InstructionStep(prev, settings, labels, firstEnd, instrs[|instrs| - 1]);
    }
  }

  lemma {:induction false} LabelChecksFacts(st: AState, labelLines: seq<int>, lastLine: int)
    ensures var r := LabelChecks(st, labelLines, lastLine);
      && r == st.(diagnostics := r.diagnostics, hasError := r.hasError)
      && Kept(st, r)
      && (r.hasError <==> st.hasError || exists i :: 0 <= i < |labelLines| && labelLines[i] > lastLine)
  {
    if labelLines != [] {
      var init := labelLines[..|labelLines| - 1];
      LabelChecksFacts(st, init, lastLine);
      assert forall i :: 0 <= i < |init| ==> init[i] == labelLines[i];
    }
  }

  /** Compiling leaves the placeholders' table well formed. */
  lemma CompileKeepsTable(st: AState, settings: Settings)
    requires CompileReady(st) && st.linkTable.Valid()
    ensures CompileSpec(st, settings).Done? ==> CompileSpec(st, settings).state.linkTable.Valid()
  {
    var instrs := st.tree.instructionLines.Values();
    if !(|instrs| > 2 * settings.programSize) && !(|st.tree.labels.keys| > 0 && |instrs| == 0) {
      var lastLine := if |instrs| > 0 then instrs[|instrs| - 1].line else 0;
      var st1 := LabelChecks(st, st.tree.labels.Values(), lastLine);
      LabelChecksFacts(st, st.tree.labels.Values(), lastLine);
      Compiler.InstructionsEncodable(st.tree);
      CompileAllKeeps(BuildOf(st1), settings, st.tree.labels, st.firstEnd, instrs);
    }
  }

  /** `compile` throws exactly when there are labels but no instruction and the
      size check passes. */
  lemma CompileCrashes(st: AState, settings: Settings)
    requires CompileReady(st)
    ensures CompileSpec(st, settings).Crashed? <==>
      |st.tree.instructionLines.keys| == 0 && |st.tree.labels.keys| > 0 && settings.programSize >= 0
  {
  }

  /** Some label names a line after the last instruction's. */
  ghost predicate LateLabel(tree: ParseTree) {
    var keys := tree.instructionLines.keys;
    |keys| > 0 && exists n :: n in tree.labels.entries && tree.labels.entries[n] > keys[|keys| - 1]
  }

  /** The remarks only add diagnostics. */
  lemma RemarksKeep(st: AState, settings: Settings, lastIsEnd: bool, endLine: int)
    ensures var r := Remarks(st, settings, lastIsEnd, endLine);
      Kept(st, r) && r == st.(diagnostics := r.diagnostics, hasError := r.hasError)
  {
  }

  /** On a fresh build: a program too large, or an error raised while parsing
      or by the label check, leaves the build without a byte; otherwise the
      build has the staged compiler's layout. Diagnostics only grow, and the
      parse tree is untouched. */
  lemma CompileFacts(st: AState, settings: Settings)
    requires CompileReady(st)
    requires st.exe == [] && st.lineOffsets == Empty() && st.linkTable == Empty()
    requires CompileSpec(st, settings).Done?
    ensures var r := CompileSpec(st, settings).state;
      var instrs := st.tree.instructionLines.Values();
      && Kept(st, r)
      && r.line == st.line && r.tree == st.tree && r.firstEnd == st.firstEnd
      && Compiler.Layout(BuildOf(r))
      && |r.exe| <= 2 * |instrs|
      && (|instrs| > 2 * settings.programSize ==> r.exe == [] && r.hasError)
      && (st.hasError ==> r.exe == [])
      && (LateLabel(st.tree) ==> r.exe == [] && r.hasError)
  {
    var lines := st.tree.instructionLines;
    var instrs := lines.Values();
    if !(|instrs| > 2 * settings.programSize) {
      var lastLine := if |instrs| > 0 then instrs[|instrs| - 1].line else 0;
      var st1 := LabelChecks(st, st.tree.labels.Values(), lastLine);
      LabelStageFacts(st, lastLine);
      LoopFacts(st1, settings);
      var st2 := CompileLoop(st1, settings, st.tree);
      var lastIsEnd := |instrs| > 0 && instrs[|instrs| - 1].instruction.operation == End;
      var endLine := if st.firstEnd.Some? then lines.entries[st.firstEnd.value].line else 0;
      RemarksKeep(st2, settings, lastIsEnd, endLine);
    }
  }

  /** The label check on a fresh build keeps it fresh, and raises an error when
      a label lies past the last instruction. */
  lemma LabelStageFacts(st: AState, lastLine: int)
    requires CompileReady(st)
    requires st.exe == [] && st.lineOffsets == Empty() && st.linkTable == Empty()
    requires var instrs := st.tree.instructionLines.Values();
      lastLine == if |instrs| > 0 then instrs[|instrs| - 1].line else 0
    ensures var r := LabelChecks(st, st.tree.labels.Values(), lastLine);
      && r == st.(diagnostics := r.diagnostics, hasError := r.hasError) && Kept(st, r)
      && (LateLabel(st.tree) ==> r.hasError)
  {
    var labelLines := st.tree.labels.Values();
    LabelChecksFacts(st, labelLines, lastLine);
    if LateLabel(st.tree) {
      var lines := st.tree.instructionLines;
      var n :| n in st.tree.labels.entries && st.tree.labels.entries[n] > lines.keys[|lines.keys| - 1];
      var i :| 0 <= i < |st.tree.labels.keys| && st.tree.labels.keys[i] == n;
      assert labelLines[i] > lastLine;
    }
  }

  /** The instruction loop on a fresh build lays it out as the staged compiler
      does, with at most two bytes per instruction and none after an error. */
  lemma LoopFacts(st: AState, settings: Settings)
    requires CompileReady(st)
    requires st.exe == [] && st.lineOffsets == Empty() && st.linkTable == Empty()
    ensures var r := CompileLoop(st, settings, st.tree);
      && r == st.(exe := r.exe, lineOffsets := r.lineOffsets, linkTable := r.linkTable)
      && Compiler.Layout(BuildOf(r))
      && |r.exe| <= 2 * |st.tree.instructionLines.Values()|
      && (st.hasError ==> r.exe == [])
  {
    var instrs := st.tree.instructionLines.Values();
    Compiler.InstructionsEncodable(st.tree);
    assert Compiler.Layout(BuildOf(st));
    assert Compiler.Increasing(instrs);
    Compiler.CompileAllLayout(BuildOf(st), settings, st.tree.labels, st.firstEnd, instrs);
  }

  /** Linking changes only bytes at placeholder positions, each to the value
      `LinkTarget` gives; every placeholder without a target is an error; the
      diagnostics only grow and nothing but the bytes and the diagnostics
      changes. */
  lemma {:induction false} LinkEntriesFacts(st: AState, settings: Settings, table: OMap<int, LinkEntry>, n: nat)
    requires table.Valid() && n <= |table.keys|
    ensures var r := LinkEntries(st, settings, table, n);
      && r == st.(exe := r.exe, diagnostics := r.diagnostics, hasError := r.hasError)
      && Kept(st, r)
      && |r.exe| == |st.exe|
      && (forall p :: 0 <= p < |st.exe| && (forall i :: 0 <= i < n ==> table.keys[i] != p) ==> r.exe[p] == st.exe[p])
      && (forall i :: 0 <= i < n && 0 <= table.keys[i] < |st.exe| ==> r.exe[table.keys[i]] == LinkTarget(st.lineOffsets, settings, table.entries[table.keys[i]].to))
      && ((exists i :: 0 <= i < n && LinkTarget(st.lineOffsets, settings, table.entries[table.keys[i]].to).None?) ==> r.hasError)
  {
    if n > 0 {
      LinkEntriesFacts(st, settings, table, n - 1);
      var prev := LinkEntries(st, settings, table, n - 1);
      var key := table.keys[n - 1];
      var r := LinkEntries(st, settings, table, n);
      forall i | 0 <= i < n && 0 <= table.keys[i] < |st.exe|
        ensures r.exe[table.keys[i]] == LinkTarget(st.lineOffsets, settings, table.entries[table.keys[i]].to)
      {
        if i < n - 1 {
          assert table.keys[i] != key;
        }
      }
    }
  }

  /** `link` as a whole: the placeholders as above, then a `program_too_large`
      error when the bytes exceed `program_size`. */
  lemma LinkFacts(st: AState, settings: Settings)
    requires st.linkTable.Valid()
    ensures var r := LinkSpec(st, settings);
      var table := st.linkTable;
      && r == st.(exe := r.exe, diagnostics := r.diagnostics, hasError := r.hasError)
      && Kept(st, r)
      && |r.exe| == |st.exe|
      && (forall p :: 0 <= p < |st.exe| && p !in table.entries ==> r.exe[p] == st.exe[p])
      && (forall k :: k in table.entries && 0 <= k < |st.exe| ==> r.exe[k] == LinkTarget(st.lineOffsets, settings, table.entries[k].to))
      && ((exists k :: k in table.entries && LinkTarget(st.lineOffsets, settings, table.entries[k].to).None?) ==> r.hasError)
      && (|st.exe| > settings.programSize ==> r.hasError)
  {
    var table := st.linkTable;
    LinkEntriesFacts(st, settings, table, |table.keys|);
    var r := LinkSpec(st, settings);
    forall k | k in table.entries && 0 <= k < |st.exe|
      ensures r.exe[k] == LinkTarget(st.lineOffsets, settings, table.entries[k].to)
    {
      var i :| 0 <= i < |table.keys| && table.keys[i] == k;
    }
    if exists k :: k in table.entries && LinkTarget(st.lineOffsets, settings, table.entries[k].to).None? {
      var k :| k in table.entries && LinkTarget(st.lineOffsets, settings, table.entries[k].to).None?;
      var i :| 0 <= i < |table.keys| && table.keys[i] == k;
    }
  }

  /** With `empty_line_jumps`, a placeholder receives a line number, never an
      offset looked up for it: the first non-zero recorded line, in insertion
      order, at or after the target. */
  lemma EmptyLineJumpWritesLine(lineOffsets: OMap<int, int>, settings: Settings, to: Option<int>)
    requires settings.emptyLineJumps && LinkTarget(lineOffsets, settings, to).Some?
    ensures LinkTarget(lineOffsets, settings, to).value in lineOffsets.keys
    ensures exists i :: (0 <= i < |lineOffsets.keys| && lineOffsets.keys[i] == LinkTarget(lineOffsets, settings, to).value
      && forall j :: 0 <= j < i ==> lineOffsets.keys[j] == 0 || lineOffsets.keys[j] < to.value)
  {
  }

  /** For `jmp #2`, an empty line and `end` (line offsets 1 ↦ 0 and 3 ↦ 2) with
      `empty_line_jumps`, the jump receives 3, the line number of `end`, where
      the staged linker finds `end`'s offset 2. */
  lemma EmptyLineJumpFinding()
    ensures var offsets := OMap([1, 3], map[1 := 0, 3 := 2]);
      && LinkTarget(offsets, Defaults.(emptyLineJumps := true), Some(2)) == Some(3)
      && Linker.FindTarget(offsets.keys, offsets.entries, Some(2)) == Some(2)
  {
    var offsets := OMap([1, 3], map[1 := 0, 3 := 2]);
    assert offsets.keys[1..] == [3];
  }

  // ---------------------------------------------------------------------------
  // The assembler object

  /** `BuildResult`: the error flag and diagnostics are part of the build. */
  class Build {
    var hasError: bool
    var diagnostics: seq<AsmDiagnostic>
    var executable: seq<Option<int>>
    var lineOffsets: OMap<int, int>
    var linkTable: OMap<int, LinkEntry>

    constructor()
      ensures !hasError && diagnostics == [] && executable == []
      ensures lineOffsets == Empty() && linkTable == Empty()
    {
      hasError := false;
      diagnostics := [];
      executable := [];
      lineOffsets := Empty();
      linkTable := Empty();
    }
  }

  class Assembler {
    const settings: Settings
    const realMnemonics: map<string, Operation>
    var parseTree: ParseTree
    var currentLine: int
    var firstEnd: Option<int>
    const build: Build

    function State(): AState
      reads this, build
    {
      AState(currentLine, parseTree, firstEnd, build.hasError, build.diagnostics, build.executable, build.lineOffsets, build.linkTable)
    }

    /** The settings are the defaults overwritten by the caller's; the mnemonic
        table is built from them. */
    constructor(p: PartialSettings)
      ensures settings == MakeSettings(p) && realMnemonics == RealMnemonics(settings.replaceMnemonics)
      ensures State() == Initial
    {
      settings := MakeSettings(p);
      realMnemonics := RealMnemonics(MakeSettings(p).replaceMnemonics);
      parseTree := EmptyTree();
      currentLine := 0;
      firstEnd := None;
      build := new Build();
    }

    /** `error_state`. */
    function ErrorState(): (e: bool)
      reads this, build
      ensures e == State().hasError
    {
      build.hasError
    }

    method RaiseInfo(kind: DiagType, near: Option<int>)
      modifies build
      ensures State() == InfoSpec(old(State()), kind, near)
    {
      build.diagnostics := build.diagnostics + [AsmDiagnostic(near.GetOr(currentLine), INFO, kind)];
    }

    method RaiseErr(kind: DiagType, near: Option<int>)
      modifies build
      ensures State() == ErrSpec(old(State()), kind, near)
    {
      build.diagnostics := build.diagnostics + [AsmDiagnostic(currentLine, near.GetOr(ERROR), kind)];
      build.hasError := true;
    }

    method RaiseStrict(kind: DiagType, allow: bool, near: Option<int>)
      modifies build
      ensures State() == StrictSpec(old(State()), kind, allow, near)
    {
      build.diagnostics := build.diagnostics + [AsmDiagnostic(near.GetOr(currentLine), if allow then EXTENSION else ERROR, kind)];
      build.hasError := build.hasError || !allow;
    }

    /** `lex_word`. */
    method LexWord(word: string) returns (t: Option<Token>)
      modifies build
      ensures t == if Lexing.LexWord(word).Lexed? then Some(Lexing.LexWord(word).token) else None
      ensures State() == LexWordSpec(old(State()), word)
    {
      match Lexing.LexWord(word)
      case Malformed(_) =>
        RaiseErr(InvalidToken, None);
        t := None;
      case Lexed(tok) =>
        t := Some(tok);
    }

    /** `lex_line`. */
    method LexLine(line: string) returns (toks: seq<Token>)
      modifies build
      ensures toks == Lexing.LexLine(line)
      ensures State() == LexWordsSpec(old(State()), Words(line))
    {
      var lexed := LexWords(Words(line));
      toks := LineStart(line) + lexed;
    }

    /** The loop of `lex_line` over the line's words. */
    method LexWords(words: seq<string>) returns (toks: seq<Token>)
      modifies build
      ensures toks == LexedTokens(words)
      ensures State() == LexWordsSpec(old(State()), words)
    {
      toks := [];
      var i := 0;
      while i < |words|
        invariant 0 <= i <= |words|
        invariant toks == LexedTokens(words[..i])
        invariant State() == LexWordsSpec(old(State()), words[..i])
      {
        var t := LexWord(words[i]);
        if t.Some? {
          toks := toks + [t.value];
        }
        LexStep(old(State()), words, i);
        i := i + 1;
      }
      assert words[..i] == words;
    }

    method PushInstructionAndLine(instr: Instruction, arg: AsmArgument)
      modifies this
      ensures State() == PushSpec(old(State()), instr, arg)
    {
      if instr.operation == End && firstEnd.None? {
        firstEnd := Some(currentLine);
      }
      parseTree := parseTree.(instructionLines := parseTree.instructionLines.Set(currentLine, AsmInstruction(instr, arg, currentLine)));
    }

    /** `try_val_instruction`. */
    method TryVal(entry: CodedInstruction, tok: Token) returns (accepted: bool)
      requires entry.instruction.argType == Val
      modifies this, build
      ensures accepted <==> Accept(Val, tok, settings.jumpAddress).Some?
      ensures !accepted ==> State() == old(State())
      ensures accepted ==> State() == ChosenSpec(old(State()), settings, entry, Accept(Val, tok, settings.jumpAddress).value.0, false)
    {
      accepted := false;
      if tok.Integer? {
        PushInstructionAndLine(entry.instruction, AsmValue(tok.n));
        accepted := true;
      }
    }

    /** `try_adr_instruction`, with the alias looked up by its lower-case spelling. */
    method TryAdr(entry: CodedInstruction, tok: Token) returns (accepted: bool)
      requires entry.instruction.argType in {AdrSrc, AdrDst}
      modifies this, build
      ensures accepted <==> AcceptAddress(tok).Some?
      ensures !accepted ==> State() == old(State())
      ensures accepted ==> State() == ChosenSpec(old(State()), settings, entry, AcceptAddress(tok).value.0, false)
    {
      accepted := false;
      if tok.Address? {
        PushInstructionAndLine(entry.instruction, AsmAddress(tok.n));
        accepted := true;
      } else if tok.Identifier? && AliasOf(tok.name).Some? {
        PushInstructionAndLine(entry.instruction, AsmAddress(AliasOf(tok.name).value));
        accepted := true;
      }
    }

    /** `try_tar_instruction`: an address target is an allowed `invalid_token`. */
    method TryTar(entry: CodedInstruction, tok: Token) returns (accepted: bool)
      requires entry.instruction.argType == Tar
      modifies this, build
      ensures accepted <==> Accept(Tar, tok, settings.jumpAddress).Some?
      ensures !accepted ==> State() == old(State())
      ensures accepted ==> var a := Accept(Tar, tok, settings.jumpAddress).value;
        State() == ChosenSpec(old(State()), settings, entry, a.0, a.1)
    {
      accepted := false;
      if tok.LineNum? {
        PushInstructionAndLine(entry.instruction, AsmLineNumber(tok.n));
        accepted := true;
      } else if tok.Identifier? {
        PushInstructionAndLine(entry.instruction, AsmIdentifier(tok.name));
        accepted := true;
      } else if settings.jumpAddress && tok.Address? {
        RaiseStrict(InvalidToken, true, None);
        PushInstructionAndLine(entry.instruction, AsmAddress(tok.n));
        accepted := true;
      }
    }

    /** `try_unary_instruction`. */
    method TryUnary(entry: CodedInstruction, tok: Token) returns (accepted: bool)
      modifies this, build
      ensures var a := Accept(entry.instruction.argType, tok, settings.jumpAddress);
        && (accepted <==> a.Some?)
        && (!accepted ==> State() == old(State()))
        && (accepted ==> State() == ChosenSpec(old(State()), settings, entry, a.value.0, a.value.1))
    {
      match entry.instruction.argType
      case Val => accepted := TryVal(entry, tok);
      case AdrSrc => accepted := TryAdr(entry, tok);
      case AdrDst => accepted := TryAdr(entry, tok);
      case Tar => accepted := TryTar(entry, tok);
      case NoArg => accepted := false;
    }

    /** `interpret_instruction`. */
    method InterpretInstruction(toks: seq<Token>)
      modifies this, build
      ensures State() == InstructionSpec(old(State()), settings, realMnemonics, toks)
    {
      if |toks| < 1 {
        return;
      }
      if !IsMnemonic(realMnemonics, toks[0]) {
        RaiseErr(MissingToken, None);
        return;
      }
      InterpretArguments(Matching(realMnemonics[toks[0].name]), toks[1..]);
    }

    /** The rest of `interpret_instruction`, given the operation's catalog
        entries and the tokens after the mnemonic. */
    method InterpretArguments(matching: seq<CodedInstruction>, args: seq<Token>)
      modifies this, build
      ensures State() == SelectionSpec(old(State()), settings, SelectAmong(matching, settings.jumpAddress, args))
    {
      var nullary := FirstNullary(matching);
      if |args| == 0 && nullary.Some? {
        if nullary.value.instruction.operation == Nop {
          RaiseStrict(NopExtension, settings.nop, None);
        }
        PushInstructionAndLine(nullary.value.instruction, NoArgument);
        return;
      }
      var unary := WithArgument(matching);
      if |args| == 1 && |unary| > 0 {
        var i := 0;
        while i < |unary|
          invariant 0 <= i <= |unary|
          invariant State() == old(State())
          invariant forall j :: 0 <= j < i ==> Accept(unary[j].instruction.argType, args[0], settings.jumpAddress).None?
        {
          var accepted := TryUnary(unary[i], args[0]);
          if accepted {
            FirstAcceptingAt(unary, args[0], settings.jumpAddress, i);
            return;
          }
          i := i + 1;
        }
      }
      if |args| > 1 {
        RaiseErr(SuperfluousToken, None);
      } else {
        RaiseErr(InvalidToken, None);
      }
    }

    /** `interpret_labels`. */
    method InterpretLabels(toks: seq<Token>)
      modifies this, build
      ensures State() == LabelsSpec(old(State()), toks)
    {
      var i := 0;
      while i < |toks|
        invariant 0 <= i <= |toks|
        invariant LabelsSpec(State(), toks[i..]) == LabelsSpec(old(State()), toks)
      {
        var t := toks[i];
        assert toks[i..][0] == t && toks[i..][1..] == toks[i + 1..];
        if !t.LabelDef? {
          RaiseErr(SuperfluousToken, None);
          return;
        }
        var canonical := ToLower(t.name);
        if parseTree.labels.Has(canonical) {
          RaiseErr(Redefinition, None);
        }
        parseTree := parseTree.(labels := parseTree.labels.Set(canonical, currentLine));
        i := i + 1;
      }
    }

    /** `interpret_line`. */
    method InterpretLine(toks: seq<Token>)
      modifies this, build
      ensures State() == LineSpec(old(State()), settings, realMnemonics, toks)
    {
      var idx := FirstLabel(toks);
      var instruction := toks[..idx];
      var labels := toks[idx..];
      if |instruction| == 0 && |labels| > 0 {
        RaiseStrict(SuperfluousToken, settings.emptyLineJumps, None);
      }
      if |labels| > 1 {
        RaiseStrict(SuperfluousToken, settings.multipleLabels, None);
      }
      InterpretInstruction(instruction);
      InterpretLabels(labels);
    }

    /** `parse`. */
    method Parse(code: string)
      modifies this, build
      ensures State() == ParseLines(old(State()), settings, realMnemonics, Lines(code))
    {
      var lines := Lines(code);
      var i := 0;
      while i < |lines|
        invariant 0 <= i <= |lines|
        invariant State() == ParseLines(old(State()), settings, realMnemonics, lines[..i])
      {
        ParseLine(lines[i]);
        ParseLinesStep(old(State()), settings, realMnemonics, lines, i);
        i := i + 1;
      }
      assert lines[..i] == lines;
    }

    /** The body of `parse`'s loop: the next line, without its comment. */
    method ParseLine(line: string)
      modifies this, build
      ensures State() == CodeStep(old(State()), settings, realMnemonics, BeforeComment(line))
    {
      ghost var st := State();
      var code := BeforeComment(line);
      NextLine();
      var toks := LexLine(code);
      assert State() == LexWordsSpec(st.(line := st.line + 1), Words(code));
      InterpretLine(toks);
      assert CodeStep(st, settings, realMnemonics, code) == LineStep(st, settings, realMnemonics, Words(code), toks);
    }

    /** Moves on to the next line. */
    method NextLine()
      modifies this
      ensures State() == old(State()).(line := old(State()).line + 1)
    {
      currentLine := currentLine + 1;
    }

    /** `push_bytes`: blocked by any error so far, parse errors included. */
    method PushBytes(pi: AsmInstruction, arg: Option<int>)
      requires Admits(pi.instruction.operation, pi.instruction.argType)
      modifies build
      ensures State() == WithBuild(old(State()), Compiler.PushBytesSpec(BuildOf(old(State())), settings, firstEnd, pi, arg))
    {
      ghost var st := State();
      if build.hasError || (firstEnd.Some? && pi.line > firstEnd.value && !settings.pastEnd) {
        assert !Compiler.Emits(BuildOf(st).log, settings, firstEnd, pi.line);
        return;
      }
      var bytes := Compiler.Bytes(pi.instruction, arg);
      var offsets := build.lineOffsets.Set(pi.line, |build.executable|);
      SetCode(build.executable + bytes, offsets);
      ghost var cs := BuildOf(st);
      assert Compiler.PushBytesSpec(cs, settings, firstEnd, pi, arg) == cs.(exe := cs.exe + bytes, lineOffsets := offsets);
    }

    /** `compile_instruction`. */
    method CompileInstruction(pi: AsmInstruction)
      requires Admits(pi.instruction.operation, pi.instruction.argType)
      modifies build
      ensures State() == WithBuild(old(State()), Compiler.CompileInstructionSpec(BuildOf(old(State())), settings, parseTree.labels, firstEnd, pi))
    {
      ghost var cs := BuildOf(State());
      ghost var arg := Compiler.ArgumentByte(parseTree.labels, pi.argument);
      ghost var link := Compiler.LinkFor(parseTree.labels, pi);
      match pi.argument
      case NoArgument =>
        PushBytes(pi, None);
        assert arg == None && link == None;
      case AsmIdentifier(id) =>
        PushBytes(pi, parseTree.labels.Get(id));
        ghost var pushed := BuildOf(State());
        Placeholder(pi.line, parseTree.labels.Get(id));
        assert BuildOf(State()) == Compiler.Placeholder(pushed, pi.line, parseTree.labels.Get(id));
        assert arg == parseTree.labels.Get(id) && link == Some(LinkEntry(pi.line, arg));
      case AsmLineNumber(n) =>
        PushBytes(pi, Some(0));
        ghost var pushed := BuildOf(State());
        Placeholder(pi.line, Some(n));
        assert BuildOf(State()) == Compiler.Placeholder(pushed, pi.line, Some(n));
        assert arg == Some(0) && link == Some(LinkEntry(pi.line, Some(n)));
      case AsmAddress(a) =>
        PushBytes(pi, Some(a));
        assert arg == Some(a) && link == None;
      case AsmValue(v) =>
        PushBytes(pi, Some(v));
        assert arg == Some(v) && link == None;
    }

    /** Replaces the bytes and the line offsets of the build. */
    method SetCode(exe: seq<Option<int>>, offsets: OMap<int, int>)
      modifies build
      ensures State() == old(State()).(exe := exe, lineOffsets := offsets)
    {
      ghost var st := State();
      build.executable := exe;
      build.lineOffsets := offsets;
      assert State().line == st.line;
      assert State().tree == st.tree;
      assert State().firstEnd == st.firstEnd;
      assert State().hasError == st.hasError;
      assert State().diagnostics == st.diagnostics;
      assert State().linkTable == st.linkTable;
    }

    /** The link-table entry `compile_instruction` leaves for a jump, keyed at
        the last byte. */
    method Placeholder(from: int, to: Option<int>)
      modifies build
      ensures State() == old(State()).(linkTable := old(State()).linkTable.Set(|old(State()).exe| - 1, LinkEntry(from, to)))
    {
      ghost var st := State();
      var table := build.linkTable.Set(|build.executable| - 1, LinkEntry(from, to));
      build.linkTable := table;
      assert State().line == st.line;
      assert State().tree == st.tree;
      assert State().firstEnd == st.firstEnd;
      assert State().hasError == st.hasError;
      assert State().diagnostics == st.diagnostics;
      assert State().exe == st.exe;
      assert State().lineOffsets == st.lineOffsets;
    }

    /** The label loop of `compile`. */
    method CheckLabels(lastLine: int)
      requires parseTree.labels.Valid()
      modifies build
      ensures State() == LabelChecks(old(State()), parseTree.labels.Values(), lastLine)
    {
      var labelLines := parseTree.labels.Values();
      var i := 0;
      while i < |labelLines|
        invariant 0 <= i <= |labelLines|
        invariant State() == LabelChecks(old(State()), labelLines[..i], lastLine)
      {
        if labelLines[i] > lastLine {
          RaiseErr(InvalidToken, None);
        }
        assert labelLines[..i + 1][..i] == labelLines[..i];
        i := i + 1;
      }
      assert labelLines[..i] == labelLines;
    }

    /** The instruction loop of `compile`. */
    method CompileInstructions(instrs: seq<AsmInstruction>)
      requires forall i :: 0 <= i < |instrs| ==> Encodable(instrs[i])
      modifies build
      ensures State() == WithBuild(old(State()), Compiler.CompileAll(BuildOf(old(State())), settings, parseTree.labels, firstEnd, instrs))
    {
      var j := 0;
      while j < |instrs|
        invariant 0 <= j <= |instrs|
        invariant State() == WithBuild(old(State()), Compiler.CompileAll(BuildOf(old(State())), settings, parseTree.labels, firstEnd, instrs[..j]))
      {
        CompileAllKeeps(BuildOf(old(State())), settings, parseTree.labels, firstEnd, instrs[..j]);
        CompileInstruction(instrs[j]);
        assert instrs[..j + 1][..j] == instrs[..j];
        j := j + 1;
      }
      assert instrs[..j] == instrs;
    }

    /** `compile`; `crashed` is the exception it throws. */
    method Compile() returns (crashed: bool)
      requires CompileReady(State())
      modifies build
      ensures CompileSpec(old(State()), settings) == if crashed then Crashed else Done(State())
    {
      var lines := parseTree.instructionLines;
      var instrs := lines.Values();
      crashed := false;
      if |instrs| > 2 * settings.programSize {
        RaiseErr(ProgramTooLarge, None);
        return;
      }
      if |parseTree.labels.keys| > 0 && |instrs| == 0 {
        crashed := true;
        return;
      }
      CheckLabels(if |instrs| > 0 then instrs[|instrs| - 1].line else 0);
      Compiler.InstructionsEncodable(parseTree);
      CompileInstructions(instrs);
      if firstEnd.Some? && instrs[|instrs| - 1].instruction.operation != End {
        RaiseInfo(CodePastEnd, Some(lines.entries[firstEnd.value].line));
      }
      if firstEnd.None? || firstEnd == Some(0) {
        RaiseStrict(FlowPastEnd, settings.pastEnd, None);
      }
    }

    /** One placeholder of `link`. */
    method LinkOne(key: int, e: LinkEntry)
      modifies build
      ensures State() == LinkEntrySpec(old(State()), settings, key, e)
    {
      var target := LinkTarget(build.lineOffsets, settings, e.to);
      if target.None? {
        RaiseErr(InvalidArgument, Some(e.from));
      }
      if target.Some? && firstEnd.Some? && target.value > firstEnd.value {
        RaiseStrict(FlowPastEnd, settings.pastEnd, None);
      }
      if 0 <= key < |build.executable| {
        build.executable := build.executable[key := target];
      }
    }

    /** `link`. */
    method Link()
      requires build.linkTable.Valid()
      modifies build
      ensures State() == LinkSpec(old(State()), settings)
    {
      var table := build.linkTable;
      var i := 0;
      while i < |table.keys|
        invariant 0 <= i <= |table.keys|
        invariant State() == LinkEntries(old(State()), settings, table, i)
      {
        var key := table.keys[i];
        LinkOne(key, table.entries[key]);
        i := i + 1;
      }
      if |build.executable| > settings.programSize {
        RaiseErr(ProgramTooLarge, None);
      }
    }

    /** `assemble`: the build, or the exception `compile` throws. */
    method Assemble(code: string) returns (result: Build, crashed: bool)
      requires Ready(State())
      modifies this, build
      ensures result == build
      ensures AssembleSpec(old(State()), settings, realMnemonics, code) == if crashed then Crashed else Done(State())
    {
      ghost var st := State();
      Parse(code);
      ParseLinesFacts(st, settings, realMnemonics, Lines(code));
      ReadyCompiles(State());
      crashed := Compile();
      result := build;
      if !crashed {
        CompileKeepsTable(ParseLines(st, settings, realMnemonics, Lines(code)), settings);
        Link();
      }
    }
  }

  /** A new assembler is ready to assemble. */
  lemma InitialReady()
    ensures Ready(Initial)
  {
    Parser.StartWellFormed();
    assert Proj(Initial) == Parser.Start;
  }
}
