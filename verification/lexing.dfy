/** The decisions both assembler generations make the same way: how a word becomes
    a token, how a line splits at its first label, which catalog entry a mnemonic
    and its argument select, and how label definitions update the label table.
    Each generation reports the outcomes in its own diagnostics format. */
module Lexing {
  import opened Wrappers
  import opened Text
  import opened OrderedMaps
  import opened Platform
  import opened AsmTypes

  // ---------------------------------------------------------------------------
  // Words

  /** The class of a word, decided by its first character. */
  datatype WordKind = IntegerWord | AddressWord | LineNumWord | LabelWord | IdentifierWord

  function KindOf(word: string): WordKind {
    if |word| > 0 && (word[0] == '-' || word[0] == '+' || IsDigit(word[0])) then IntegerWord
    else if |word| > 0 && word[0] == '$' then AddressWord
    else if |word| > 0 && word[0] == '#' then LineNumWord
    else if |word| > 0 && word[0] == ':' then LabelWord
    else IdentifierWord
  }

  /** The part of the word whose shape is checked: all of it for integers and
      identifiers, everything after the marker character otherwise. */
  function Body(word: string): string {
    match KindOf(word)
    case IntegerWord => word
    case IdentifierWord => word
    case _ => word[1..]
  }

  predicate ShapeOk(kind: WordKind, body: string) {
    match kind
    case IntegerWord => IsIntegerText(body)
    case AddressWord => IsDigits(body)
    case LineNumWord => IsDigits(body)
    case LabelWord => IsIdentifier(body)
    case IdentifierWord => IsIdentifier(body)
  }

  datatype Lexed = Lexed(token: Token) | Malformed(kind: WordKind)

  /** `lex_word`: the token for a word whose body has the shape its class demands. */
  function LexWord(word: string): (r: Lexed)
    ensures r.Lexed? <==> ShapeOk(KindOf(word), Body(word))
    ensures r.Malformed? ==> r.kind == KindOf(word)
    ensures r.Lexed? ==> !r.token.White?
    ensures IsIdentifier(word) ==> r == Lexed(Identifier(word))
    ensures IsIntegerText(word) ==> r == Lexed(Integer(IntegerValue(word)))
    ensures |word| > 0 && word[0] == ':' && IsIdentifier(word[1..]) ==> r == Lexed(LabelDef(word[1..]))
    ensures |word| > 0 && word[0] == '$' && IsDigits(word[1..]) ==> r == Lexed(Address(DigitsValue(word[1..])))
    ensures |word| > 0 && word[0] == '#' && IsDigits(word[1..]) ==> r == Lexed(LineNum(DigitsValue(word[1..])))
  {
    var kind := KindOf(word);
    var body := Body(word);
    if !ShapeOk(kind, body) then Malformed(kind)
    else match kind
      case IntegerWord => Lexed(Integer(IntegerValue(body)))
      case AddressWord => Lexed(Address(DigitsValue(body)))
      case LineNumWord => Lexed(LineNum(DigitsValue(body)))
      case LabelWord => Lexed(LabelDef(body))
      case IdentifierWord => Lexed(Identifier(body))
  }

  /** The tokens of the words that lexed, in order. */
  function LexedTokens(words: seq<string>): seq<Token> {
    if words == [] then []
    else
      var last := LexWord(words[|words| - 1]);
      LexedTokens(words[..|words| - 1]) + (if last.Lexed? then [last.token] else [])
  }

  /** The marker for a line that starts with white space. */
  function LineStart(line: string): seq<Token> {
    if |line| > 0 && IsWhite(line[0]) then [White] else []
  }

  /** `lex_line`: the start marker, then the tokens of the line's words. */
  function LexLine(line: string): seq<Token> {
    LineStart(line) + LexedTokens(Words(line))
  }

  lemma {:induction false} LexedTokensShape(words: seq<string>)
    ensures |LexedTokens(words)| <= |words|
    ensures forall i :: 0 <= i < |LexedTokens(words)| ==> !LexedTokens(words)[i].White?
  {
    if words != [] {
      LexedTokensShape(words[..|words| - 1]);
    }
  }

  /** A line yields at most one token per word plus the start marker, and the
      marker is the first token exactly when the line starts with white space. */
  lemma LexLineShape(line: string)
    ensures |LexLine(line)| <= |Words(line)| + 1
    ensures forall i :: 0 < i < |LexLine(line)| ==> !LexLine(line)[i].White?
    ensures (|LexLine(line)| > 0 && LexLine(line)[0].White?) <==> (|line| > 0 && IsWhite(line[0]))
  {
    LexedTokensShape(Words(line));
  }

  // ---------------------------------------------------------------------------
  // Splitting a line at its first label

  /** The position of the first label definition, or the length if there is none. */
  function FirstLabel(toks: seq<Token>): (i: nat)
    ensures i <= |toks|
    ensures forall j :: 0 <= j < i ==> !toks[j].LabelDef?
    ensures i < |toks| ==> toks[i].LabelDef?
  {
    if toks == [] then 0
    else if toks[0].LabelDef? then 0
    else 1 + FirstLabel(toks[1..])
  }

  /** The tokens that are not the white-space marker, in order. */
  function DropWhite(toks: seq<Token>): (r: seq<Token>)
    ensures |r| <= |toks|
    ensures forall i :: 0 <= i < |r| ==> !r[i].White?
    ensures (forall i :: 0 <= i < |toks| ==> !toks[i].White?) ==> r == toks
  {
    if toks == [] then []
    else (if toks[0].White? then [] else [toks[0]]) + DropWhite(toks[1..])
  }

  // ---------------------------------------------------------------------------
  // Selecting a catalog entry

  /** The address an alias names: its lower-case spelling is looked up. */
  function AliasOf(name: string): (r: Option<int>)
    ensures r.Some? <==> ToLower(name) in BuiltinAliases
    ensures r.Some? ==> 64 <= r.value <= 71
  {
    var key := ToLower(name);
    if key in BuiltinAliases then
      assert key in {"a", "b", "c", "d", "e", "f", "g", "h"};
      Some(BuiltinAliases[key])
    else None
  }

  /** The alias check as the source writes it: whether the word is accepted as an
      alias is decided by its lower-case spelling, but the address is looked up
      with the spelling as written, which is missing for an upper-case alias. */
  function AliasOfAsWritten(name: string): (r: Option<Option<int>>)
    ensures r.Some? <==> ToLower(name) in BuiltinAliases
  {
    if ToLower(name) in BuiltinAliases then
      Some(if name in BuiltinAliases then Some(BuiltinAliases[name]) else None)
    else None
  }

  /** `A` is accepted as an alias but names no address as written; the corrected
      lookup gives address 64. */
  lemma AliasCaseFinding()
    ensures AliasOfAsWritten("A") == Some(None)
    ensures AliasOf("A") == Some(64)
  {
    assert ToLower("A") == "a";
  }

  /** For a lower-case word both lookups agree. */
  lemma AliasLowerAgrees(name: string)
    requires IsLower(name)
    ensures AliasOfAsWritten(name) == if AliasOf(name).Some? then Some(AliasOf(name)) else None
  {
    ToLowerFacts(name);
  }

  /** Whether an argument token suits an argument kind: the argument it records
      and whether it is an address used as a jump target. */
  function Accept(kind: ArgType, tok: Token, jumpAddress: bool): Option<(AsmArgument, bool)> {
    match kind
    case Val => if tok.Integer? then Some((AsmValue(tok.n), false)) else None
    case AdrSrc => AcceptAddress(tok)
    case AdrDst => AcceptAddress(tok)
    case Tar =>
      if tok.LineNum? then Some((AsmLineNumber(tok.n), false))
      else if tok.Identifier? then Some((AsmIdentifier(tok.name), false))
      else if jumpAddress && tok.Address? then Some((AsmAddress(tok.n), true))
      else None
    case NoArg => None
  }

  function AcceptAddress(tok: Token): Option<(AsmArgument, bool)> {
    if tok.Address? then Some((AsmAddress(tok.n), false))
    else if tok.Identifier? && AliasOf(tok.name).Some? then Some((AsmAddress(AliasOf(tok.name).value), false))
    else None
  }

  /** An argument of the right kind for an argument kind. */
  predicate Fits(kind: ArgType, arg: AsmArgument, addressTarget: bool) {
    match kind
    case NoArg => arg.NoArgument? && !addressTarget
    case Val => arg.AsmValue? && !addressTarget
    case AdrSrc => arg.AsmAddress? && !addressTarget
    case AdrDst => arg.AsmAddress? && !addressTarget
    case Tar => ((arg.AsmLineNumber? || arg.AsmIdentifier?) && !addressTarget) || (arg.AsmAddress? && addressTarget)
  }

  /** The first entry, in the given order, that accepts the token. */
  function FirstAccepting(entries: seq<CodedInstruction>, tok: Token, jumpAddress: bool): (r: Option<(CodedInstruction, AsmArgument, bool)>)
    ensures r.Some? ==> r.value.0 in entries && Accept(r.value.0.instruction.argType, tok, jumpAddress) == Some((r.value.1, r.value.2))
    ensures r.None? <==> forall i :: 0 <= i < |entries| ==> Accept(entries[i].instruction.argType, tok, jumpAddress).None?
  {
    if entries == [] then None
    else
      var a := Accept(entries[0].instruction.argType, tok, jumpAddress);
      if a.Some? then Some((entries[0], a.value.0, a.value.1))
      else
        var rest := FirstAccepting(entries[1..], tok, jumpAddress);
        assert forall i :: 1 <= i < |entries| ==> entries[i] == entries[1..][i - 1];
        rest
  }

  /** The search stops at the first entry that accepts the token. */
  lemma {:induction false} FirstAcceptingAt(entries: seq<CodedInstruction>, tok: Token, jumpAddress: bool, i: int)
    requires 0 <= i < |entries|
    requires forall j :: 0 <= j < i ==> Accept(entries[j].instruction.argType, tok, jumpAddress).None?
    requires Accept(entries[i].instruction.argType, tok, jumpAddress).Some?
    ensures var a := Accept(entries[i].instruction.argType, tok, jumpAddress).value;
      FirstAccepting(entries, tok, jumpAddress) == Some((entries[i], a.0, a.1))
  {
    if i > 0 {
      assert forall j :: 0 <= j < i - 1 ==> entries[1..][j] == entries[j + 1];
      FirstAcceptingAt(entries[1..], tok, jumpAddress, i - 1);
    }
  }

  lemma AcceptFits(kind: ArgType, tok: Token, jumpAddress: bool)
    ensures Accept(kind, tok, jumpAddress).Some? ==>
      Fits(kind, Accept(kind, tok, jumpAddress).value.0, Accept(kind, tok, jumpAddress).value.1)
    ensures Accept(kind, tok, jumpAddress).Some? && Accept(kind, tok, jumpAddress).value.1 ==> jumpAddress
  {
  }

  /** The first argument-less entry among those given. */
  function FirstNullary(entries: seq<CodedInstruction>): (r: Option<CodedInstruction>)
    ensures r.Some? ==> r.value in entries && r.value.instruction.argType == NoArg
    ensures r.None? <==> forall i :: 0 <= i < |entries| ==> entries[i].instruction.argType != NoArg
  {
    if entries == [] then None
    else if entries[0].instruction.argType == NoArg then Some(entries[0])
    else
      assert forall i :: 1 <= i < |entries| ==> entries[i] == entries[1..][i - 1];
      FirstNullary(entries[1..])
  }

  /** The entries that take an argument, in order. */
  function WithArgument(entries: seq<CodedInstruction>): (r: seq<CodedInstruction>)
    ensures forall e :: e in r <==> e in entries && e.instruction.argType != NoArg
  {
    if entries == [] then []
    else (if entries[0].instruction.argType != NoArg then [entries[0]] else []) + WithArgument(entries[1..])
  }

  /** What an instruction part of a line amounts to. */
  datatype Selection =
    | NoTokens
    | NotMnemonic
    | Chosen(entry: CodedInstruction, argument: AsmArgument, addressTarget: bool)
    | Superfluous
    | MissingArgument
    | WrongToken

  predicate IsMnemonic(mnemonics: map<string, Operation>, tok: Token) {
    tok.Identifier? && tok.name in mnemonics
  }

  /** `interpret_instruction`: a lone mnemonic selects the operation's argument-less
      entry; a mnemonic and one argument select the first entry taking an argument
      that accepts it; anything else is refused with its reason. */
  function Select(mnemonics: map<string, Operation>, jumpAddress: bool, toks: seq<Token>): (r: Selection)
    ensures r == NoTokens <==> toks == []
    ensures r == NotMnemonic <==> toks != [] && !IsMnemonic(mnemonics, toks[0])
    ensures r.Chosen? ==> IsMnemonic(mnemonics, toks[0]) && r.entry in Matching(mnemonics[toks[0].name])
  {
    if toks == [] then NoTokens
    else if !IsMnemonic(mnemonics, toks[0]) then NotMnemonic
    else SelectAmong(Matching(mnemonics[toks[0].name]), jumpAddress, toks[1..])
  }

  /** The choice among the entries of the mnemonic's operation, given the
      tokens after the mnemonic. */
  function SelectAmong(matching: seq<CodedInstruction>, jumpAddress: bool, args: seq<Token>): (r: Selection)
    ensures r !in {NoTokens, NotMnemonic}
    ensures r.Chosen? ==>
      && r.entry in matching
      && Fits(r.entry.instruction.argType, r.argument, r.addressTarget)
      && (r.addressTarget ==> jumpAddress)
      && (args == [] <==> r.argument.NoArgument?)
      && |args| <= 1
    ensures r == Superfluous <==> |args| > 1
    ensures r == MissingArgument <==> args == [] && FirstNullary(matching).None?
    ensures r == WrongToken <==>
      |args| == 1 && forall i :: 0 <= i < |matching| && matching[i].instruction.argType != NoArg ==>
        Accept(matching[i].instruction.argType, args[0], jumpAddress).None?
  {
    var nullary := FirstNullary(matching);
    if args == [] && nullary.Some? then Chosen(nullary.value, NoArgument, false)
    else
      var unary := WithArgument(matching);
      var pick := if |args| == 1 && |unary| > 0 then FirstAccepting(unary, args[0], jumpAddress) else None;
      if pick.Some? then
        AcceptFits(pick.value.0.instruction.argType, args[0], jumpAddress);
        Chosen(pick.value.0, pick.value.1, pick.value.2)
      else if |args| > 1 then Superfluous
      else if args == [] then MissingArgument
      else
        assert forall i :: 0 <= i < |matching| && matching[i].instruction.argType != NoArg ==> matching[i] in unary;
        WrongToken
  }

  /** A selected entry is a catalog entry of the mnemonic's operation, and the
      argument fits its kind. */
  lemma SelectChosen(mnemonics: map<string, Operation>, jumpAddress: bool, toks: seq<Token>)
    requires Select(mnemonics, jumpAddress, toks).Chosen?
    ensures var r := Select(mnemonics, jumpAddress, toks);
      && IsMnemonic(mnemonics, toks[0])
      && r.entry in InstructionSet
      && r.entry.instruction.operation == mnemonics[toks[0].name]
      && Fits(r.entry.instruction.argType, r.argument, r.addressTarget)
      && (r.addressTarget ==> jumpAddress)
      && (|toks| == 1 <==> r.argument.NoArgument?)
      && (|toks| == 1 || |toks| == 2)
  {
    var op := mnemonics[toks[0].name];
    MatchingIsFilter(op);
  }

  /** A mnemonic with one argument is accepted whenever some entry of its
      operation accepts the argument, and the earliest such entry is chosen. */
  lemma SelectFindsEntry(mnemonics: map<string, Operation>, jumpAddress: bool, toks: seq<Token>, k: int)
    requires |toks| == 2 && IsMnemonic(mnemonics, toks[0])
    requires var unary := WithArgument(Matching(mnemonics[toks[0].name]));
      0 <= k < |unary| && Accept(unary[k].instruction.argType, toks[1], jumpAddress).Some?
    ensures Select(mnemonics, jumpAddress, toks).Chosen?
    ensures Select(mnemonics, jumpAddress, toks).entry.instruction.argType != NoArg
  {
    var m := Matching(mnemonics[toks[0].name]);
    var unary := WithArgument(m);
    assert unary[k] in unary;
    assert toks[1..][0] == toks[1];
    var pick := FirstAccepting(unary, toks[1], jumpAddress);
    assert pick.Some?;
    assert pick.value.0 in unary;
  }

  /** Only `nop` and `end` stand alone; every other mnemonic on its own lacks its argument. */
  lemma LoneMnemonic(mnemonics: map<string, Operation>, jumpAddress: bool, name: string)
    requires name in mnemonics
    ensures var r := Select(mnemonics, jumpAddress, [Identifier(name)]);
      if mnemonics[name] in {Nop, End} then r.Chosen? && r.entry.instruction == Instruction(mnemonics[name], NoArg)
      else r == MissingArgument
  {
    var op := mnemonics[name];
    var m := Matching(op);
    MatchingShape(op);
    assert [Identifier(name)][1..] == [];
    if op in {Nop, End} {
      assert m[0].instruction.argType == NoArg;
      assert FirstNullary(m) == Some(m[0]);
    } else {
      assert forall i :: 0 <= i < |m| ==> m[i].instruction.argType != NoArg;
    }
  }

  // ---------------------------------------------------------------------------
  // Mnemonics

  /** The mnemonic each operation is written with by default. */
  function DefaultMnemonic(op: Operation): string {
    Name(op)
  }

  /** `real_mnemonics`: each operation in enumeration order under its replacement
      spelling if one is given, else its own name; a later operation that lands on
      the same spelling replaces the earlier one. */
  function RealMnemonics(replace: map<string, string>): map<string, Operation> {
    MnemonicsOf(replace, Operations)
  }

  /** The mnemonic table built from `ops` in order (see `MnemonicsOfLast` for
      which operation a shared spelling names). */
  function MnemonicsOf(replace: map<string, string>, ops: seq<Operation>): (m: map<string, Operation>)
    ensures forall k :: k in m ==> exists i :: 0 <= i < |ops| && SpellingOf(replace, ops[i]) == k && m[k] == ops[i]
    ensures forall i :: 0 <= i < |ops| ==> SpellingOf(replace, ops[i]) in m
  {
    if ops == [] then map[]
    else
      var init := ops[..|ops| - 1];
      var m := MnemonicsOf(replace, init);
      var last := ops[|ops| - 1];
      var r := m[SpellingOf(replace, last) := last];
      assert forall k :: k in r ==> exists i :: 0 <= i < |ops| && SpellingOf(replace, ops[i]) == k && r[k] == ops[i] by {
        forall k | k in r
          ensures exists i :: 0 <= i < |ops| && SpellingOf(replace, ops[i]) == k && r[k] == ops[i]
        {
          if k == SpellingOf(replace, last) {
            assert SpellingOf(replace, ops[|ops| - 1]) == k;
          } else {
            var i :| 0 <= i < |init| && SpellingOf(replace, init[i]) == k && m[k] == init[i];
            assert ops[i] == init[i];
          }
        }
      }
      assert forall i :: 0 <= i < |ops| ==> SpellingOf(replace, ops[i]) in r by {
        forall i | 0 <= i < |ops|
          ensures SpellingOf(replace, ops[i]) in r
        {
          if i < |init| {
            assert ops[i] == init[i];
          }
        }
      }
      r
  }

  /** A spelling names the last listed operation written with it, as
      `new Map(entries)` keeps the last entry for a repeated key. */
  lemma {:induction false} MnemonicsOfLast(replace: map<string, string>, ops: seq<Operation>, i: int)
    requires 0 <= i < |ops|
    requires forall j :: i < j < |ops| ==> SpellingOf(replace, ops[j]) != SpellingOf(replace, ops[i])
    ensures MnemonicsOf(replace, ops)[SpellingOf(replace, ops[i])] == ops[i]
  {
    if i < |ops| - 1 {
      var init := ops[..|ops| - 1];
      assert init[i] == ops[i];
      forall j | i < j < |init|
        ensures SpellingOf(replace, init[j]) != SpellingOf(replace, init[i])
      {
        assert init[j] == ops[j];
      }
      MnemonicsOfLast(replace, init, i);
    }
  }

  function SpellingOf(replace: map<string, string>, op: Operation): string {
    if Name(op) in replace then replace[Name(op)] else Name(op)
  }

  /** Without replacements every operation is known by its own name. */
  lemma DefaultMnemonics(op: Operation)
    ensures Name(op) in RealMnemonics(map[])
    ensures RealMnemonics(map[])[Name(op)] == op
  {
    var m := RealMnemonics(map[]);
    OperationsListed(op);
    assert SpellingOf(map[], op) == Name(op);
    var i :| 0 <= i < |Operations| && SpellingOf(map[], Operations[i]) == Name(op) && m[Name(op)] == Operations[i];
    NamesDistinct(Operations[i], op);
  }

  // ---------------------------------------------------------------------------
  // Labels

  /** A problem met while defining the labels of a line. */
  datatype LabelNote = Redefined | NotALabel

  /** `interpret_labels`: each label definition, lower-cased, maps to the line
      (a repeated name is noted but still overwritten); the first token that is not
      a label definition is noted and ends the line's labels. */
  function DefineLabels(labels: OMap<string, int>, line: int, toks: seq<Token>): (r: (OMap<string, int>, seq<LabelNote>))
    ensures labels.Valid() ==> r.0.Valid()
    decreases |toks|
  {
    if toks == [] then (labels, [])
    else if !toks[0].LabelDef? then (labels, [NotALabel])
    else
      var name := ToLower(toks[0].name);
      var note := if labels.Has(name) then [Redefined] else [];
      var rest := DefineLabels(labels.Set(name, line), line, toks[1..]);
      (rest.0, note + rest.1)
  }

  /** Defining labels keeps every earlier label, adds only lower-case names of
      the given tokens, and maps every label token in front of the first stray
      token to this line. */
  lemma {:induction false} DefineLabelsFacts(labels: OMap<string, int>, line: int, toks: seq<Token>)
    requires labels.Valid()
    ensures var m := DefineLabels(labels, line, toks).0;
      && (forall k :: k in labels.entries ==> k in m.entries)
      && (forall k :: k in m.entries && k !in labels.entries ==> IsLower(k))
      && (forall k :: k in m.entries ==> m.entries[k] == line || (k in labels.entries && m.entries[k] == labels.entries[k]))
      && (forall j :: 0 <= j < FirstNonLabel(toks) ==> ToLower(toks[j].name) in m.entries && m.entries[ToLower(toks[j].name)] == line)
    ensures |DefineLabels(labels, line, toks).1| <= |toks|
    decreases |toks|
  {
    if toks != [] && toks[0].LabelDef? {
      var name := ToLower(toks[0].name);
      ToLowerFacts(toks[0].name);
      var next := labels.Set(name, line);
      DefineLabelsFacts(next, line, toks[1..]);
      var m := DefineLabels(labels, line, toks).0;
      forall j | 0 <= j < FirstNonLabel(toks)
        ensures ToLower(toks[j].name) in m.entries && m.entries[ToLower(toks[j].name)] == line
      {
        if j > 0 {
          assert toks[j] == toks[1..][j - 1];
        }
      }
    }
  }

  /** The number of leading label definitions. */
  function FirstNonLabel(toks: seq<Token>): (i: nat)
    ensures i <= |toks|
    ensures forall j :: 0 <= j < i ==> toks[j].LabelDef?
    ensures i < |toks| ==> !toks[i].LabelDef?
  {
    if toks == [] || !toks[0].LabelDef? then 0 else 1 + FirstNonLabel(toks[1..])
  }
}
