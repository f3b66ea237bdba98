/** The data the assembler stages hand to each other: tokens, instruction
    arguments, the parse tree, the build result and the settings. */
module AsmTypes {
  import opened Wrappers
  import opened OrderedMaps
  import opened Platform

  /** A lexed word. `White` marks a line that starts with white space. */
  datatype Token =
    | White
    | Integer(n: int)
    | Address(n: int)
    | LineNum(n: int)
    | LabelDef(name: string)
    | Identifier(name: string)

  /** The argument recorded with an instruction: exactly one kind, or none. */
  datatype AsmArgument =
    | NoArgument
    | AsmValue(value: int)
    | AsmLineNumber(lineNumber: int)
    | AsmAddress(address: int)
    | AsmIdentifier(identifier: string)

  datatype AsmInstruction = AsmInstruction(instruction: Instruction, argument: AsmArgument, line: int)

  /** The argument has a variant the argument kind admits. */
  predicate ArgumentFits(kind: ArgType, arg: AsmArgument) {
    match kind
    case NoArg => arg.NoArgument?
    case Val => arg.AsmValue?
    case AdrSrc => arg.AsmAddress?
    case AdrDst => arg.AsmAddress?
    case Tar => arg.AsmLineNumber? || arg.AsmIdentifier? || arg.AsmAddress?
  }

  /** An instruction of the catalog (see `Platform.AdmitsIsCatalog`), with an
      argument of its kind. */
  predicate Encodable(ai: AsmInstruction) {
    Admits(ai.instruction.operation, ai.instruction.argType) && ArgumentFits(ai.instruction.argType, ai.argument)
  }

  /** Instructions by source line and label names by line, both in insertion order. */
  datatype ParseTree = ParseTree(instructionLines: OMap<int, AsmInstruction>, labels: OMap<string, int>)

  function EmptyTree(): (t: ParseTree)
    ensures t.instructionLines.Valid() && t.instructionLines.Size() == 0
    ensures t.labels.Valid() && t.labels.Size() == 0
  {
    ParseTree(Empty(), Empty())
  }

  /** A jump placeholder: the line of the jump and the line it targets, if the
      target is known (a label that was never defined has none). */
  datatype LinkEntry = LinkEntry(from: int, to: Option<int>)

  /** The bytes emitted so far (a byte is `None` where linking found no target),
      the offset of each emitting line and the placeholders by byte position. */
  class BuildResult {
    var executable: seq<Option<int>>
    var lineOffsets: OMap<int, int>
    var linkTable: OMap<int, LinkEntry>

    constructor()
      ensures executable == [] && lineOffsets.Valid() && lineOffsets.Size() == 0
      ensures linkTable.Valid() && linkTable.Size() == 0
    {
      executable := [];
      lineOffsets := Empty();
      linkTable := Empty();
    }
  }

  datatype Settings = Settings(
    replaceMnemonics: map<string, string>,
    integerMin: int,
    integerMax: int,
    programSize: int,
    memorySize: int,
    multipleLabels: bool,
    emptyLineJumps: bool,
    jumpAddress: bool,
    pastEnd: bool,
    nop: bool,
    initialWhite: bool)

  const Defaults: Settings := Settings(map[], -9999, 9999, 64, 72, false, false, false, false, false, false)

  /** The fields a caller chose to give. */
  datatype PartialSettings = PartialSettings(
    replaceMnemonics: Option<map<string, string>>,
    integerMin: Option<int>,
    integerMax: Option<int>,
    programSize: Option<int>,
    memorySize: Option<int>,
    multipleLabels: Option<bool>,
    emptyLineJumps: Option<bool>,
    jumpAddress: Option<bool>,
    pastEnd: Option<bool>,
    nop: Option<bool>,
    initialWhite: Option<bool>)

  const NoSettings: PartialSettings := PartialSettings(None, None, None, None, None, None, None, None, None, None, None)

  /** The defaults, overwritten by every field the caller gave. */
  function MakeSettings(p: PartialSettings): Settings {
    Settings(
      p.replaceMnemonics.GetOr(Defaults.replaceMnemonics),
      p.integerMin.GetOr(Defaults.integerMin),
      p.integerMax.GetOr(Defaults.integerMax),
      p.programSize.GetOr(Defaults.programSize),
      p.memorySize.GetOr(Defaults.memorySize),
      p.multipleLabels.GetOr(Defaults.multipleLabels),
      p.emptyLineJumps.GetOr(Defaults.emptyLineJumps),
      p.jumpAddress.GetOr(Defaults.jumpAddress),
      p.pastEnd.GetOr(Defaults.pastEnd),
      p.nop.GetOr(Defaults.nop),
      p.initialWhite.GetOr(Defaults.initialWhite))
  }

  /** The defaults: no renamed mnemonics, the range -9999..9999, 64 program bytes,
      72 memory cells and every extension switched off. */
  lemma DefaultValues()
    ensures MakeSettings(NoSettings) == Defaults
    ensures Defaults.replaceMnemonics == map[]
    ensures Defaults.integerMin == MOPS_MIN_INTEGER && Defaults.integerMax == MOPS_MAX_INTEGER
    ensures Defaults.programSize == 64 && Defaults.memorySize == 72
    ensures !Defaults.multipleLabels && !Defaults.emptyLineJumps && !Defaults.jumpAddress
    ensures !Defaults.pastEnd && !Defaults.nop && !Defaults.initialWhite
  {
  }

  /** A given field wins; a missing one keeps its default. */
  lemma SettingsOverride(p: PartialSettings)
    ensures var s := MakeSettings(p);
      && (p.programSize.Some? ==> s.programSize == p.programSize.value)
      && (p.programSize.None? ==> s.programSize == 64)
      && (p.pastEnd.Some? ==> s.pastEnd == p.pastEnd.value)
      && (p.pastEnd.None? ==> !s.pastEnd)
      && (p.emptyLineJumps.Some? ==> s.emptyLineJumps == p.emptyLineJumps.value)
      && (p.emptyLineJumps.None? ==> !s.emptyLineJumps)
      && (p.jumpAddress.Some? ==> s.jumpAddress == p.jumpAddress.value)
      && (p.jumpAddress.None? ==> !s.jumpAddress)
      && (p.multipleLabels.Some? ==> s.multipleLabels == p.multipleLabels.value)
      && (p.multipleLabels.None? ==> !s.multipleLabels)
      && (p.nop.Some? ==> s.nop == p.nop.value)
      && (p.nop.None? ==> !s.nop)
      && (p.replaceMnemonics.Some? ==> s.replaceMnemonics == p.replaceMnemonics.value)
      && (p.replaceMnemonics.None? ==> s.replaceMnemonics == map[])
      && (p.integerMin.Some? ==> s.integerMin == p.integerMin.value)
      && (p.integerMin.None? ==> s.integerMin == -9999)
      && (p.integerMax.Some? ==> s.integerMax == p.integerMax.value)
      && (p.integerMax.None? ==> s.integerMax == 9999)
      && (p.memorySize.Some? ==> s.memorySize == p.memorySize.value)
      && (p.memorySize.None? ==> s.memorySize == 72)
      && (p.initialWhite.Some? ==> s.initialWhite == p.initialWhite.value)
      && (p.initialWhite.None? ==> !s.initialWhite)
  {
  }
}
