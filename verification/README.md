# tsmops in Dafny

tsmops is a teaching toolkit for MOPS, a tiny accumulator machine with a
memory of decimal words in [-9999, 9999]. It has two parts, and this project
models both:

- **The assembler** turns MOPS assembly text into bytes. Each line holds an
  optional mnemonic, an optional argument (`42`, `$12`, `#3`, a label name or
  an alias `a`..`h`), optional `:label` definitions and an optional `;`
  comment. There are two generations of it:
  - the **staged assembler** (`src/assemble.ts`): a `Parse` stage lexes every
    word by its first character and records instructions and labels per line;
    a `Compile` stage emits one opcode byte plus an optional argument byte per
    instruction, recording every line's offset and a placeholder for every
    jump; a `Link` stage resolves the placeholders. Each stage keeps its own
    `Diagnostics` log of infos, warnings, extensions and errors, and
    `Assemble` appends the three logs;
  - the **legacy assembler** (`src/assembler.ts`): one object whose parse,
    compile and link share a single build and error flag. It makes the same
    choices of instruction and bytes, but reports them with numeric
    severities, lets a parse error block every byte, refuses indented lines,
    and resolves a jump to an empty line to a line number.
- **The virtual machine** runs the bytes. Each cycle is fetch, decode, operand
  fetch and execute, over the registers `ip`, `ir_lo`, `ir_hi`, `acc`, `opd`,
  `opr` and `cmp` and a memory of range-checked words. Every register and
  memory access is reported as an event. The generator version
  (`src/vm/mops_machine.ts`) yields its events and ends a run with exactly one
  `Halt`, or with one `FailState` after an exception. The older callback
  version (`src/vm/vm.ts`) hands its events to a callback, calls `halt` on
  `end`, and lets exceptions propagate.

The model is imperative where the source is. `Diagnostics`, `MopsByte`,
`Parse`, `Compile`, `Link`, `Assemble`, the legacy `Assembler` and the
`MopsMachine` are classes whose methods update their fields. Each method is
proved against a specification function of the old state. The properties
are then proved as lemmas about those functions. The platform catalog, the
settings, the lexer's word rules and the machine's stage semantics are
datatypes and functions.

Modules, in dependency order:

- `Wrappers`: `Option` and `Result`.
- `OrderedMaps`: JavaScript `Map` with insertion order.
- `Text`: the string operations the source uses (`split`, `toLowerCase`,
  `parseInt`, `padStart`).
- `Platform`: the opcode catalog, aliases, operator and comparison codes, and
  word bounds.
- `Bytes`: the range-checked word and its `format`.
- `Diag`: the diagnostics log.
- `AsmTypes`: tokens, arguments, parse tree, build result and settings.
- `Lexing`: the word and instruction-selection rules both assemblers share.
- `Parser`, `Compiler`, `Linker`, `Assembly`: the staged assembler.
- `Legacy`: `src/assembler.ts`.
- `Machine`: both versions of the VM.

## Model

| member | source | states |
|---|---|---|
| OrderedMaps.OMap.Get | src/assembler/parse.ts:159 | a lookup finds a value exactly when the key was set, and it is the value stored under that key |
| OrderedMaps.OMap.Set | src/assembler/parse.ts:96-98 | `Map.set` stores the value; a new key is appended to the insertion order and a present key keeps its place; key uniqueness is preserved |
| OrderedMaps.OMap.Values | src/compile.ts:63 | the values come out in key-insertion order, one per key |
| OrderedMaps.Empty | src/assembler_types.ts:40-41 | a fresh `Map` has no keys and no entries |
| Text.IntegerValue | src/assembler/parse.ts:24 | `parseInt` of a `[-+]?[0-9]+` word is non-positive when the word starts with `-`, non-negative otherwise |
| Text.DecimalString | src/vm/mops_byte.ts:32 | `toString` of a natural number is a non-empty digit string, a single digit exactly below 10 |
| Text.DecimalStringValue | src/vm/mops_byte.ts:32 | reading the decimal notation back gives the number again |
| Text.LeadingZeros | src/vm/mops_byte.ts:32 | zero padding in front of digits keeps their value |
| Text.PadStart | src/vm/mops_byte.ts:32 | `padStart` keeps the string as a suffix, fills the front with the pad character and reaches the requested width |
| Text.ToLower | src/assembler/parse.ts:196 | `toLowerCase` maps each character to its lower-case form and keeps the length |
| Text.ToLowerFacts | src/assembler/parse.ts:196-200 | lower-casing is idempotent, leaves lower-case text alone and keeps the identifier shape, so canonical label names are stable |
| Text.BeforeComment | src/assembler/parse.ts:228 | `line.split(";")[0]` is the longest prefix without a semicolon, cut at the first semicolon |
| Text.CommentCut | src/assembler/parse.ts:228 | everything after the first `;` is dropped, and a line without `;` is kept whole |
| Text.Lines | src/assembler/parse.ts:226 | splitting at line feeds gives at least one line, none containing a line feed |
| Text.LinesCount | src/assembler/parse.ts:226-227 | there is one line more than there are line feeds, so every line is numbered |
| Text.Words | src/assembler/parse.ts:86 | `split(/\s/).filter(x => x !== "")` yields only non-empty runs of non-white characters |
| Text.WordsKeepText | src/assembler/parse.ts:86 | the words concatenated are the line's non-white characters: splitting loses nothing but white space |
| Text.WordsOfWord | src/assembler/parse.ts:86 | a line without white space is one word (none if empty) |
| Text.WordsSplit | src/assembler/parse.ts:86 | a white character separates the words before it from those after it |
| Platform.OperationsListed | src/platform.ts:28-45 | every operation appears in the enumeration at its own index |
| Platform.NamesDistinct | src/assembler/parse.ts:16-19 | the default mnemonics (the enum member names) are pairwise distinct |
| Platform.Width | src/vm/mops_machine.ts:86 | an instruction takes one byte exactly when it has no argument, two otherwise |
| Platform.FindOpcodeIn | src/vm/mops_machine.ts:79 | `find` by opcode returns a listed entry with that opcode, and nothing exactly when no entry has it |
| Platform.FindByOpcode | src/vm/mops_machine.ts:79 | decoding against the catalog returns a catalog entry with the opcode, or nothing exactly when the opcode is unknown |
| Platform.FindInstructionIn | src/compile.ts:24 | `find` by instruction returns an opcode listed with that instruction, and nothing exactly when the instruction is not listed |
| Platform.OpcodeOf | src/compile.ts:24 | encoding gives the catalog opcode of the instruction, or nothing exactly when the catalog has no such instruction |
| Platform.FilterOperation | src/assembler/parse.ts:160 | filtering by operation keeps exactly the entries of that operation |
| Platform.OpcodesAdjacent | src/platform.ts:65-90 | the catalog lists opcodes in strictly increasing order |
| Platform.RanksAdjacent | src/platform.ts:65-90 | the catalog lists instructions in strictly increasing (operation, argument kind) order |
| Platform.CatalogUnique | src/platform.ts:65-90 | no two catalog entries share an opcode or an instruction |
| Platform.CodingRoundTrip | src/platform.ts:65-90 | decoding an entry's opcode gives the entry, and encoding its instruction gives the opcode |
| Platform.DecodeThenEncode | src/vm/mops_machine.ts:79 | re-encoding a decoded instruction gives the opcode back |
| Platform.AdmitsIsCatalog | src/platform.ts:65-90 | an instruction has an opcode exactly when its operation admits its argument kind |
| Platform.AdmittedListed | src/platform.ts:65-90 | every admitted (operation, argument kind) pair is listed |
| Platform.ListedAdmitted | src/platform.ts:65-90 | every listed pair is admitted |
| Platform.CatalogKinds | src/platform.ts:65-90 | only `nop` and `end` take no argument; jumps take targets; `st` and `in` take written addresses; the rest take a read address or a value |
| Platform.SpanExact | src/platform.ts:65-90 | each operation's entries occupy exactly one contiguous run of the catalog |
| Platform.FilterSpan | src/assembler/parse.ts:160 | filtering a contiguous run of matches gives that run |
| Platform.MatchingIsFilter | src/assembler/parse.ts:160 | the `matching` list of an operation is its catalog run, with exactly that operation's entries |
| Platform.SpanShape | src/platform.ts:65-90 | the run of each operation has the shape given in `MatchingShape` |
| Platform.MatchingShape | src/assembler/parse.ts:160-171 | the two-entry operations list a read address then a value; the others have a single entry of the listed kind |
| Platform.AliasesConsecutive | src/platform.ts:92-101 | the aliases `a`..`h` are eight names for the consecutive addresses 64..71 |
| Bytes.Trunc | src/vm/mops_byte.ts:21 | `Math.trunc` rounds toward zero, staying within one of the argument |
| Bytes.CheckWithin | src/vm/mops_byte.ts:19-24 | null is refused with "Null Byte!"; a finite value is accepted exactly when its truncation is in range; NaN passes; infinities are out of range |
| Bytes.CheckInteger | src/vm/mops_byte.ts:19-24 | an integer is accepted exactly when it lies in [-9999, 9999], and otherwise the error is "Out of Range!" |
| Bytes.FractionsTruncate | src/vm/mops_byte.ts:21-22 | 9999.5 and -9999.9 are accepted, -10000.5 is not |
| Bytes.StaticBoundsAgree | src/byte.ts:2-3 | the older word class's static bounds equal the platform bounds, so both classes accept the same values |
| Bytes.MopsByte.Blank | src/vm/mops_byte.ts:10 | a word before its setter runs holds nothing |
| Bytes.MopsByte.SetValue | src/vm/mops_byte.ts:19-24 | the setter reports the check's verdict, stores an accepted value unchanged and leaves the old value when it throws |
| Bytes.MopsByte.New | src/vm/mops_byte.ts:12-14 | construction fails exactly when the setter refuses the value, otherwise gives a fresh word holding it |
| Bytes.Check | src/vm/mops_byte.ts:19-24 | the setter's checks against the platform bounds: null is "Null Byte!", a value whose truncation leaves [-9999, 9999] or an infinity is "Out of Range!", NaN passes |
| Bytes.MaxDigits | src/vm/mops_byte.ts:26 | `max_digits` is 4, the length of "9999" |
| Bytes.Format | src/vm/mops_byte.ts:28-33 | `format` puts a minus sign exactly on negative values and zero-pads to at least four digits; in-range values take 4 or 5 characters |
| Bytes.DecimalLength | src/vm/mops_byte.ts:26-32 | numbers below 10000 need at most four digits, so padding alone fixes their width |
| Bytes.FormatRoundTrip | src/vm/mops_byte.ts:28-33 | reading a formatted value as an integer gives the value back |
| Bytes.FormatAnyAgrees | src/vm/mops_byte.ts:29 | a word and the number it holds format alike |
| Diag.RaiseFacts | src/diagnostics.ts:18-38 | unfolds the four raises into their effect on the log: each raise appends one entry with its severity, line and text; info and warning keep the flag, extension sets it exactly when disabled, error always sets it |
| Diag.AppendFacts | src/diagnostics.ts:40-44 | appending concatenates messages and ORs flags; it is associative, has the empty log as identity and only grows a log |
| Diag.GrowsTransitive | src/diagnostics.ts:18-44 | growth of a log (messages kept as a prefix, flag never cleared) is transitive |
| Diag.ExtensionIf | src/diagnostics.ts:30-33 | a conditional extension grows the log and sets the flag exactly when it fired while disabled |
| Diag.ErrorIf | src/diagnostics.ts:35-38 | a conditional error grows the log and sets the flag exactly when it fired |
| Diag.RaisesGrow | src/diagnostics.ts:18-38 | every kind of raise grows the log |
| Diag.Diagnostics.constructor | src/diagnostics.ts:15-16 | a new log is empty with the flag clear |
| Diag.Diagnostics.Info | src/diagnostics.ts:22-24 | `info` appends an info entry and keeps the flag |
| Diag.Diagnostics.Warning | src/diagnostics.ts:26-28 | `warning` appends a warning entry and keeps the flag |
| Diag.Diagnostics.Extension | src/diagnostics.ts:30-33 | `extension` appends an extension entry and sets the flag unless enabled |
| Diag.Diagnostics.Error | src/diagnostics.ts:35-38 | `error` appends an error entry and sets the flag |
| Diag.Diagnostics.Append | src/diagnostics.ts:40-44 | `append` adds the other log's messages at the end, ORs the flags and returns this log |
| AsmTypes.EmptyTree | src/assembler_types.ts:39-42 | a new parse tree has no instruction lines and no labels |
| AsmTypes.BuildResult.constructor | src/assembler_types.ts:49-53 | a new build result has no bytes, no line offsets and no link entries |
| AsmTypes.DefaultValues | src/assembler_types.ts:55-66 | the defaults: no renamed mnemonics, range -9999..9999, 64 program bytes, 72 memory cells, every extension off |
| AsmTypes.SettingsOverride | src/assembler_types.ts:68-70 | `Object.assign` lets each of the eleven fields win when given and keep its default when missing |
| Lexing.LexWord | src/assembler/parse.ts:34-81 | a word lexes exactly when the part after its class marker has the shape its class demands; integers, addresses, line numbers, label definitions and identifiers get their values; a malformed word reports its class |
| Lexing.LexedTokensShape | src/assembler/parse.ts:86-89 | the words of a line give at most one token each, never the white-space marker |
| Lexing.LexLineShape | src/assembler/parse.ts:83-90 | a line gives at most one token per word plus the marker, and the marker comes first exactly when the line starts with white space |
| Lexing.FirstLabel | src/assembler/parse.ts:205-206 | the split position is the first label definition, or the length when there is none |
| Lexing.DropWhite | src/assembler/parse.ts:208 | the white-space marker is removed and nothing else |
| Lexing.AliasOf | src/assembler/parse.ts:114-115 | (corrected) a word is an alias exactly when its lower-case spelling is one of `a`..`h`, and it names an address in 64..71 |
| Lexing.AliasOfAsWritten | src/assembler/parse.ts:114-115 | (as written) acceptance is decided on the lower-case spelling, the lookup uses the spelling as written |
| Lexing.AliasCaseFinding | src/assembler/parse.ts:114-115 | `A` is accepted as an alias but the written lookup finds no address, where the corrected lookup gives 64 |
| Lexing.AliasLowerAgrees | src/assembler/parse.ts:114-115 | for lower-case words the written and corrected lookups agree |
| Lexing.FirstAccepting | src/assembler/parse.ts:173-175 | the loop over unary entries takes an entry that accepts the token, and finds none exactly when no entry accepts it |
| Lexing.FirstAcceptingAt | src/assembler/parse.ts:173-175 | the first accepting entry in catalog order is the one taken |
| Lexing.AcceptFits | src/assembler/parse.ts:101-150 | `try_val`/`try_adr`/`try_tar` record an argument of the entry's kind, and an address target only when `jump_address` is on |
| Lexing.Accept | src/assembler/parse.ts:101-136 | the argument an argument kind takes from a token: a value from an integer, an address from an address or alias, a jump target from a line number or identifier, or from an address only when `jump_address` is on, in which case the use is flagged; nothing for any other token |
| Lexing.AcceptAddress | src/assembler/parse.ts:109-119 | an address token gives its address; an identifier gives an address exactly when it names an alias (the corrected lookup, see Findings and Left out); any other token gives nothing |
| Lexing.FirstNullary | src/assembler/parse.ts:162 | `find` of the argument-less entry gives one exactly when the operation has one |
| Lexing.WithArgument | src/assembler/parse.ts:171 | the unary list is exactly the entries that take an argument |
| Lexing.Select | src/assembler/parse.ts:152-187 | no tokens do nothing; a first token that is not a known mnemonic is refused; a chosen entry belongs to the mnemonic's operation |
| Lexing.SelectAmong | src/assembler/parse.ts:160-186 | a chosen entry fits its argument; "Superfluous token" exactly for more than one argument; "Missing argument" exactly for a lone mnemonic without an argument-less entry; "Wrong token" exactly when no unary entry accepts the single argument |
| Lexing.SelectChosen | src/assembler/parse.ts:159-175 | a selected entry is a catalog entry of the mnemonic's operation whose argument fits, and one token means no argument |
| Lexing.SelectFindsEntry | src/assembler/parse.ts:171-175 | a mnemonic with one argument is accepted whenever some unary entry accepts the argument |
| Lexing.LoneMnemonic | src/assembler/parse.ts:162-183 | only `nop` and `end` stand alone; any other lone mnemonic lacks its argument |
| Lexing.MnemonicsOf | src/assembler/parse.ts:16-19 | every listed operation's spelling is a key of the table, and every key is the spelling of a listed operation that it names |
| Lexing.MnemonicsOfLast | src/assembler/parse.ts:16-19 | `new Map(entries)` keeps the last entry per key: each spelling names the last listed operation with that spelling, so an operation whose spelling a later one reuses (say `div` replaced by `add`) is no longer reachable |
| Lexing.DefaultMnemonics | src/assembler/parse.ts:16-19 | without replacements every operation is known by its own name |
| Lexing.DefineLabels | src/assembler/parse.ts:189-202 | defining labels keeps the label map well formed |
| Lexing.DefineLabelsFacts | src/assembler/parse.ts:189-202 | earlier labels stay, new names are lower case, each label before the first stray token maps to this line, at most one note per token |
| Lexing.FirstNonLabel | src/assembler/parse.ts:190-194 | the labels loop handles exactly the leading label definitions |
| Parser.LexWordsStep | src/assembler/parse.ts:86-88 | lexing one more word appends its token (if it lexed) and its diagnostics |
| Parser.ParseLinesStep | src/assembler/parse.ts:226-230 | parsing one more line is one more iteration of the loop |
| Parser.Parse.constructor | src/assembler/parse.ts:14-21 | the mnemonic table is built from the settings' replacements and the final state is the parse of the whole code from the empty state |
| Parser.Parse.CheckRange | src/assembler/parse.ts:23-32 | a number below -9999 raises "Number too low to represent.", one above 9999 "Number too high to represent.", otherwise nothing |
| Parser.Parse.LexWord | src/assembler/parse.ts:75-81 | a well-shaped word gives its token (numbers range-checked but kept); a malformed one gives none and an error naming its class |
| Parser.Parse.LexLine | src/assembler/parse.ts:83-90 | the tokens are the start marker plus the tokens of the words that lexed, with the words' diagnostics |
| Parser.Parse.LexWords | src/assembler/parse.ts:86-89 | the loop over words gives the lexed tokens in order, with each word's diagnostics |
| Parser.Parse.PushInstructionAndLine | src/assembler/parse.ts:92-99 | the instruction is stored under the current line, and the first `end` fixes `first_end` |
| Parser.Parse.TryVal | src/assembler/parse.ts:101-107 | accepts exactly an integer token, recording a value argument, and changes nothing otherwise |
| Parser.Parse.TryAdr | src/assembler/parse.ts:109-119 | accepts exactly an address, or an identifier whose lower-case spelling is an alias, and records an address argument; for an alias it records the alias's address (the corrected lookup of the first Findings row, see Left out); it changes nothing when it does not accept |
| Parser.Parse.TryTar | src/assembler/parse.ts:121-136 | accepts a line number, an identifier, or (with `jump_address`) an address with an admitted extension, and changes nothing otherwise |
| Parser.Parse.TryUnary | src/assembler/parse.ts:138-150 | dispatches on the entry's argument kind; acceptance and the new state are those of the matching acceptor |
| Parser.Parse.InterpretInstruction | src/assembler/parse.ts:152-159 | no tokens do nothing, a non-mnemonic first token is an error, otherwise the operation's entries are tried |
| Parser.Parse.InterpretArguments | src/assembler/parse.ts:160-186 | the state is that of the selection outcome: the lone entry (with the `nop` extension), the first accepting unary entry, or one of the three errors |
| Parser.Parse.InterpretLabels | src/assembler/parse.ts:189-202 | each label is stored lower-cased under the line, a redefinition is an error, and a non-label token is an error that ends the loop |
| Parser.Parse.InterpretLine | src/assembler/parse.ts:204-223 | splits at the first label, raises the shape extensions (indentation, labels on empty lines, several labels), then interprets instruction and labels |
| Parser.Parse.ParseCode | src/assembler/parse.ts:225-231 | the final state is the fold of the line step over the code's lines |
| Parser.Parse.ParseLine | src/assembler/parse.ts:227-229 | one iteration: next line number, comment cut, lex, interpret |
| Parser.StartWellFormed | src/assembler/parse.ts:7-12 | a fresh parser is well formed, empty and error-free |
| Parser.PushFacts | src/assembler/parse.ts:92-99 | recording a catalog instruction under a new, later line keeps the invariant and appends that line to the recorded order |
| Parser.InstructionSpecFacts | src/assembler/parse.ts:152-187 | interpreting the instruction part records exactly the selected entry under the current line; any refusal records nothing and raises exactly one error |
| Parser.ChosenFacts | src/assembler/parse.ts:163-175 | recording a chosen entry keeps the invariant, adds it under the current line and only grows the log |
| Parser.LabelsSpecFacts | src/assembler/parse.ts:189-202 | interpreting labels updates the label table as `DefineLabels` does, leaves instructions alone and raises one error per note |
| Parser.LineSpecFacts | src/assembler/parse.ts:204-223 | a line keeps the invariant, adds at most its own instruction, keeps earlier instructions and labels, and only grows the log |
| Parser.LineShapeGrows | src/assembler/parse.ts:211-219 | the shape extensions only grow the log |
| Parser.LineStepFacts | src/assembler/parse.ts:226-230 | one iteration advances the line number by one and keeps everything earlier |
| Parser.WordsStepFacts | src/assembler/parse.ts:226-230 | the same for any words and tokens of the line |
| Parser.LexedFacts | src/assembler/parse.ts:227-229 | lexing the next line's words keeps the invariant and only grows the log |
| Parser.NextLine | src/assembler/parse.ts:227 | moving to the next line keeps the invariant, with nothing yet recorded under it |
| Parser.LexWordsGrow | src/assembler/parse.ts:83-90 | lexing diagnostics only grow the log |
| Parser.ParseLinesFacts | src/assembler/parse.ts:225-231 | parsing lines keeps the invariant, numbers them consecutively and only grows the log |
| Parser.ParseFacts | src/assembler/parse.ts:14-21 | a whole parse is well formed (ordered lines, catalog instructions with fitting arguments, first `end` tracked, lower-case labels) and ends on line number newlines + 1 |
| Parser.CommentIgnored | src/assembler/parse.ts:228 | only the text before the first `;` of a line affects the parse |
| Parser.LexWordDiagnostics | src/assembler/parse.ts:23-81 | a malformed word gives exactly one error naming its class; an out-of-range number gives exactly one range error and is kept; anything else adds nothing |
| Parser.RangeLog | src/assembler/parse.ts:23-32 | `check_range`: an error below the lower or above the upper integer bound, the log kept otherwise |
| Parser.LexWordLog | src/assembler/parse.ts:75-81 | the diagnostics of lexing one word: the error named for its class ("Integer is invalid.", "Address is invalid.", …) for a malformed word, the range check for a number, nothing otherwise |
| Parser.LexWordsLog | src/assembler/parse.ts:86-89 | the diagnostics of a line's words, word by word in order |
| Parser.PushSpec | src/assembler/parse.ts:92-99 | `push_instruction_and_line`: the instruction is recorded under the current line, and a first `end` line is remembered |
| Parser.ChosenSpec | src/assembler/parse.ts:163-175 | a chosen catalog entry is recorded, `nop` raising its extension (an error unless `nop` is on) and an address used as a jump target raising an admitted extension |
| Parser.SelectionSpec | src/assembler/parse.ts:152-187 | the outcome of choosing an entry becomes the state: a chosen entry is recorded, a refusal raises its error ("First token is not a mnemonic.", "Superfluous token found.", "Missing argument.", "Wrong token found.") |
| Parser.InstructionSpec | src/assembler/parse.ts:152-187 | `interpret_instruction`: the selection for the line's tokens applied to the state |
| Parser.LabelsSpec | src/assembler/parse.ts:189-202 | `interpret_labels`: each label, lower-cased, is defined at the current line, a label already defined raising "Redefinition of label."; a token that is not a label ends the loop with "Different token after label definition." |
| Parser.LineShapeLog | src/assembler/parse.ts:211-219 | the shape checks of a line, each an extension: an indented mnemonic (gated by `initial_white`), labels on a line without an instruction (gated by `empty_line_jumps`), several labels (gated by `multiple_labels`) |
| Parser.LineSpec | src/assembler/parse.ts:204-223 | `interpret_line`: the tokens before the first label definition, without the white-space marker, are the instruction and the rest the labels; the shape checks, then the instruction, then the labels |
| Parser.ParseLines | src/assembler/parse.ts:225-231 | the loop of the constructor over the lines, one iteration per line in order |
| Parser.ParseSpec | src/assembler/parse.ts:14-21 | `new Parse(settings, code)`: the mnemonic table from the replacements, then every line of the code parsed from a fresh state |
| Compiler.InstructionsEncodable | src/compile.ts:77-79 | the instructions the loop walks, in line order, are catalog instructions recorded under their own lines |
| Compiler.EpilogueFacts | src/compile.ts:81-87 | the closing checks only add messages and enter the error state exactly when there is no `end` line and `past_end` is off |
| Compiler.InstructionStep | src/compile.ts:20-59 | one instruction leaves the log alone; an emitting line appends its opcode and any argument byte and records the opcode's offset; a blocked line changes neither; a jump's placeholder is keyed at the last byte |
| Compiler.PushStep | src/compile.ts:20-32 | `push_bytes` emits nothing once the log is in error or past the first `end` without `past_end`; otherwise it appends the catalog opcode, then the argument, and records the opcode's position |
| Compiler.LayoutStep | src/compile.ts:34-59 | an instruction on a later line keeps the build's layout and appends at most two bytes |
| Compiler.ShapeKeepsLayout | src/compile.ts:20-59 | appending numbered bytes under a new, later line, or changing only placeholders, keeps the layout |
| Compiler.StepShape | src/compile.ts:34-59 | one instruction keeps the log, appends at most two bytes and keys placeholders inside the bytes (or at -1) |
| Compiler.LinkOnlyKeepsLayout | src/compile.ts:40-48 | changing only placeholders keeps the layout |
| Compiler.EmittedBytes | src/compile.ts:26-29 | the bytes an emitting instruction appends hold numbers |
| Compiler.AppendKeepsOffsets | src/compile.ts:26-31 | appending bytes and recording a later line at the first of them keeps offsets increasing and inside the bytes |
| Compiler.CompileAllLayout | src/compile.ts:77-79 | the loop keeps the layout and the log, emits at most two bytes per instruction, nothing once the log is in error, and records only lines up to the last instruction |
| Compiler.LabelChecksFacts | src/compile.ts:71-75 | the label loop raises one error per label after the last instruction's line, and enters the error state exactly when there is one |
| Compiler.CompileCrashes | src/compile.ts:61-87 | `compile` throws exactly when there is no instruction and a check needs the last one: a negative `program_size`, a label, or an `end` line |
| Compiler.CompileFacts | src/compile.ts:61-87 | a finished compile keeps the layout with at most two bytes per instruction; too many instructions or a label after the last instruction leave no bytes and an error |
| Compiler.Compile.constructor | src/compile.ts:13-18 | the new object's build and log are those `compile` specifies, or it has thrown |
| Compiler.Compile.PushBytes | src/compile.ts:20-32 | the new state is `push_bytes`' specification |
| Compiler.Compile.SetCode | src/compile.ts:26-31 | replaces the bytes and offsets and nothing else |
| Compiler.Compile.CompileInstruction | src/compile.ts:34-59 | emits the argument byte for each argument kind (a label's line, 0 for a line reference, the address or value) and records a placeholder for each jump |
| Compiler.Compile.SetPlaceholder | src/compile.ts:40-48 | records a link entry keyed at the last emitted byte |
| Compiler.Compile.CheckLabels | src/compile.ts:71-75 | the loop's log is the specified label checks |
| Compiler.Compile.CompileInstructions | src/compile.ts:77-79 | the loop's state is the fold of the instruction step |
| Compiler.Compile.Run | src/compile.ts:61-87 | the object ends in the state, or the throw, that `compile` specifies |
| Compiler.Emits | src/compile.ts:21-22 | `push_bytes` emits exactly when its own log is clean and the line is not past the first `end`, or `past_end` is on |
| Compiler.PushBytesSpec | src/compile.ts:20-32 | `push_bytes`: a blocked line changes nothing; otherwise the opcode and the argument byte when there is one are appended and the line's offset is the opcode's position |
| Compiler.ArgumentByte | src/compile.ts:35-55 | the argument byte: a value or address as written, a label's line (none for an undefined label), 0 for a line-number jump |
| Compiler.LinkFor | src/compile.ts:38-48 | the placeholder of a jump: its own line and the line it targets, unknown for an undefined label; no placeholder for any other argument |
| Compiler.Placeholder | src/compile.ts:40-48 | a placeholder keyed at `executable.length - 1`, the last byte emitted so far |
| Compiler.CompileInstructionSpec | src/compile.ts:34-59 | `compile_instruction`: push the instruction's bytes, then record its placeholder at the last byte, whether or not this line emitted |
| Compiler.CompileAll | src/compile.ts:77-79 | the instruction loop, one instruction after another in line order |
| Compiler.LabelChecks | src/compile.ts:71-75 | the label loop: "Label does not belong to any instruction." for every label line after the last instruction |
| Compiler.Epilogue | src/compile.ts:81-87 | an info when code follows the first `end`, and the omitted-`end` extension when there is no `end` line |
| Compiler.CompileSpec | src/compile.ts:61-87 | `compile`: more than twice `program_size` instructions is "Program too large."; each check that needs the last instruction throws when there is none; otherwise the label loop, the instruction loop and the closing checks |
| Linker.FindTarget | src/assembler/link.ts:20-21 | a target is found exactly when the jump's line is known and some line with code lies at or after it |
| Linker.FindTargetPicksFirst | src/assembler/link.ts:20-21 | the target is the offset of the first recorded line at or after the jump's line |
| Linker.TargetIsNextLine | src/assembler/link.ts:20-21 | with lines in increasing order, a jump to an empty line goes to the next line with code |
| Linker.TargetOfLineWithCode | src/assembler/link.ts:20-21 | a jump to a line with code goes to that line's own offset |
| Linker.EntryFacts | src/assembler/link.ts:19-32 | resolving one placeholder writes only its own byte, to the target, and enters the error state exactly when the placeholder is not resolved cleanly |
| Linker.EntryLogFacts | src/assembler/link.ts:22-30 | "Jump does not target anything" when no target; the empty-line and past-end extensions, each gated by its setting; the log only grows |
| Linker.LinkEntriesFacts | src/assembler/link.ts:19-32 | after the loop every placeholder byte holds its target, every other byte is as compiled, and the error state records any unclean placeholder |
| Linker.UntouchedStep | src/assembler/link.ts:31 | bytes no placeholder names keep their value |
| Linker.TargetsStep | src/assembler/link.ts:31 | each step keeps the targets already written and writes its own |
| Linker.LinkFacts | src/assembler/link.ts:18-36 | `link` keeps the length, fills every placeholder with its target, keeps the other bytes, and errs exactly on an unclean placeholder or more than `program_size` bytes |
| Linker.Link.constructor | src/assembler/link.ts:11-16 | the shared build is linked in place: offsets and link table kept, bytes and log as `link` specifies |
| Linker.Link.Target | src/assembler/link.ts:20-21 | the search loop returns the specified target |
| Linker.Link.LinkOne | src/assembler/link.ts:19-32 | one iteration updates bytes and log as specified for one placeholder |
| Linker.Link.Run | src/assembler/link.ts:18-36 | the loop and the size check leave the bytes and log `link` specifies |
| Linker.EntryLog | src/assembler/link.ts:22-30 | the diagnostics of one placeholder: an error when no target is found, the empty-line extension when the target line has no code, the past-end extension when it lies after the first `end` |
| Linker.LinkEntrySpec | src/assembler/link.ts:19-32 | one placeholder: its byte becomes the target's offset (none when not found) and its diagnostics are appended |
| Linker.LinkEntries | src/assembler/link.ts:19-32 | the placeholder loop, in the order the placeholders were first recorded |
| Linker.LinkSpec | src/assembler/link.ts:18-36 | `link`: every placeholder, then "Program is too large." when the bytes exceed `program_size` |
| Assembly.ParsedCompilable | src/assemble.ts:13-14 | the parse tree handed to the compile stage is compilable, and an `end` line is known only when there is an instruction |
| Assembly.AssembleStages | src/assemble.ts:11-23 | the parse of the code under the completed settings is well formed, and assembling is the later stages run on it |
| Assembly.AssembleThrows | src/assemble.ts:14 | assembling throws exactly when the code holds no instruction and `program_size` is negative or a label is defined |
| Assembly.AssembleLog | src/assemble.ts:17-22 | the result is the linked build; the combined log holds the parse, compile and link messages in that order and is in error exactly when one of them is |
| Assembly.CleanLink | src/assembler/link.ts:18-36 | a link without error leaves a number in every byte, at most `program_size` bytes, and every jump to a line with code pointing at that line's offset |
| Assembly.LinkedJumps | src/assembler/link.ts:19-32 | jumps to lines with code are linked to that line's offset, error or not |
| Assembly.LinkedFilled | src/assembler/link.ts:18-36 | after a clean link every byte holds a number and the program fits |
| Assembly.CleanBuild | src/assemble.ts:11-23 | an error-free build has numbers in every byte, at most `program_size` bytes and two per instruction, offsets inside the bytes, and jumps to lines with code linked to them |
| Assembly.LinkedEmptyLineJump | src/assembler/link.ts:20-31 | a jump to a line without code is linked to the next line that has code |
| Assembly.BlockedJumpOverwritesEarlierByte | src/compile.ts:38-48 | a jump after the first `end` with `past_end` off emits nothing but still keys its placeholder at the last byte already emitted, so linking overwrites that earlier instruction's byte with the jump's target; e.g. in `jmp #1`, `end`, `jmp #1` the `end` opcode at offset 2 is overwritten with 0, the offset of line 1, by the link step (src/assembler/link.ts:31), and the only diagnostic is the info about code after `end` |
| Assembly.Assemble.constructor | src/assemble.ts:11-23 | the object holds the assembled build and combined log, or the compile stage's exception |
| Assembly.Assemble.Run | src/assemble.ts:12-15 | settings are completed from the partial ones, then parse, compile and link run in order |
| Assembly.Assemble.CompileAndLink | src/assemble.ts:14-22 | compile and link on the parse's tree, sharing the build, with the three logs appended in order |
| Assembly.CompileParsed | src/assemble.ts:14 | the compile stage on the parse tree and first `end` line of the parse |
| Assembly.LinkCompiled | src/assemble.ts:15 | the link stage on the compiled bytes, offsets and placeholders |
| Assembly.Stages | src/assemble.ts:14-22 | a throw from compile ends assembling; otherwise the linked bytes with the parse, compile and link logs appended in that order |
| Assembly.AssembleSpec | src/assemble.ts:11-23 | the `Assemble` constructor: complete the settings, parse, then compile and link |
| Legacy.KeptTransitive | src/assembler.ts:93-99 | keeping the earlier diagnostics and error flag is transitive across phases of one build |
| Legacy.RaiseFacts | src/assembler.ts:122-141 | unfolds the three raises into their effect on the state: `raise_info` appends an info near the given line and leaves the flag; `raise_err` sets the flag and files the diagnostic under the current line, its optional argument becoming the severity; `raise_strict` appends an extension or an error and sets the flag exactly when the extension is not allowed |
| Legacy.LexStep | src/assembler.ts:191-198 | lexing one more word of a line adds at most that word's token and that word's diagnostic |
| Legacy.LexWordsFacts | src/assembler.ts:143-198 | lexing a line raises exactly one `invalid_token` error per malformed word, near the current line, and nothing for a well-formed word |
| Legacy.LexWordsKeep | src/assembler.ts:191-198 | lexing changes nothing but the diagnostics and the error flag, and only adds to them |
| Legacy.ParseLinesStep | src/assembler.ts:326-332 | parsing one more line is one more iteration of `parse` on that line with its comment removed |
| Legacy.InstructionAgrees | src/assembler.ts:260-291 | for the same tokens, `interpret_instruction` records the same instruction and first `end` as the staged parser, only adds diagnostics and leaves the build's bytes alone |
| Legacy.SelectionAgrees | src/assembler.ts:246-291 | every outcome of choosing a catalog entry changes the tree as the staged parser does and only adds diagnostics |
| Legacy.LabelsAgree | src/assembler.ts:293-306 | `interpret_labels` defines labels exactly as the staged parser does, never touches the instructions, and only adds diagnostics |
| Legacy.IndentedLineRejected | src/assembler.ts:191-198 | a line starting with white space records no instruction and raises a `missing_token` error near its line, whatever follows |
| Legacy.WellFormedSame | src/assembler.ts:308-324 | the parse tree's invariant depends on the line, tree and first `end` only, not on the diagnostics |
| Legacy.ShapeKeeps | src/assembler.ts:315-320 | the shape checks of `interpret_line` only add diagnostics |
| Legacy.LineFacts | src/assembler.ts:308-324 | interpreting a line keeps the parse tree's invariant, the line number and the build, and only adds diagnostics |
| Legacy.NextLineReady | src/assembler.ts:328 | moving to the next line keeps the invariant, with no instruction yet recorded under the new line |
| Legacy.LineStepFacts | src/assembler.ts:327-331 | one iteration of `parse` keeps the invariant and the build, advances the line by one and only adds diagnostics |
| Legacy.LexedFacts | src/assembler.ts:328-330 | lexing the next line keeps the invariant and the build and moves to the next line |
| Legacy.ParseLinesFacts | src/assembler.ts:326-332 | `parse` keeps the invariant and the build, numbers the lines on from the current one, and only adds diagnostics |
| Legacy.ReadyCompiles | src/assembler.ts:375-378 | a well-formed parse gives `compile` what it needs: catalog instructions keyed by their lines and a first `end` among them |
| Legacy.CompileAllKeeps | src/assembler.ts:394-396 | the instruction loop of `compile` leaves the error flag and diagnostics alone and keeps its maps well formed |
| Legacy.LabelChecksFacts | src/assembler.ts:388-392 | the label loop changes only the diagnostics and the flag, and is in error exactly when it was already or some label lies after the last instruction's line |
| Legacy.CompileKeepsTable | src/assembler.ts:375-402 | compiling leaves the placeholders' table well formed |
| Legacy.CompileCrashes | src/assembler.ts:375-392 | `compile` throws exactly when labels are defined, no instruction is, and the size check passes |
| Legacy.RemarksKeep | src/assembler.ts:398-401 | the closing remarks of `compile` only add diagnostics |
| Legacy.CompileFacts | src/assembler.ts:375-402 | on a fresh build, compiling lays out the bytes as the staged compiler does, at most two per instruction, only adds diagnostics and leaves the tree alone; a program too large, a parse error or a label after the last instruction leaves no byte at all |
| Legacy.LabelStageFacts | src/assembler.ts:388-392 | the label loop keeps a fresh build fresh and is in error when a label lies past the last instruction |
| Legacy.LoopFacts | src/assembler.ts:394-396 | the instruction loop on a fresh build lays it out as the staged compiler does, with at most two bytes per instruction and none after an error |
| Legacy.FirstKeyAtLeast | src/assembler.ts:406-407 | `find` over the recorded line numbers: the value found is the first one, in insertion order, that is non-zero and at least the target (every earlier one is zero or before it); none is found only when every recorded line is zero or before the target |
| Legacy.LinkEntriesFacts | src/assembler.ts:405-415 | the placeholder loop changes only placeholder bytes, each to its target; a placeholder without a target is an error; the length and everything else but the diagnostics stay |
| Legacy.LinkFacts | src/assembler.ts:404-420 | `link` writes every placeholder's target and nothing else, is in error when a placeholder has no target or the bytes exceed `program_size`, and only adds diagnostics |
| Legacy.EmptyLineJumpWritesLine | src/assembler.ts:406-407 | with `empty_line_jumps` a placeholder receives a recorded line number, not an offset: the first non-zero one, in insertion order, at or after the target |
| Legacy.EmptyLineJumpFinding | src/assembler.ts:406-407 | for `jmp #2`, an empty line and `end` with `empty_line_jumps`, the legacy linker writes 3 (a line number) where the staged linker writes 2 (the offset of `end`) |
| Legacy.Build.constructor | src/assembler.ts:93-99 | a new build is free of errors and diagnostics, with no bytes, offsets or placeholders |
| Legacy.Assembler.constructor | src/assembler.ts:101-116 | a new assembler has the completed settings, the mnemonics with their replacements, and the initial state |
| Legacy.Assembler.ErrorState | src/assembler.ts:118-120 | reports the build's error flag |
| Legacy.Assembler.RaiseInfo | src/assembler.ts:122-127 | appends an info diagnostic near the given line or the current one |
| Legacy.Assembler.RaiseErr | src/assembler.ts:128-134 | appends an error near the current line, with the optional argument as its severity, and sets the flag |
| Legacy.Assembler.RaiseStrict | src/assembler.ts:135-141 | appends an extension or an error and sets the flag unless the extension is allowed |
| Legacy.Assembler.LexWord | src/assembler.ts:183-189 | returns the word's token, or nothing with an `invalid_token` error when it is malformed |
| Legacy.Assembler.LexLine | src/assembler.ts:191-198 | returns the staged lexer's tokens for the line and raises one error per malformed word |
| Legacy.Assembler.LexWords | src/assembler.ts:194-197 | the tokens of the well-formed words, in order, with one error per malformed word |
| Legacy.Assembler.PushInstructionAndLine | src/assembler.ts:200-207 | records the instruction under the current line, and the line as the first `end` when it is the first |
| Legacy.Assembler.TryVal | src/assembler.ts:209-215 | accepts exactly an integer and then records the instruction with that value |
| Legacy.Assembler.TryAdr | src/assembler.ts:217-227 | accepts exactly an address, or an identifier whose lower-case spelling is an alias, and records the instruction with an address argument; for an alias it records the alias's address (the corrected lookup of the first Findings row, see Left out); it changes nothing when it does not accept |
| Legacy.Assembler.TryTar | src/assembler.ts:229-244 | accepts a line number, a label, or (with `jump_address`) an address as a line number with an allowed `invalid_token` extension, and records the instruction |
| Legacy.Assembler.TryUnary | src/assembler.ts:246-258 | accepts exactly the arguments the entry's argument type admits, changing nothing otherwise |
| Legacy.Assembler.InterpretInstruction | src/assembler.ts:260-291 | a non-mnemonic is a `missing_token`, a nullary form records the instruction (a `nop` with a strict extension), a matching unary form records it, more than one argument is a `superfluous_token` and anything else an `invalid_token` |
| Legacy.Assembler.InterpretArguments | src/assembler.ts:270-290 | tries the entries in catalog order and takes the first that accepts, or raises the error for the arguments |
| Legacy.Assembler.InterpretLabels | src/assembler.ts:293-306 | defines every label on the current line by its lower-case name, with a `redefinition` error for a name seen before, and stops at the first non-label with a `superfluous_token` error |
| Legacy.Assembler.InterpretLine | src/assembler.ts:308-324 | splits the line at its first label definition and raises the strict shape checks, then interprets both parts |
| Legacy.Assembler.Parse | src/assembler.ts:326-332 | interprets every line of the code, comments removed, numbering them on from the current line |
| Legacy.Assembler.ParseLine | src/assembler.ts:327-331 | one iteration of `parse` |
| Legacy.Assembler.NextLine | src/assembler.ts:328 | advances the current line and nothing else |
| Legacy.Assembler.PushBytes | src/assembler.ts:334-346 | emits the opcode and argument and records the line's offset, unless the build is in error or the line lies past the first `end` without `past_end` |
| Legacy.Assembler.CompileInstruction | src/assembler.ts:348-373 | emits one instruction as the staged compiler does, with a placeholder for a label or line-number target |
| Legacy.Assembler.SetCode | src/assembler.ts:341-345 | replaces the bytes and line offsets and nothing else |
| Legacy.Assembler.Placeholder | src/assembler.ts:353-356 | records the jump under the position of the last byte and nothing else |
| Legacy.Assembler.CheckLabels | src/assembler.ts:388-392 | raises an `invalid_token` error for every label after the last instruction's line |
| Legacy.Assembler.CompileInstructions | src/assembler.ts:394-396 | compiles the instructions in line order as the staged compiler's loop does on the shared build |
| Legacy.Assembler.Compile | src/assembler.ts:375-402 | does what `compile` does, and throws exactly when the source does |
| Legacy.Assembler.LinkOne | src/assembler.ts:405-415 | resolves one placeholder, raising `invalid_argument` without a target and a strict `flow_past_end` for a target past the first `end` |
| Legacy.Assembler.Link | src/assembler.ts:404-420 | resolves every placeholder in order and then checks the program size |
| Legacy.Assembler.Assemble | src/assembler.ts:422-427 | parses, compiles and links on the same state and returns the build, or throws where `compile` does |
| Legacy.InitialReady | src/assembler.ts:102-116 | a new assembler satisfies the invariant the phases rely on |
| Legacy.InfoSpec | src/assembler.ts:122-127 | `raise_info`: an info near the given line, or the current one, appended without touching the error flag |
| Legacy.ErrSpec | src/assembler.ts:128-134 | `raise_err`: the diagnostic is filed under the current line, its optional argument becomes the severity, and the error flag is set |
| Legacy.StrictSpec | src/assembler.ts:135-141 | `raise_strict`: an extension when allowed, otherwise an error that sets the flag |
| Legacy.LexWordSpec | src/assembler.ts:183-189 | `lex_word`: a malformed word raises an `invalid_token` error; numbers are not range-checked |
| Legacy.LexWordsSpec | src/assembler.ts:191-198 | the errors of the words of a line, word by word in order |
| Legacy.PushSpec | src/assembler.ts:200-207 | `push_instruction_and_line`: the instruction is recorded under the current line, and a first `end` line is remembered |
| Legacy.ChosenSpec | src/assembler.ts:270-283 | a chosen catalog entry is recorded, `nop` raising a strict `nop_extension` and an address used as a jump target an allowed `invalid_token` |
| Legacy.SelectionSpec | src/assembler.ts:260-291 | the outcome of choosing an entry becomes the state: a chosen entry is recorded; a first token that is not a mnemonic is a `missing_token` error, more than one argument a `superfluous_token`, any other refusal an `invalid_token` |
| Legacy.InstructionSpec | src/assembler.ts:260-291 | `interpret_instruction`: the selection for the line's tokens applied to the state |
| Legacy.LabelsSpec | src/assembler.ts:293-306 | `interpret_labels`: each label, lower-cased, is defined at the current line, a label already defined raising a `redefinition` error; a token that is not a label ends the loop with a `superfluous_token` error |
| Legacy.ShapeSpec | src/assembler.ts:315-320 | the shape checks of a line: labels without an instruction are strict by `empty_line_jumps`, several labels strict by `multiple_labels`, both as `superfluous_token` |
| Legacy.LineSpec | src/assembler.ts:308-324 | `interpret_line`: everything before the first label definition, the white-space marker included, is the instruction part; the shape checks, then the instruction, then the labels |
| Legacy.ParseLines | src/assembler.ts:326-332 | `parse`, one line after another in order |
| Legacy.LabelChecks | src/assembler.ts:388-392 | the label loop: an `invalid_token` error for every label line after the last instruction |
| Legacy.CompileLoop | src/assembler.ts:394-396 | the instruction loop, one instruction after another in line order |
| Legacy.Remarks | src/assembler.ts:398-401 | the closing remarks of `compile`: a `code_past_end` info at the first `end` when the last instruction is not an `end`, and a strict `flow_past_end` when there is no `end` line |
| Legacy.CompileSpec | src/assembler.ts:375-402 | `compile`: more than twice `program_size` instructions is a `program_too_large` error that ends the phase; labels with no instruction throw; otherwise the label loop, the instruction loop and the closing remarks |
| Legacy.LinkTarget | src/assembler.ts:406-408 | (as written) the value written for a placeholder: the offset of the target line, or with `empty_line_jumps` the number of the first line with code at or after it |
| Legacy.LinkEntrySpec | src/assembler.ts:405-415 | one placeholder: no target is an `invalid_argument` error, a target past the first `end` a strict `flow_past_end`, and the byte becomes the target |
| Legacy.LinkEntries | src/assembler.ts:405-416 | the placeholder loop, in the order the placeholders were first recorded |
| Legacy.LinkSpec | src/assembler.ts:404-420 | `link`: every placeholder, then a `program_too_large` error when the bytes exceed `program_size` |
| Legacy.AssembleSpec | src/assembler.ts:422-427 | `assemble`: parse, compile and link on the same state |
| Machine.Admit | src/vm/mops_byte.ts:19-24 | a whole number is accepted as a word exactly when the word check passes, and otherwise fails with the check's error |
| Machine.LoadPrefixFacts | src/vm/mops_machine.ts:43-48 | loading succeeds exactly when every value is present and in range, and then memory holds value `i` at address `i` and nothing else; otherwise the error is that of the first bad value |
| Machine.LoadPrefixStops | src/vm/mops_machine.ts:44-47 | once a value is refused, loading further values does not change the error |
| Machine.InitialValid | src/vm/mops_machine.ts:37-41 | a machine constructed over loaded memory keeps every word in range |
| Machine.JsRemFacts | src/vm/mops_machine.ts:173-175 | the JavaScript remainder completes the quotient rounded toward zero, is smaller than the divisor in magnitude and has the dividend's sign |
| Machine.Euclid | src/vm/mops_machine.ts:173-175 | division of naturals leaves a remainder below the divisor and no larger than the dividend |
| Machine.Negated | src/vm/mops_machine.ts:173-175 | a product with a negated factor is the negated product |
| Machine.ArithFacts | src/vm/mops_machine.ts:168-178 | a whole quotient is exact, and a remainder by a non-zero word is a word of the dividend's sign, smaller than the divisor |
| Machine.Prepare | src/vm/mops_machine.ts:287-291 | when fetch, decode and operand fetch all run through, an instruction has been decoded |
| Machine.FetchFacts | src/vm/mops_machine.ts:55-76 | a fetch fails exactly when `ip` holds no word, before any event; otherwise `ir_lo` is the word at `ip`, `ir_hi` the next word or 0 past memory, and three events report them |
| Machine.DecodeFacts | src/vm/mops_machine.ts:78-91 | decoding first reports the instruction found for `ir_lo`; it fails for an unknown opcode or an `ip` step out of range, and otherwise moves `ip` by one byte without an argument or two with one |
| Machine.OperandFacts | src/vm/mops_machine.ts:93-107 | an address source caches the word at `ir_hi` and fails when there is none, any other argument kind caches `ir_hi`, and no argument leaves the cache alone |
| Machine.MathFacts | src/vm/mops_machine.ts:153-181 | arithmetic writes and reports `opr` and `opd` first; an out-of-range result throws with `acc` untouched; an in-range result goes to `acc` and is reported as `res` |
| Machine.DivideByZero | src/vm/mops_machine.ts:170-175 | division by zero throws for a non-zero dividend (the quotient is infinite) and leaves the model for a zero dividend, as does any remainder by zero |
| Machine.CompareFacts | src/vm/mops_machine.ts:183-210 | the generator sets `cmp` to lt, eq or gt exactly as `acc` is below, equal to or above the operand; the callback version throws and keeps `cmp` |
| Machine.BranchFacts | src/vm/mops_machine.ts:220-230 | a conditional jump always reports `cmp`, moves `ip` to the target exactly when `cmp` is its condition, and changes nothing else |
| Machine.InFacts | src/vm/mops_machine.ts:131-143 | `in` consumes and reports the raw input, then stores it at the argument address exactly when it is in range |
| Machine.PrepareValid | src/vm/mops_machine.ts:55-107 | fetch, decode and operand fetch keep every word in range, whether they run through or throw |
| Machine.ExecuteValid | src/vm/mops_machine.ts:232-285 | executing any instruction keeps every word in range |
| Machine.ArithmeticValid | src/vm/mops_machine.ts:153-210 | the arithmetic and comparison instructions keep every word in range |
| Machine.TransferValid | src/vm/mops_machine.ts:109-151 | `nop`, `ld`, `st`, `in` and `out` keep every word in range |
| Machine.ControlValid | src/vm/mops_machine.ts:212-230 | the jumps and `end` keep every word in range |
| Machine.StoreValid | src/vm/mops_machine.ts:117-129 | storing a word keeps memory in range and the length above every written address |
| Machine.InValid | src/vm/mops_machine.ts:131-143 | `in` stores only an input that passed the word check |
| Machine.MathValid | src/vm/mops_machine.ts:153-181 | arithmetic stores only a result that passed the word check, with a valid operator code |
| Machine.CompareValid | src/vm/mops_machine.ts:183-210 | a comparison leaves a valid comparison code |
| Machine.CycleValid | src/vm/mops_machine.ts:287-292 | every cycle keeps every word in range |
| Machine.RunValid | src/vm/mops_machine.ts:294-305 | a whole run keeps every word in range |
| Machine.AppendsEvents | src/vm/mops_machine.ts:55-285 | a stage that adds only non-closing events and leaves `halted` alone only appends |
| Machine.QuietJoin | src/vm/mops_machine.ts:294-305 | stretches without a closing event join into one, also in a longer trace |
| Machine.AppendsTransitive | src/vm/mops_machine.ts:287-292 | appending without closing events is transitive across stages |
| Machine.PrepareTrace | src/vm/mops_machine.ts:55-107 | fetch, decode and operand fetch only append events, none of them `halt` or `fail`, and leave `halted` alone |
| Machine.MathAppends | src/vm/mops_machine.ts:153-181 | arithmetic only appends register events |
| Machine.CompareAppends | src/vm/mops_machine.ts:183-210 | a comparison only appends register events |
| Machine.BranchAppends | src/vm/mops_machine.ts:220-230 | a conditional jump only appends register events |
| Machine.InAppends | src/vm/mops_machine.ts:131-143 | `in` only appends register and memory events |
| Machine.ExecuteTrace | src/vm/mops_machine.ts:232-285 | executing only appends non-closing events, except that `end` sets `halted` and the callback version then records its `halt` call |
| Machine.CycleTrace | src/vm/mops_machine.ts:287-292 | a cycle appends no closing event unless it halted the callback version, whose last event is then `halt`; only a cycle that ran through halts |
| Machine.ShapeJoin | src/vm/mops_machine.ts:294-305 | quiet events before a run keep the run's trace shape |
| Machine.ShapeClose | src/vm/mops_machine.ts:300-304 | a `halt` or `fail` event after quiet ones gives a closed run's shape |
| Machine.ShapeFacts | src/vm/mops_machine.ts:294-305 | in a run of that shape the last event is `halt` exactly when the run halted, the generator's `fail` exactly when it failed, and the callback version never reports `fail` |
| Machine.RunTrace | src/vm/mops_machine.ts:294-305 | every run from a machine not halted has that shape |
| Machine.ContinueTrace | src/vm/mops_machine.ts:296-299 | the rest of a run after a cycle of that shape has it too |
| Machine.RunEndsOnce | src/vm/mops_machine.ts:294-305 | a run's trace holds at most one closing event, as its very last: `halt` exactly when the run halts, the generator's `fail` exactly when it fails, never a `fail` from the callback version |
| Machine.ExecuteAgree | src/vm/vm.ts:234-288 | outside `cmp` and `end` the callback machine executes exactly as the generator; at `end` it adds its `halt` call; at `cmp` only it throws |
| Machine.VariantsAgree | src/vm/vm.ts:290-295 | the same holds for a whole cycle, whatever instruction is decoded |
| Machine.MopsMachine.Blank | src/vm/mops_machine.ts:31-35 | the fields before loading: empty memory, zero registers, not halted |
| Machine.MopsMachine.New | src/vm/mops_machine.ts:37-48 | construction fails exactly when loading does, with the first refused value's error, and otherwise gives a machine over the loaded memory |
| Machine.MopsMachine.ReadMemory | src/vm/mops_machine.ts:50-53 | reading refuses a negative address or one past the length and throws on a slot never written; otherwise it returns the stored word |
| Machine.MopsMachine.Fetch | src/vm/mops_machine.ts:55-76 | loads `ir_lo` from `ip` and `ir_hi` from the next address (0 past memory), reporting both, or throws when `ip` holds no word |
| Machine.MopsMachine.Decode | src/vm/mops_machine.ts:78-91 | reports the catalog entry of `ir_lo` and steps `ip` over the instruction, throwing for an unknown opcode or an out-of-range `ip` |
| Machine.MopsMachine.FetchOperand | src/vm/mops_machine.ts:93-107 | caches the operand: the word at `ir_hi` for an address source, `ir_hi` itself for other argument kinds |
| Machine.MopsMachine.ExecLd | src/vm/mops_machine.ts:109-115 | sets `acc` to the argument and reports it, nothing else |
| Machine.MopsMachine.ExecSt | src/vm/mops_machine.ts:117-129 | reports `acc` and writes it to memory at the argument address |
| Machine.MopsMachine.WriteMemory | src/vm/mops_machine.ts:117-129 | writes a word as a JavaScript array does, growing the length past the end, and reports the write |
| Machine.MopsMachine.ExecIn | src/vm/mops_machine.ts:131-143 | consumes and reports one input and stores it at the argument address when it passes the word check, throwing otherwise |
| Machine.MopsMachine.ExecOut | src/vm/mops_machine.ts:145-151 | passes the argument to the output and reports it, nothing else |
| Machine.MopsMachine.ExecMath | src/vm/mops_machine.ts:153-181 | sets `opr` and `opd`, then puts the JavaScript result in `acc` when it passes the word check and throws otherwise |
| Machine.MopsMachine.ExecCmp | src/vm/mops_machine.ts:183-210 | sets `opr` and `opd`, then the generator sets `cmp` from comparing `acc` with the operand, while the callback version throws |
| Machine.MopsMachine.ExecJmp | src/vm/mops_machine.ts:212-218 | sets `ip` to the target and reports it, nothing else |
| Machine.MopsMachine.ExecBranch | src/vm/mops_machine.ts:220-230 | reports `cmp` and jumps to the target exactly when `cmp` is the condition |
| Machine.MopsMachine.ExecEnd | src/vm/mops_machine.ts:281-283 | sets `halted`, and in the callback version records the `halt` call |
| Machine.MopsMachine.Execute | src/vm/mops_machine.ts:232-285 | executes the decoded operation on the cached argument, as the per-operation stages do |
| Machine.MopsMachine.Cycle | src/vm/mops_machine.ts:287-292 | runs the four stages, stopping at the first that does not run through |
| Machine.MopsMachine.RunCycle | src/vm/mops_machine.ts:296-301 | one pass of the run loop: the rest of the run is what the loop specification says, and a throw ends it with the generator's `fail` event |
| Machine.MopsMachine.Run | src/vm/mops_machine.ts:294-305 | clears `halted` and runs cycles until one halts or fails, ending the trace as the run specification says |
| Machine.LoadPrefix | src/vm/mops_machine.ts:43-48 | `assign_memory`: the values stored at addresses 0, 1, … in order, stopping at the first missing or out-of-range value with its error |
| Machine.FetchSpec | src/vm/mops_machine.ts:55-76 | `fetch`: `ir_lo` from `ip` (a throw when nothing is there), `ir_hi` from the next cell or 0 past memory, reported in that order |
| Machine.DecodeWith | src/vm/mops_machine.ts:78-91 | `decode` with the instruction set's answer: report it, throw on an unknown opcode, and step `ip` over the instruction when the new value is a word |
| Machine.DecodeSpec | src/vm/mops_machine.ts:78-91 | `decode`: the instruction set consulted on `ir_lo` |
| Machine.OperandSpec | src/vm/mops_machine.ts:93-107 | `fetch_operand`: an address source reads memory at `ir_hi`, any other argument takes `ir_hi` itself, no argument keeps the cache |
| Machine.Store | src/vm/mops_machine.ts:117-129 | a memory write as a JavaScript array does it: the cell holds the word and the length grows past a new index |
| Machine.JsRem | src/vm/mops_machine.ts:173-175 | JavaScript's `%`: the remainder takes the dividend's sign |
| Machine.Arith | src/vm/mops_machine.ts:168-178 | `acc <opr> opd` as JavaScript computes it on whole numbers: sums, differences and products whole, a quotient whole only when exact, division by zero infinite or NaN, remainder by zero NaN |
| Machine.MathSpec | src/vm/mops_machine.ts:153-181 | `exec_math`: `opr` and `opd` written and reported, then `acc` set to a result that is a word, or the word check's failure |
| Machine.CompareSpec | src/vm/mops_machine.ts:183-210 | `exec_cmp`: the generator sets `cmp` to the ordering of `acc` against the operand; the callback version throws "Null Byte!" (see Left out) |
| Machine.JumpSpec | src/vm/mops_machine.ts:212-218 | `exec_jmp`: `ip` becomes the target, reported |
| Machine.BranchSpec | src/vm/mops_machine.ts:220-230 | `exec_branch`: `cmp` is reported, and `ip` moves to the target exactly when `cmp` is the condition |
| Machine.InSpec | src/vm/mops_machine.ts:131-143 | `exec_in`: the next input is consumed and reported, then stored when it is a word |
| Machine.ExecuteSpec | src/vm/mops_machine.ts:232-285 | `execute`: the decoded operation on the cached argument, one case per operation |
| Machine.CycleWith | src/vm/mops_machine.ts:287-292 | a cycle with a given instruction-set answer: the preparing stages, then execute when they ran through |
| Machine.CycleSpec | src/vm/mops_machine.ts:287-292 | `cycle`: fetch, decode, fetch the operand and execute, stopping at the first stage that does not run through |
| Machine.RunLoop | src/vm/mops_machine.ts:294-305 | the `while (!halted)` loop: a halted machine ends the run (the generator reporting `halt`), otherwise one more cycle while fuel lasts |
| Machine.Continue | src/vm/mops_machine.ts:296-304 | after a cycle: loop on when it ran through, otherwise end the run, the generator reporting a `FailState` for a throw |
| Machine.RunSpec | src/vm/mops_machine.ts:294-296 | `run`: clear `halted`, then loop |

## Left out

- The browser front end is not part of this model: src/gui/machine_gui.ts, src/gui/editor_gui.ts, src/editor.ts, src/interface.ts, src/memory.ts and src/index.ts (DOM, timers, prompts, downloads, asynchronous pacing of the generator). Pacing does not change the event sequence.
- src/vm/mops_event.ts only declares event shapes. They appear as the `Machine.Event` datatype, without the payload objects' display fields.
- I/O callbacks are values. The machine's input is a sequence consumed by `in`, and its output is a sequence `out` appends to. The callback version's `halt` call is recorded as a `Halt` event in the same trace.
- Machine words are whole numbers. A division whose quotient is not whole, and `0/0` or `x % 0`, which JavaScript turns into a NaN that passes the word check, stop the model with the `Unmodelled` status; the run then ends `Stopped`. A non-zero number divided by zero gives an infinity, which the word check refuses, and that case is modelled.
- Machine.CompareSpec: for the callback version, `cmp` compares two distinct word objects. No comparison holds between them and the `undefined` result throws. The case where both operands are the very same object, where `==` would hold, is not modelled.
- The machine's input must be a whole number. An input that is missing, or is a fraction, is not modelled: an empty input stops the run as `Unmodelled`.
- `arg_cache` starts `undefined` in the source and starts 0 here. Only instructions with an argument read it, and each of them sets it first.
- JavaScript's limits on array indices and the 2^53 precision of numbers are not modelled. No word, address or line number comes near them.
- Machine.MopsMachine.Run: runs at most `fuel` cycles and reports `OutOfFuel` when they are spent. A program that never halts has no final state in the source.
- `toLowerCase` is modelled on ASCII letters only. Identifiers and aliases are ASCII by their shape check.
- Regular expressions and `parseInt` are modelled as character-class predicates and decimal conversion.
- src/vm/byte.ts and src/byte.ts hold the same range-checked setter as src/vm/mops_byte.ts, with bounds taken from the platform or from statics. One `Bytes.MopsByte` class models all three, and `Bytes.StaticBoundsAgree` shows that the statics equal the platform bounds.
- The staged parser reads an `initial_white` setting that `AssemblerSettings` does not declare. It is modelled as an extra setting that defaults to false, which is what an undeclared field reads as.
- A placeholder recorded while the build holds no byte is keyed at -1. The link stage then writes a property outside the byte array. The model keeps that key in the table and leaves the bytes unchanged for it.
- Exceptions the source throws on `undefined` values are modelled as explicit outcomes: `compile` with labels but no instruction, and a machine slot never written. The message of a `TypeError` is not modelled.
- Lexing.AcceptAddress: an identifier that is an alias only by its lower-case spelling (`ld A`) gets the alias's address here. As written, the lookup gives `undefined` and the instruction keeps `{address: undefined}`. Compiling that instruction then emits only its opcode byte (src/compile.ts:50-51, src/assembler.ts:364-365), so every later line offset and jump target lies one byte earlier than in this model, which emits two bytes. See the first Findings row.
- Parser.Parse.TryAdr: records the alias's address for a capitalised alias, where the staged parser records an undefined address; the one-byte shift of the previous line follows from it.
- Legacy.Assembler.TryAdr: the same for the older assembler: a capitalised alias gets an address argument here, and an undefined one in the source, whose compile then emits only the opcode byte.

## Findings

| source | as written | input that shows it | evidently intended | confidence | as-written member | corrected member |
|---|---|---|---|---|---|---|
| src/assembler/parse.ts:114-115, src/assembler.ts:222-223 | an alias is accepted by its lower-case spelling but looked up by its spelling as written | `ld A`: `A` is accepted as an alias, the lookup gives `undefined`, and the instruction is recorded with no address; compiling it then emits only the opcode byte, so every later offset and jump target moves one byte earlier | look the alias up by its lower-case spelling, giving address 64 | not executed | Lexing.AliasOfAsWritten, Lexing.AliasCaseFinding | Lexing.AliasOf |
| src/assembler.ts:406-407 | with `empty_line_jumps`, the legacy linker writes the first line number at or after the target, not that line's offset | `jmp #2`, an empty line, `end`: the jump receives 3 (the line of `end`) where `end` is at offset 2 | write the offset of the first line with code at or after the target, as the staged linker does | not executed | Legacy.EmptyLineJumpWritesLine, Legacy.EmptyLineJumpFinding | Linker.FindTarget, Linker.TargetIsNextLine |
