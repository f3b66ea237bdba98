/** The staged assembler's second stage (src/compile.ts): a `Compile` object
    walks the parse tree's instructions in line order, emits an opcode byte and
    an optional argument byte for each, records the offset of every emitting
    line and a link-table placeholder for every jump, and reports problems in its
    own diagnostics log. */
module Compiler {
  import opened Wrappers
  import opened OrderedMaps
  import opened Platform
  import Diag
  import opened AsmTypes

  /** The build and the stage's diagnostics at one moment. */
  datatype CState = CState(exe: seq<Option<int>>, lineOffsets: OMap<int, int>, linkTable: OMap<int, LinkEntry>, log: Diag.Log)

  /** An empty build and an empty log. */
  const Fresh: CState := CState([], Empty(), Empty(), Diag.Empty)

  /** How the stage ended: it throws when it needs the last instruction and
      there is none; otherwise it leaves its build and log. */
  datatype Outcome = Crashed | Compiled(state: CState)

  /** The opcode of a catalog instruction. */
  function Opcode(i: Instruction): int
    requires Admits(i.operation, i.argType)
  {
    AdmitsIsCatalog(i);
    OpcodeOf(i).value
  }

  /** Whether `push_bytes` emits for this line: not once the stage's own log is in
      the error state, and not past the first `end` unless `past_end` is set. */
  predicate Emits(log: Diag.Log, settings: Settings, firstEnd: Option<int>, line: int) {
    !log.errorState && !(firstEnd.Some? && line > firstEnd.value && !settings.pastEnd)
  }

  /** `push_bytes`: the opcode, then the argument if there is one; the line's
      offset is the opcode's position. */
  function PushBytesSpec(cs: CState, settings: Settings, firstEnd: Option<int>, pi: AsmInstruction, arg: Option<int>): CState
    requires Admits(pi.instruction.operation, pi.instruction.argType)
  {
    if !Emits(cs.log, settings, firstEnd, pi.line) then cs
    else cs.(exe := cs.exe + Bytes(pi.instruction, arg), lineOffsets := cs.lineOffsets.Set(pi.line, |cs.exe|))
  }

  /** The bytes of one instruction: its opcode, then its argument if it has one. */
  function Bytes(i: Instruction, arg: Option<int>): seq<Option<int>>
    requires Admits(i.operation, i.argType)
  {
    [Some(Opcode(i))] + (if arg.Some? then [arg] else [])
  }

  /** A link-table placeholder keyed at the last byte emitted so far. */
  function Placeholder(cs: CState, from: int, to: Option<int>): CState {
    cs.(linkTable := cs.linkTable.Set(|cs.exe| - 1, LinkEntry(from, to)))
  }

  /** The byte `compile_instruction` hands to `push_bytes` as the argument:
      values and addresses literally, a label reference the label's line (looked
      up with the spelling as written; an undefined label gives none, so only the
      opcode is emitted), a line reference 0. */
  function ArgumentByte(labels: OMap<string, int>, arg: AsmArgument): Option<int> {
    match arg
    case NoArgument => None
    case AsmIdentifier(id) => labels.Get(id)
    case AsmLineNumber(_) => Some(0)
    case AsmAddress(a) => Some(a)
    case AsmValue(v) => Some(v)
  }

  /** The placeholder a jump leaves: its line and the line it targets. */
  function LinkFor(labels: OMap<string, int>, pi: AsmInstruction): Option<LinkEntry> {
    match pi.argument
    case AsmIdentifier(id) => Some(LinkEntry(pi.line, labels.Get(id)))
    case AsmLineNumber(n) => Some(LinkEntry(pi.line, Some(n)))
    case _ => None
  }

  /** `compile_instruction`. */
  function CompileInstructionSpec(cs: CState, settings: Settings, labels: OMap<string, int>, firstEnd: Option<int>, pi: AsmInstruction): CState
    requires Admits(pi.instruction.operation, pi.instruction.argType)
  {
    var pushed := PushBytesSpec(cs, settings, firstEnd, pi, ArgumentByte(labels, pi.argument));
    match LinkFor(labels, pi)
    case None => pushed
    case Some(e) => Placeholder(pushed, e.from, e.to)
  }

  /** The instruction loop of `compile`, over the given instructions in order. */
  function CompileAll(cs: CState, settings: Settings, labels: OMap<string, int>, firstEnd: Option<int>, instrs: seq<AsmInstruction>): CState
    requires forall i :: 0 <= i < |instrs| ==> Encodable(instrs[i])
  {
    if instrs == [] then cs
    else
      var prev := CompileAll(cs, settings, labels, firstEnd, instrs[..|instrs| - 1]);
      assert Encodable(instrs[|instrs| - 1]);
      CompileInstructionSpec(prev, settings, labels, firstEnd, instrs[|instrs| - 1])
  }

  /** The label loop of `compile`: an error at every label line after the last
      instruction's line. */
  function LabelChecks(log: Diag.Log, labelLines: seq<int>, lastLine: int): Diag.Log {
    if labelLines == [] then log
    else
      var prev := LabelChecks(log, labelLines[..|labelLines| - 1], lastLine);
      var l := labelLines[|labelLines| - 1];
      if l > lastLine then prev.Error(l, "Label does not belong to any instruction.") else prev
  }

  /** The instructions are encodable and recorded consistently. */
  ghost predicate Compilable(tree: ParseTree) {
    var lines := tree.instructionLines;
    && lines.Valid() && tree.labels.Valid()
    && (forall i, j :: 0 <= i < j < |lines.keys| ==> lines.keys[i] < lines.keys[j])
    && (forall k :: k in lines.entries ==> lines.entries[k].line == k && Encodable(lines.entries[k]))
  }

  lemma InstructionsEncodable(tree: ParseTree)
    requires Compilable(tree)
    ensures forall i :: 0 <= i < |tree.instructionLines.Values()| ==> Encodable(tree.instructionLines.Values()[i])
    ensures forall i :: 0 <= i < |tree.instructionLines.Values()| ==> tree.instructionLines.Values()[i].line == tree.instructionLines.keys[i]
  {
    var vs := tree.instructionLines.Values();
    forall i | 0 <= i < |vs|
      ensures Encodable(vs[i]) && vs[i].line == tree.instructionLines.keys[i]
    {
      var k := tree.instructionLines.keys[i];
      assert k in tree.instructionLines.keys;
      assert k in tree.instructionLines.entries;
      assert Encodable(tree.instructionLines.entries[k]);
      assert vs[i] == tree.instructionLines.entries[k];
    }
  }

  /** `compile` as a whole. The checks that need the last instruction throw when
      there is none: with a negative program size, with labels, or with an `end`
      line given. */
  function CompileSpec(settings: Settings, tree: ParseTree, firstEnd: Option<int>): Outcome
    requires Compilable(tree)
  {
    var instrs := tree.instructionLines.Values();
    var last := if |instrs| > 0 then Some(instrs[|instrs| - 1]) else None;
    InstructionsEncodable(tree);
    if |instrs| > 2 * settings.programSize then
      if last.None? then Crashed
      else Compiled(Fresh.(log := Diag.Empty.Error(last.value.line, "Program too large.")))
    else if |tree.labels.keys| > 0 && last.None? then Crashed
    else if firstEnd.Some? && last.None? then Crashed
    else
      var log := LabelChecks(Diag.Empty, tree.labels.Values(), if last.Some? then last.value.line else 0);
      var cs := CompileAll(Fresh.(log := log), settings, tree.labels, firstEnd, instrs);
      Compiled(cs.(log := Epilogue(cs.log, settings, firstEnd, last)))
  }

  /** The checks after the instruction loop: a note when the last instruction is
      not an `end`, and an extension when there is no `end` line (or it is 0). */
  function Epilogue(log: Diag.Log, settings: Settings, firstEnd: Option<int>, last: Option<AsmInstruction>): Diag.Log
    requires firstEnd.Some? ==> last.Some?
  {
    var log2 :=
      if firstEnd.Some? && last.value.instruction.operation != End then log.Info(firstEnd.value, "Code following an end instruction.")
      else log;
    if firstEnd.None? || firstEnd == Some(0) then
      log2.Extension(if last.Some? then last.value.line else 1, "Omitted end instruction is an extension.", settings.pastEnd)
    else log2
  }

  /** The closing checks only add messages; they enter the error state exactly
      when there is no `end` line and `past_end` is off. */
  lemma EpilogueFacts(log: Diag.Log, settings: Settings, firstEnd: Option<int>, last: Option<AsmInstruction>)
    requires firstEnd.Some? ==> last.Some?
    ensures var r := Epilogue(log, settings, firstEnd, last);
      && log.GrowsTo(r)
      && (r.errorState <==> log.errorState || ((firstEnd.None? || firstEnd == Some(0)) && !settings.pastEnd))
  {
    var log2 :=
      if firstEnd.Some? && last.value.instruction.operation != End then log.Info(firstEnd.value, "Code following an end instruction.")
      else log;
    Diag.RaisesGrow(log, if firstEnd.Some? then firstEnd.value else 0, "Code following an end instruction.", true);
    Diag.RaisesGrow(log2, if last.Some? then last.value.line else 1, "Omitted end instruction is an extension.", settings.pastEnd);
    if firstEnd.None? || firstEnd == Some(0) {
      Diag.GrowsTransitive(log, log2, Epilogue(log, settings, firstEnd, last));
    }
  }

  /** Instruction lines in strictly increasing order. */
  ghost predicate Increasing(instrs: seq<AsmInstruction>) {
    forall i, j :: 0 <= i < j < |instrs| ==> instrs[i].line < instrs[j].line
  }

  /** The shape of a build: every byte holds a number, the emitting lines are
      in increasing order with increasing offsets inside the bytes, and every
      placeholder is keyed at a byte that exists or at -1. */
  ghost predicate Layout(cs: CState) {
    && cs.lineOffsets.Valid() && cs.linkTable.Valid()
    && (forall i, j :: 0 <= i < j < |cs.lineOffsets.keys| ==>
          && cs.lineOffsets.keys[i] < cs.lineOffsets.keys[j]
          && cs.lineOffsets.entries[cs.lineOffsets.keys[i]] < cs.lineOffsets.entries[cs.lineOffsets.keys[j]])
    && (forall p :: 0 <= p < |cs.exe| ==> cs.exe[p].Some?)
    && (forall k :: k in cs.lineOffsets.entries ==> 0 <= cs.lineOffsets.entries[k] < |cs.exe|)
    && (forall k :: k in cs.linkTable.entries ==> -1 <= k < |cs.exe|)
  }

  /** One instruction: the log is untouched; an emitting line appends its opcode
      and its argument byte if it has one, and records the opcode's offset; a
      blocked line changes neither the bytes nor the offsets. A jump's
      placeholder is keyed at the last byte, which is the jump's own argument
      byte when it emitted one. */
  lemma InstructionStep(cs: CState, settings: Settings, labels: OMap<string, int>, firstEnd: Option<int>, pi: AsmInstruction)
    requires Encodable(pi)
    ensures var r := CompileInstructionSpec(cs, settings, labels, firstEnd, pi);
      var arg := ArgumentByte(labels, pi.argument);
      && r.log == cs.log
      && (Emits(cs.log, settings, firstEnd, pi.line) ==>
            && |r.exe| == |cs.exe| + (if arg.Some? then 2 else 1)
            && r.exe[..|cs.exe|] == cs.exe
            && r.exe[|cs.exe|].Some?
            && (arg.Some? ==> r.exe[|cs.exe| + 1] == arg)
            && r.lineOffsets == cs.lineOffsets.Set(pi.line, |cs.exe|))
      && (!Emits(cs.log, settings, firstEnd, pi.line) ==> r.exe == cs.exe && r.lineOffsets == cs.lineOffsets)
      && (LinkFor(labels, pi).None? ==> r.linkTable == cs.linkTable)
      && (LinkFor(labels, pi).Some? ==> r.linkTable == cs.linkTable.Set(|r.exe| - 1, LinkFor(labels, pi).value))
  {
    var pushed := PushBytesSpec(cs, settings, firstEnd, pi, ArgumentByte(labels, pi.argument));
    PushStep(cs, settings, firstEnd, pi, ArgumentByte(labels, pi.argument));
    var r := CompileInstructionSpec(cs, settings, labels, firstEnd, pi);
    match LinkFor(labels, pi)
    case None =>
      assert r == pushed;
    case Some(e) =>
      assert r == pushed.(linkTable := pushed.linkTable.Set(|pushed.exe| - 1, LinkEntry(e.from, e.to)));
  }

  lemma PushStep(cs: CState, settings: Settings, firstEnd: Option<int>, pi: AsmInstruction, arg: Option<int>)
    requires Admits(pi.instruction.operation, pi.instruction.argType)
    ensures var r := PushBytesSpec(cs, settings, firstEnd, pi, arg);
      && r.log == cs.log && r.linkTable == cs.linkTable
      && (Emits(cs.log, settings, firstEnd, pi.line) ==>
            && |r.exe| == |cs.exe| + (if arg.Some? then 2 else 1)
            && r.exe[..|cs.exe|] == cs.exe
            && r.exe[|cs.exe|] == Some(Opcode(pi.instruction))
            && (arg.Some? ==> r.exe[|cs.exe| + 1] == arg)
            && r.lineOffsets == cs.lineOffsets.Set(pi.line, |cs.exe|))
      && (!Emits(cs.log, settings, firstEnd, pi.line) ==> r == cs)
  {
    var r := PushBytesSpec(cs, settings, firstEnd, pi, arg);
    if Emits(cs.log, settings, firstEnd, pi.line) {
      assert r.exe[..|cs.exe|] == cs.exe;
    }
  }

  /** An instruction on a new, later line keeps the layout. */
  lemma LayoutStep(cs: CState, settings: Settings, labels: OMap<string, int>, firstEnd: Option<int>, pi: AsmInstruction)
    requires Layout(cs) && Encodable(pi)
    requires forall k :: k in cs.lineOffsets.entries ==> k < pi.line
    ensures var r := CompileInstructionSpec(cs, settings, labels, firstEnd, pi);
      && Layout(r) && r.log == cs.log
      && |cs.exe| <= |r.exe| <= |cs.exe| + 2
      && (forall k :: k in r.lineOffsets.entries ==> k <= pi.line)
  {
    StepShape(cs, settings, labels, firstEnd, pi);
    var emits := Emits(cs.log, settings, firstEnd, pi.line);
    if emits {
      EmittedBytes(cs, settings, labels, firstEnd, pi);
    }
    ShapeKeepsLayout(cs, CompileInstructionSpec(cs, settings, labels, firstEnd, pi), pi.line, emits);
  }

  /** A step that either appends numbered bytes and records a new, later line
      at the first of them, or changes only the placeholders, keeps the layout
      and records no line after its own. */
  lemma ShapeKeepsLayout(cs: CState, r: CState, line: int, emits: bool)
    requires Layout(cs) && r.linkTable.Valid()
    requires forall k :: k in cs.lineOffsets.entries ==> k < line
    requires emits ==>
      && |r.exe| > |cs.exe| && r.exe[..|cs.exe|] == cs.exe
      && (forall p :: |cs.exe| <= p < |r.exe| ==> r.exe[p].Some?)
      && r.lineOffsets == cs.lineOffsets.Set(line, |cs.exe|)
    requires !emits ==> r.exe == cs.exe && r.lineOffsets == cs.lineOffsets
    requires forall k :: k in r.linkTable.entries ==> -1 <= k < |r.exe|
    ensures Layout(r)
    ensures forall k :: k in r.lineOffsets.entries ==> k <= line
  {
    if emits {
      AppendKeepsOffsets(cs, r, line);
    } else {
      LinkOnlyKeepsLayout(cs, r);
    }
  }

  /** What one instruction changes, in the terms the layout needs: the log is
      kept, at most two bytes are appended, a blocked line keeps the bytes and
      offsets, and every placeholder key stays within the bytes. */
  lemma StepShape(cs: CState, settings: Settings, labels: OMap<string, int>, firstEnd: Option<int>, pi: AsmInstruction)
    requires Layout(cs) && Encodable(pi)
    ensures var r := CompileInstructionSpec(cs, settings, labels, firstEnd, pi);
      && r.log == cs.log && r.linkTable.Valid()
      && |cs.exe| <= |r.exe| <= |cs.exe| + 2
      && (Emits(cs.log, settings, firstEnd, pi.line) ==> r.lineOffsets == cs.lineOffsets.Set(pi.line, |cs.exe|))
      && (!Emits(cs.log, settings, firstEnd, pi.line) ==> r.exe == cs.exe && r.lineOffsets == cs.lineOffsets)
      && (forall k :: k in r.linkTable.entries ==> -1 <= k < |r.exe|)
  {
    InstructionStep(cs, settings, labels, firstEnd, pi);
  }

  /** Changing only the placeholders, with their keys within the bytes, keeps
      the layout. */
  lemma LinkOnlyKeepsLayout(cs: CState, r: CState)
    requires Layout(cs) && r.linkTable.Valid()
    requires r.exe == cs.exe && r.lineOffsets == cs.lineOffsets
    requires forall k :: k in r.linkTable.entries ==> -1 <= k < |r.exe|
    ensures Layout(r)
  {
  }

  /** The bytes an emitting instruction appends hold numbers. */
  lemma EmittedBytes(cs: CState, settings: Settings, labels: OMap<string, int>, firstEnd: Option<int>, pi: AsmInstruction)
    requires Encodable(pi) && Emits(cs.log, settings, firstEnd, pi.line)
    ensures var r := CompileInstructionSpec(cs, settings, labels, firstEnd, pi);
      && |r.exe| > |cs.exe| && r.exe[..|cs.exe|] == cs.exe
      && forall p :: |cs.exe| <= p < |r.exe| ==> r.exe[p].Some?
  {
    InstructionStep(cs, settings, labels, firstEnd, pi);
    var r := CompileInstructionSpec(cs, settings, labels, firstEnd, pi);
    var n := |cs.exe|;
    var arg := ArgumentByte(labels, pi.argument);
    forall p | n <= p < |r.exe|
      ensures r.exe[p].Some?
    {
      if p > n {
        assert arg.Some? && p == n + 1;
      }
    }
  }

  /** Appending bytes that hold numbers and recording a new, later line at the
      first of them keeps the offsets part of the layout. */
  lemma AppendKeepsOffsets(cs: CState, r: CState, line: int)
    requires Layout(cs) && r.linkTable.Valid()
    requires forall k :: k in cs.lineOffsets.entries ==> k < line
    requires |r.exe| > |cs.exe| && r.exe[..|cs.exe|] == cs.exe
    requires forall p :: |cs.exe| <= p < |r.exe| ==> r.exe[p].Some?
    requires r.lineOffsets == cs.lineOffsets.Set(line, |cs.exe|)
    requires forall k :: k in r.linkTable.entries ==> -1 <= k < |r.exe|
    ensures Layout(r)
  {
    var n := |cs.exe|;
    assert line !in cs.lineOffsets.entries;
    assert r.lineOffsets.keys == cs.lineOffsets.keys + [line];
    forall p | 0 <= p < n
      ensures r.exe[p].Some?
    {
      assert r.exe[p] == r.exe[..n][p];
    }
    forall i, j | 0 <= i < j < |r.lineOffsets.keys|
      ensures && r.lineOffsets.keys[i] < r.lineOffsets.keys[j]
              && r.lineOffsets.entries[r.lineOffsets.keys[i]] < r.lineOffsets.entries[r.lineOffsets.keys[j]]
    {
      var ks := cs.lineOffsets.keys;
      assert ks[i] in cs.lineOffsets.entries;
      if j < |ks| {
        assert ks[j] in cs.lineOffsets.entries;
      }
    }
  }

  /** The instruction loop keeps the layout, never touches the log, emits at most
      two bytes per instruction, emits nothing once the log is in the error
      state, and records only lines up to the last instruction's. */
  lemma {:induction false} CompileAllLayout(cs: CState, settings: Settings, labels: OMap<string, int>, firstEnd: Option<int>, instrs: seq<AsmInstruction>)
    requires Layout(cs) && Increasing(instrs)
    requires forall i :: 0 <= i < |instrs| ==> Encodable(instrs[i])
    requires forall k, i :: k in cs.lineOffsets.entries && 0 <= i < |instrs| ==> k < instrs[i].line
    ensures var r := CompileAll(cs, settings, labels, firstEnd, instrs);
      && Layout(r) && r.log == cs.log
      && |cs.exe| <= |r.exe| <= |cs.exe| + 2 * |instrs|
      && (cs.log.errorState ==> r.exe == cs.exe && r.lineOffsets == cs.lineOffsets)
      && (|instrs| > 0 ==> forall k :: k in r.lineOffsets.entries ==> k <= instrs[|instrs| - 1].line)
      && (|instrs| == 0 ==> r == cs)
  {
    if instrs != [] {
      var init := instrs[..|instrs| - 1];
      var pi := instrs[|instrs| - 1];
      CompileAllLayout(cs, settings, labels, firstEnd, init);
      var prev := CompileAll(cs, settings, labels, firstEnd, init);
      forall k | k in prev.lineOffsets.entries
        ensures k < pi.line
      {
        if |init| == 0 {
          assert k in cs.lineOffsets.entries;
        } else {
          assert init[|init| - 1].line < pi.line;
        }
      }
      LayoutStep(prev, settings, labels, firstEnd, pi);
      InstructionStep(prev, settings, labels, firstEnd, pi);
    }
  }

  /** The label loop raises an error, and so enters the error state, exactly
      when some label's line lies after the last instruction's. */
  lemma {:induction false} LabelChecksFacts(log: Diag.Log, labelLines: seq<int>, lastLine: int)
    ensures var r := LabelChecks(log, labelLines, lastLine);
      && (r.errorState <==> log.errorState || exists i :: 0 <= i < |labelLines| && labelLines[i] > lastLine)
      && |r.messages| == |log.messages| + |set i | 0 <= i < |labelLines| && labelLines[i] > lastLine|
      && r.messages[..|log.messages|] == log.messages
  {
    if labelLines != [] {
      var init := labelLines[..|labelLines| - 1];
      LabelChecksFacts(log, init, lastLine);
      var n := |labelLines| - 1;
      var before := set i | 0 <= i < n && labelLines[i] > lastLine;
      var after := set i | 0 <= i < |labelLines| && labelLines[i] > lastLine;
      assert before == set i | 0 <= i < |init| && init[i] > lastLine;
      if labelLines[n] > lastLine {
        assert after == before + {n};
      } else {
        assert after == before;
      }
      var prev := LabelChecks(log, init, lastLine);
      if (exists i :: 0 <= i < |labelLines| && labelLines[i] > lastLine) && labelLines[n] <= lastLine {
        var i :| 0 <= i < |labelLines| && labelLines[i] > lastLine;
        assert init[i] > lastLine;
      }
    }
  }

  /** `compile` throws exactly when there is no instruction and one of the
      checks needs the last one: a negative `program_size`, a label, or an `end`
      line. */
  lemma CompileCrashes(settings: Settings, tree: ParseTree, firstEnd: Option<int>)
    requires Compilable(tree)
    ensures CompileSpec(settings, tree, firstEnd).Crashed? <==>
      |tree.instructionLines.keys| == 0 && (settings.programSize < 0 || |tree.labels.keys| > 0 || firstEnd.Some?)
  {
  }

  /** When `compile` returns, the build keeps the layout and holds at most two
      bytes per instruction, and only lines up to the last instruction's have
      offsets. A program with more than twice `program_size` instructions, or a
      label after the last instruction, leaves the build empty and the log in the
      error state. */
  lemma CompileFacts(settings: Settings, tree: ParseTree, firstEnd: Option<int>)
    requires Compilable(tree)
    requires CompileSpec(settings, tree, firstEnd).Compiled?
    ensures var instrs := tree.instructionLines.Values();
      var r := CompileSpec(settings, tree, firstEnd).state;
      && Layout(r) && |r.exe| <= 2 * |instrs|
      && (|instrs| > 2 * settings.programSize ==> r.exe == [] && r.log.errorState)
      && (forall l :: l in tree.labels.entries && (|instrs| == 0 || tree.labels.entries[l] > instrs[|instrs| - 1].line) ==>
            r.exe == [] && r.log.errorState)
      && (|instrs| > 0 ==> forall k :: k in r.lineOffsets.entries ==> k <= instrs[|instrs| - 1].line)
  {
    var instrs := tree.instructionLines.Values();
    InstructionsEncodable(tree);
    if |instrs| <= 2 * settings.programSize {
      var last := if |instrs| > 0 then Some(instrs[|instrs| - 1]) else None;
      var lastLine := if last.Some? then last.value.line else 0;
      var labelLines := tree.labels.Values();
      var log := LabelChecks(Diag.Empty, labelLines, lastLine);
      LabelChecksFacts(Diag.Empty, labelLines, lastLine);
      forall l | l in tree.labels.entries && (|instrs| == 0 || tree.labels.entries[l] > instrs[|instrs| - 1].line)
        ensures log.errorState
      {
        var i :| 0 <= i < |tree.labels.keys| && tree.labels.keys[i] == l;
        assert labelLines[i] > lastLine;
      }
      assert Increasing(instrs);
      var start := Fresh.(log := log);
      CompileAllLayout(start, settings, tree.labels, firstEnd, instrs);
      var cs := CompileAll(start, settings, tree.labels, firstEnd, instrs);
      EpilogueFacts(cs.log, settings, firstEnd, last);
    }
  }

  class Compile {
    const settings: Settings
    const parseTree: ParseTree
    const firstEnd: Option<int>
    const build: BuildResult
    const diagnostics: Diag.Diagnostics
    /** Whether `compile` threw. */
    var crashed: bool

    function State(): CState
      reads build, diagnostics
    {
      CState(build.executable, build.lineOffsets, build.linkTable, diagnostics.Snapshot())
    }

    /** Compiles the parse tree into a fresh build. */
    constructor(settings: Settings, parseTree: ParseTree, firstEnd: Option<int>)
      requires Compilable(parseTree)
      ensures this.settings == settings && this.parseTree == parseTree && this.firstEnd == firstEnd
      ensures fresh(build) && fresh(diagnostics)
      ensures CompileSpec(settings, parseTree, firstEnd) == if crashed then Crashed else Compiled(State())
    {
      this.settings := settings;
      this.parseTree := parseTree;
      this.firstEnd := firstEnd;
      build := new BuildResult();
      diagnostics := new Diag.Diagnostics();
      crashed := false;
      new;
      Run();
    }

    method PushBytes(pi: AsmInstruction, arg: Option<int>)
      requires Admits(pi.instruction.operation, pi.instruction.argType)
      modifies build
      ensures State() == PushBytesSpec(old(State()), settings, firstEnd, pi, arg)
    {
      if diagnostics.errorState {
        return;
      }
      if firstEnd.Some? && pi.line > firstEnd.value && !settings.pastEnd {
        return;
      }
      ghost var cs := State();
      var bytes := Bytes(pi.instruction, arg);
      var offsets := build.lineOffsets.Set(pi.line, |build.executable|);
      SetCode(build.executable + bytes, offsets);
      assert PushBytesSpec(cs, settings, firstEnd, pi, arg) == cs.(exe := cs.exe + bytes, lineOffsets := offsets);
    }

    /** Replaces the bytes and the line offsets of the build. */
    method SetCode(exe: seq<Option<int>>, offsets: OMap<int, int>)
      modifies build
      ensures State() == old(State()).(exe := exe, lineOffsets := offsets)
    {
      build.executable := exe;
      build.lineOffsets := offsets;
    }

    method CompileInstruction(pi: AsmInstruction)
      requires Admits(pi.instruction.operation, pi.instruction.argType)
      modifies build
      ensures State() == CompileInstructionSpec(old(State()), settings, parseTree.labels, firstEnd, pi)
    {
      ghost var cs := State();
      ghost var arg := ArgumentByte(parseTree.labels, pi.argument);
      ghost var link := LinkFor(parseTree.labels, pi);
      match pi.argument
      case NoArgument =>
        PushBytes(pi, None);
        assert arg == None && link == None;
      case AsmIdentifier(id) =>
        PushBytes(pi, parseTree.labels.Get(id));
        SetPlaceholder(pi.line, parseTree.labels.Get(id));
        assert arg == parseTree.labels.Get(id) && link == Some(LinkEntry(pi.line, arg));
      case AsmLineNumber(n) =>
        PushBytes(pi, Some(0));
        SetPlaceholder(pi.line, Some(n));
        assert arg == Some(0) && link == Some(LinkEntry(pi.line, Some(n)));
      case AsmAddress(a) =>
        PushBytes(pi, Some(a));
        assert arg == Some(a) && link == None;
      case AsmValue(v) =>
        PushBytes(pi, Some(v));
        assert arg == Some(v) && link == None;
    }

    /** Records a placeholder keyed at the last byte emitted so far. */
    method SetPlaceholder(from: int, to: Option<int>)
      modifies build
      ensures State() == Placeholder(old(State()), from, to)
    {
      build.linkTable := build.linkTable.Set(|build.executable| - 1, LinkEntry(from, to));
    }

    /** The label loop of `compile`. */
    method CheckLabels(lastLine: int)
      modifies diagnostics
      ensures diagnostics.Snapshot() == LabelChecks(old(diagnostics.Snapshot()), parseTree.labels.Values(), lastLine)
      requires parseTree.labels.Valid()
    {
      var labelLines := parseTree.labels.Values();
      var i := 0;
      while i < |labelLines|
        invariant 0 <= i <= |labelLines|
        invariant diagnostics.Snapshot() == LabelChecks(old(diagnostics.Snapshot()), labelLines[..i], lastLine)
      {
        if labelLines[i] > lastLine {
          diagnostics.Error(labelLines[i], "Label does not belong to any instruction.");
        }
        assert labelLines[..i + 1][..i] == labelLines[..i];
        i := i + 1;
      }
      assert labelLines[..i] == labelLines;
    }

    /** The instruction loop of `compile`. */
    method CompileInstructions(instrs: seq<AsmInstruction>)
      requires forall i :: 0 <= i < |instrs| ==> Encodable(instrs[i])
      modifies build
      ensures State() == CompileAll(old(State()), settings, parseTree.labels, firstEnd, instrs)
    {
      var j := 0;
      while j < |instrs|
        invariant 0 <= j <= |instrs|
        invariant State() == CompileAll(old(State()), settings, parseTree.labels, firstEnd, instrs[..j])
      {
        CompileInstruction(instrs[j]);
        assert instrs[..j + 1][..j] == instrs[..j];
        j := j + 1;
      }
      assert instrs[..j] == instrs;
    }

    /** `compile`. */
    method Run()
      requires Compilable(parseTree)
      requires State() == Fresh && !crashed
      modifies this, build, diagnostics
      ensures CompileSpec(settings, parseTree, firstEnd) == if crashed then Crashed else Compiled(State())
    {
      var instrs := parseTree.instructionLines.Values();
      var last := if |instrs| > 0 then Some(instrs[|instrs| - 1]) else None;
      if |instrs| > 2 * settings.programSize {
        if last.None? {
          crashed := true;
          return;
        }
        diagnostics.Error(last.value.line, "Program too large.");
        return;
      }
      if |parseTree.labels.keys| > 0 && last.None? {
        crashed := true;
        return;
      }
      CheckLabels(if last.Some? then last.value.line else 0);
      InstructionsEncodable(parseTree);
      CompileInstructions(instrs);
      if firstEnd.Some? {
        if last.None? {
          crashed := true;
          return;
        }
        if last.value.instruction.operation != End {
          diagnostics.Info(firstEnd.value, "Code following an end instruction.");
        }
      }
      if firstEnd.None? || firstEnd == Some(0) {
        diagnostics.Extension(if last.Some? then last.value.line else 1, "Omitted end instruction is an extension.", settings.pastEnd);
      }
    }
  }
}
