/** The staged assembler (src/assemble.ts): settings from the caller's partial
    settings, then parse, compile and link, with the three stages' diagnostics
    appended in that order. */
module Assembly {
  import opened Wrappers
  import opened OrderedMaps
  import Diag
  import opened AsmTypes
  import Parser
  import opened Compiler
  import opened Linker

  /** The parser's invariant gives what the compile stage needs, and an `end`
      line is only known when there is an instruction. */
  lemma ParsedCompilable(st: Parser.PState)
    requires Parser.WellFormed(st)
    ensures Compilable(st.tree)
    ensures st.firstEnd.Some? ==> |st.tree.instructionLines.keys| > 0
  {
    if st.firstEnd.Some? {
      assert st.firstEnd.value in st.tree.instructionLines.entries;
    }
  }

  /** What assembling gives: the exception the compile stage can throw, or the
      linked build with the combined log. */
  datatype Assembled =
    | Threw
    | Assembled(exe: seq<Option<int>>, lineOffsets: OMap<int, int>, linkTable: OMap<int, LinkEntry>, log: Diag.Log)

  /** The compile stage's result on a parsed program. */
  function CompileParsed(settings: Settings, ps: Parser.PState): Outcome
    requires Parser.WellFormed(ps)
  {
    ParsedCompilable(ps);
    CompileSpec(settings, ps.tree, ps.firstEnd)
  }

  /** The link stage's result on a compiled build. */
  function LinkCompiled(settings: Settings, cs: CState, firstEnd: Option<int>): LState
    requires Layout(cs)
  {
    LinkSpec(CBuild(cs.exe, cs.lineOffsets, cs.linkTable), settings, firstEnd)
  }

  /** Compile and link after parsing. */
  function Stages(settings: Settings, ps: Parser.PState): Assembled
    requires Parser.WellFormed(ps)
  {
    match CompileParsed(settings, ps)
    case Crashed => Threw
    case Compiled(cs) =>
      ParsedCompilable(ps);
      CompileFacts(settings, ps.tree, ps.firstEnd);
      var ls := LinkCompiled(settings, cs, ps.firstEnd);
      Assembled(ls.exe, cs.lineOffsets, cs.linkTable, Diag.Empty.Append(ps.log).Append(cs.log).Append(ls.log))
  }

  /** The `Assemble` constructor. */
  function AssembleSpec(p: PartialSettings, code: string): Assembled {
    Parser.ParseFacts(MakeSettings(p), code);
    Stages(MakeSettings(p), Parser.ParseSpec(MakeSettings(p), code))
  }

  /** `AssembleSpec` is the stages after parsing. */
  lemma AssembleStages(p: PartialSettings, code: string)
    ensures Parser.WellFormed(Parser.ParseSpec(MakeSettings(p), code))
    ensures AssembleSpec(p, code) == Stages(MakeSettings(p), Parser.ParseSpec(MakeSettings(p), code))
  {
    Parser.ParseFacts(MakeSettings(p), code);
  }

  /** Assembling throws exactly when the parsed code holds no instruction and
      either `program_size` is negative or the code defines a label. */
  lemma AssembleThrows(settings: Settings, ps: Parser.PState)
    requires Parser.WellFormed(ps)
    ensures Stages(settings, ps).Threw? <==>
      |ps.tree.instructionLines.keys| == 0 && (settings.programSize < 0 || |ps.tree.labels.keys| > 0)
  {
    ParsedCompilable(ps);
    CompileCrashes(settings, ps.tree, ps.firstEnd);
  }

  /** The combined log holds the parse log's messages first, then the compile
      and link logs' messages, and is in the error state exactly when one of the
      three stages' logs is. */
  lemma AssembleLog(settings: Settings, ps: Parser.PState)
    requires Parser.WellFormed(ps) && Stages(settings, ps).Assembled?
    ensures CompileParsed(settings, ps).Compiled?
    ensures var cs := CompileParsed(settings, ps).state;
      && Layout(cs)
      && var ls := LinkCompiled(settings, cs, ps.firstEnd);
      && var r := Stages(settings, ps);
      && r.exe == ls.exe && r.lineOffsets == cs.lineOffsets && r.linkTable == cs.linkTable
      && ps.log.GrowsTo(r.log)
      && |r.log.messages| == |ps.log.messages| + |cs.log.messages| + |ls.log.messages|
      && (r.log.errorState <==> ps.log.errorState || cs.log.errorState || ls.log.errorState)
  {
    ParsedCompilable(ps);
    CompileFacts(settings, ps.tree, ps.firstEnd);
    var cs := CompileParsed(settings, ps).state;
    var ls := LinkCompiled(settings, cs, ps.firstEnd);
    Diag.AppendFacts(Diag.Empty, ps.log, cs.log);
    Diag.AppendFacts(ps.log, cs.log, ls.log);
  }

  /** Linking a compiled build without an error leaves a number in every byte,
      at most `program_size` bytes, and every jump to a line that holds code
      linked to that line's offset. */
  lemma CleanLink(settings: Settings, cs: CState, firstEnd: Option<int>)
    requires Layout(cs) && !LinkCompiled(settings, cs, firstEnd).log.errorState
    ensures var ls := LinkCompiled(settings, cs, firstEnd);
      && |ls.exe| == |cs.exe| <= settings.programSize
      && (forall i :: 0 <= i < |ls.exe| ==> ls.exe[i].Some?)
      && (forall k :: k in cs.linkTable.entries && 0 <= k < |cs.exe| && cs.linkTable.entries[k].to.Some? && cs.linkTable.entries[k].to.value in cs.lineOffsets.entries ==>
            ls.exe[k] == Some(cs.lineOffsets.entries[cs.linkTable.entries[k].to.value]))
  {
    LinkedJumps(settings, cs, firstEnd);
    LinkedFilled(settings, cs, firstEnd);
  }

  /** The jump half of `CleanLink`, which holds with or without errors. */
  lemma LinkedJumps(settings: Settings, cs: CState, firstEnd: Option<int>)
    requires Layout(cs)
    ensures var ls := LinkCompiled(settings, cs, firstEnd);
      && |ls.exe| == |cs.exe|
      && (forall k :: k in cs.linkTable.entries && 0 <= k < |cs.exe| && cs.linkTable.entries[k].to.Some? && cs.linkTable.entries[k].to.value in cs.lineOffsets.entries ==>
            ls.exe[k] == Some(cs.lineOffsets.entries[cs.linkTable.entries[k].to.value]))
  {
    LinkFacts(CBuild(cs.exe, cs.lineOffsets, cs.linkTable), settings, firstEnd);
    var ls := LinkCompiled(settings, cs, firstEnd);
    forall k | k in cs.linkTable.entries && 0 <= k < |cs.exe| && cs.linkTable.entries[k].to.Some? && cs.linkTable.entries[k].to.value in cs.lineOffsets.entries
      ensures ls.exe[k] == Some(cs.lineOffsets.entries[cs.linkTable.entries[k].to.value])
    {
      var to := cs.linkTable.entries[k].to.value;
      var i :| 0 <= i < |cs.lineOffsets.keys| && cs.lineOffsets.keys[i] == to;
      TargetOfLineWithCode(cs.lineOffsets.keys, cs.lineOffsets.entries, i);
    }
  }

  /** The byte half of `CleanLink`. */
  lemma LinkedFilled(settings: Settings, cs: CState, firstEnd: Option<int>)
    requires Layout(cs) && !LinkCompiled(settings, cs, firstEnd).log.errorState
    ensures var ls := LinkCompiled(settings, cs, firstEnd);
      && |ls.exe| == |cs.exe| <= settings.programSize
      && (forall i :: 0 <= i < |ls.exe| ==> ls.exe[i].Some?)
  {
    LinkFacts(CBuild(cs.exe, cs.lineOffsets, cs.linkTable), settings, firstEnd);
    var ls := LinkCompiled(settings, cs, firstEnd);
    forall i | 0 <= i < |ls.exe|
      ensures ls.exe[i].Some?
    {
      if i in cs.linkTable.entries {
        var j :| 0 <= j < |cs.linkTable.keys| && cs.linkTable.keys[j] == i;
        assert EntryOk(cs.lineOffsets, settings, firstEnd, cs.linkTable.entries[cs.linkTable.keys[j]]);
      }
    }
  }

  /** What a build that assembled without an error looks like: every byte holds
      a number, there are at most `program_size` bytes and at most two per
      instruction, every line offset lies inside the bytes, and every jump to a
      line that holds code was linked to that line's offset. */
  lemma CleanBuild(settings: Settings, ps: Parser.PState)
    requires Parser.WellFormed(ps)
    requires Stages(settings, ps).Assembled? && !Stages(settings, ps).log.errorState
    ensures var r := Stages(settings, ps);
      && (forall i :: 0 <= i < |r.exe| ==> r.exe[i].Some?)
      && |r.exe| <= settings.programSize
      && |r.exe| <= 2 * |ps.tree.instructionLines.keys|
      && (forall k :: k in r.lineOffsets.entries ==> 0 <= r.lineOffsets.entries[k] < |r.exe|)
      && (forall k :: k in r.linkTable.entries && 0 <= k < |r.exe| && r.linkTable.entries[k].to.Some? && r.linkTable.entries[k].to.value in r.lineOffsets.entries ==>
            r.exe[k] == Some(r.lineOffsets.entries[r.linkTable.entries[k].to.value]))
  {
    AssembleLog(settings, ps);
    ParsedCompilable(ps);
    CompileFacts(settings, ps.tree, ps.firstEnd);
    CleanLink(settings, CompileParsed(settings, ps).state, ps.firstEnd);
  }

  /** Linking sends a jump whose line has no code to the next line that has
      code. */
  lemma LinkedEmptyLineJump(settings: Settings, cs: CState, firstEnd: Option<int>, k: int, i: int)
    requires Layout(cs)
    requires k in cs.linkTable.entries && 0 <= k < |cs.exe| && cs.linkTable.entries[k].to.Some?
    requires 0 <= i < |cs.lineOffsets.keys| && cs.lineOffsets.keys[i] >= cs.linkTable.entries[k].to.value
    requires i == 0 || cs.lineOffsets.keys[i - 1] < cs.linkTable.entries[k].to.value
    ensures var ls := LinkCompiled(settings, cs, firstEnd);
      k < |ls.exe| && ls.exe[k] == Some(cs.lineOffsets.entries[cs.lineOffsets.keys[i]])
  {
    LinkFacts(CBuild(cs.exe, cs.lineOffsets, cs.linkTable), settings, firstEnd);
    TargetIsNextLine(cs.lineOffsets.keys, cs.lineOffsets.entries, cs.linkTable.entries[k].to.value, i);
  }

  /** A jump on a line after the first `end` emits nothing while `past_end` is
      off, yet its placeholder is still keyed at the last byte emitted so far,
      which belongs to an earlier instruction; linking that placeholder then
      overwrites the earlier byte with the jump's target and leaves every other
      byte alone. */
  lemma BlockedJumpOverwritesEarlierByte(cs: CState, settings: Settings, labels: OMap<string, int>, firstEnd: Option<int>, pi: AsmInstruction, log: Diag.Log)
    requires Encodable(pi) && LinkFor(labels, pi).Some?
    requires cs.lineOffsets.Valid() && |cs.exe| > 0
    requires firstEnd.Some? && pi.line > firstEnd.value && !settings.pastEnd
    ensures var r := CompileInstructionSpec(cs, settings, labels, firstEnd, pi);
      var k := |cs.exe| - 1;
      var e := LinkFor(labels, pi).value;
      && r.exe == cs.exe && r.lineOffsets == cs.lineOffsets
      && k in r.linkTable.entries && r.linkTable.entries[k] == e
      && LinkEntrySpec(LState(r.exe, log), r.lineOffsets, settings, firstEnd, k, e).exe
           == cs.exe[k := FindTarget(cs.lineOffsets.keys, cs.lineOffsets.entries, e.to)]
  {
  }

  class Assemble {
    var result: BuildResult
    const diagnostics: Diag.Diagnostics
    /** Whether the compile stage threw, which ends the constructor. */
    var threw: bool

    constructor(p: PartialSettings, code: string)
      ensures threw <==> AssembleSpec(p, code).Threw?
      ensures !threw ==> AssembleSpec(p, code) == Assembled(result.executable, result.lineOffsets, result.linkTable, diagnostics.Snapshot())
    {
      var r, d, t := Run(p, code);
      result := r;
      diagnostics := d;
      threw := t;
    }

    /** The constructor's work: settings, the parse, then the later stages. */
    static method Run(p: PartialSettings, code: string) returns (result: BuildResult, d: Diag.Diagnostics, threw: bool)
      ensures threw <==> AssembleSpec(p, code).Threw?
      ensures !threw ==> AssembleSpec(p, code) == Assembled(result.executable, result.lineOffsets, result.linkTable, d.Snapshot())
    {
      var settings := MakeSettings(p);
      var parse := new Parser.Parse(settings, code);
      AssembleStages(p, code);
      result, d, threw := CompileAndLink(settings, parse);
    }

    /** The compile and link stages on a finished parse, and the appended logs. */
    static method CompileAndLink(settings: Settings, parse: Parser.Parse) returns (result: BuildResult, d: Diag.Diagnostics, threw: bool)
      requires Parser.WellFormed(parse.State())
      ensures threw <==> Stages(settings, parse.State()).Threw?
      ensures !threw ==> Stages(settings, parse.State()) == Assembled(result.executable, result.lineOffsets, result.linkTable, d.Snapshot())
    {
      ghost var ps := parse.State();
      ParsedCompilable(ps);
      var compile := new Compile(settings, parse.parseTree, parse.firstEnd);
      assert CompileParsed(settings, ps) == if compile.crashed then Crashed else Compiled(compile.State());
      d := new Diag.Diagnostics();
      result := compile.build;
      threw := compile.crashed;
      if !compile.crashed {
        ghost var cs := compile.State();
        CompileFacts(settings, parse.parseTree, parse.firstEnd);
        var link := new Link(settings, compile.build, parse.firstEnd);
        ghost var ls := LState(compile.build.executable, link.diagnostics.Snapshot());
        assert LinkCompiled(settings, cs, ps.firstEnd) == ls;
        assert Stages(settings, ps) == Assembled(ls.exe, cs.lineOffsets, cs.linkTable, Diag.Empty.Append(ps.log).Append(cs.log).Append(ls.log));
        var d1 := d.Append(parse.diagnostics);
        var d2 := d1.Append(compile.diagnostics);
        var d3 := d2.Append(link.diagnostics);
        assert d.Snapshot() == Diag.Empty.Append(ps.log).Append(cs.log).Append(ls.log);
      }
    }
  }
}
