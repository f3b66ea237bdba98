/** The staged assembler's third stage (src/assembler/link.ts): a `Link` object
    replaces each jump placeholder in the build with the offset of the line the
    jump targets and reports jumps that target nothing, empty lines or lines past
    the first `end`, and a program that is too large. */
module Linker {
  import opened Wrappers
  import opened OrderedMaps
  import Diag
  import opened AsmTypes

  /** The offset of the first line, in the order offsets were recorded, whose
      number is at least `to`; none when `to` is unknown. */
  function FindTarget(lines: seq<int>, offsets: map<int, int>, to: Option<int>): (r: Option<int>)
    requires forall i :: 0 <= i < |lines| ==> lines[i] in offsets
    ensures r.Some? <==> to.Some? && exists i :: 0 <= i < |lines| && lines[i] >= to.value
    decreases |lines|
  {
    if lines == [] || to.None? then None
    else if lines[0] >= to.value then Some(offsets[lines[0]])
    else
      var r := FindTarget(lines[1..], offsets, to);
      assert forall i :: 1 <= i < |lines| ==> lines[1..][i - 1] == lines[i];
      r
  }

  /** The index of the line `FindTarget` picks: the first one at or after `to`. */
  lemma {:induction false} FindTargetPicksFirst(lines: seq<int>, offsets: map<int, int>, to: int)
    requires forall i :: 0 <= i < |lines| ==> lines[i] in offsets
    ensures forall i :: 0 <= i < |lines| && lines[i] >= to && (forall j :: 0 <= j < i ==> lines[j] < to) ==>
      FindTarget(lines, offsets, Some(to)) == Some(offsets[lines[i]])
    decreases |lines|
  {
    if lines != [] && lines[0] < to {
      FindTargetPicksFirst(lines[1..], offsets, to);
      forall i | 0 <= i < |lines| && lines[i] >= to && (forall j :: 0 <= j < i ==> lines[j] < to)
        ensures FindTarget(lines, offsets, Some(to)) == Some(offsets[lines[i]])
      {
        assert i > 0 && lines[1..][i - 1] == lines[i];
        forall j | 0 <= j < i - 1
          ensures lines[1..][j] < to
        {
          assert lines[1..][j] == lines[j + 1];
        }
      }
    }
  }

  /** With the lines in increasing order, the target is the offset of the
      smallest line at or after `to`: the line itself when it has code, the next
      line with code otherwise. */
  lemma TargetIsNextLine(lines: seq<int>, offsets: map<int, int>, to: int, i: int)
    requires forall i :: 0 <= i < |lines| ==> lines[i] in offsets
    requires forall i, j :: 0 <= i < j < |lines| ==> lines[i] < lines[j]
    requires 0 <= i < |lines| && lines[i] >= to && (i == 0 || lines[i - 1] < to)
    ensures FindTarget(lines, offsets, Some(to)) == Some(offsets[lines[i]])
  {
    FindTargetPicksFirst(lines, offsets, to);
    assert forall j :: 0 <= j < i ==> lines[j] <= lines[i - 1];
  }

  /** A jump whose target line has code goes to exactly that line's offset. */
  lemma TargetOfLineWithCode(lines: seq<int>, offsets: map<int, int>, i: int)
    requires forall i :: 0 <= i < |lines| ==> lines[i] in offsets
    requires forall i, j :: 0 <= i < j < |lines| ==> lines[i] < lines[j]
    requires 0 <= i < |lines|
    ensures FindTarget(lines, offsets, Some(lines[i])) == Some(offsets[lines[i]])
  {
    TargetIsNextLine(lines, offsets, lines[i], i);
  }

  /** The stage's output: the bytes and its own log. */
  datatype LState = LState(exe: seq<Option<int>>, log: Diag.Log)

  /** Resolving one placeholder `e` keyed at byte `key`. The bytes are only
      written at an existing position; the position -1 a placeholder can get
      when nothing was emitted yet is outside the bytes. */
  function LinkEntrySpec(ls: LState, lineOffsets: OMap<int, int>, settings: Settings, firstEnd: Option<int>, key: int, e: LinkEntry): LState
    requires lineOffsets.Valid()
  {
    var target := FindTarget(lineOffsets.keys, lineOffsets.entries, e.to);
    LState(if 0 <= key < |ls.exe| then ls.exe[key := target] else ls.exe, EntryLog(ls.log, lineOffsets, settings, firstEnd, e))
  }

  /** The diagnostics of resolving placeholder `e`: no target, a line without
      code, a jump past the first `end`. */
  function EntryLog(log: Diag.Log, lineOffsets: OMap<int, int>, settings: Settings, firstEnd: Option<int>, e: LinkEntry): Diag.Log
    requires lineOffsets.Valid()
  {
    var target := FindTarget(lineOffsets.keys, lineOffsets.entries, e.to);
    var log1 := if target.None? then log.Error(e.from, "Jump does not target anything.") else log;
    var log2 :=
      if e.to.None? || e.to.value !in lineOffsets.entries then log1.Extension(e.from, "Empty line jumps are an extension.", settings.emptyLineJumps)
      else log1;
    if e.to.Some? && firstEnd.Some? && e.to.value > firstEnd.value then log2.Extension(e.from, "Jump past end instruction is an extension.", settings.pastEnd)
    else log2
  }

  /** The loop over the first `n` placeholders, in the order they were recorded. */
  function LinkEntries(ls: LState, build: CBuild, settings: Settings, firstEnd: Option<int>, n: nat): LState
    requires build.Valid() && n <= |build.linkTable.keys|
  {
    if n == 0 then ls
    else
      var key := build.linkTable.keys[n - 1];
      var prev := LinkEntries(ls, build, settings, firstEnd, n - 1);
      LinkEntrySpec(prev, build.lineOffsets, settings, firstEnd, key, build.linkTable.entries[key])
  }

  /** The parts of a build the stage reads. */
  datatype CBuild = CBuild(exe: seq<Option<int>>, lineOffsets: OMap<int, int>, linkTable: OMap<int, LinkEntry>)
  {
    ghost predicate Valid() {
      lineOffsets.Valid() && linkTable.Valid()
    }
  }

  /** `link` as a whole: every placeholder, then the size check. */
  function LinkSpec(build: CBuild, settings: Settings, firstEnd: Option<int>): LState
    requires build.Valid()
  {
    var ls := LinkEntries(LState(build.exe, Diag.Empty), build, settings, firstEnd, |build.linkTable.keys|);
    if |ls.exe| > settings.programSize then ls.(log := ls.log.Error(1, "Program is too large.")) else ls
  }

  /** A placeholder is resolved without complaint when it finds a target, its
      line has code or empty-line jumps are on, and it does not jump past the
      first `end` or jumps past it are on. */
  predicate EntryOk(lineOffsets: OMap<int, int>, settings: Settings, firstEnd: Option<int>, e: LinkEntry)
    requires lineOffsets.Valid()
  {
    && FindTarget(lineOffsets.keys, lineOffsets.entries, e.to).Some?
    && (settings.emptyLineJumps || (e.to.Some? && e.to.value in lineOffsets.entries))
    && (settings.pastEnd || !(e.to.Some? && firstEnd.Some? && e.to.value > firstEnd.value))
  }

  /** One placeholder: only its own byte changes, to the target; the log only
      grows, and enters the error state exactly when the placeholder is not
      resolved cleanly. */
  lemma EntryFacts(ls: LState, lineOffsets: OMap<int, int>, settings: Settings, firstEnd: Option<int>, key: int, e: LinkEntry)
    requires lineOffsets.Valid()
    ensures var r := LinkEntrySpec(ls, lineOffsets, settings, firstEnd, key, e);
      && |r.exe| == |ls.exe|
      && (forall p :: 0 <= p < |ls.exe| && p != key ==> r.exe[p] == ls.exe[p])
      && (0 <= key < |ls.exe| ==> r.exe[key] == FindTarget(lineOffsets.keys, lineOffsets.entries, e.to))
      && ls.log.GrowsTo(r.log)
      && (r.log.errorState <==> ls.log.errorState || !EntryOk(lineOffsets, settings, firstEnd, e))
  {
    EntryLogFacts(ls.log, lineOffsets, settings, firstEnd, e);
  }

  /** The log of one placeholder only grows, and enters the error state exactly
      when the placeholder is not resolved cleanly. */
  lemma EntryLogFacts(log: Diag.Log, lineOffsets: OMap<int, int>, settings: Settings, firstEnd: Option<int>, e: LinkEntry)
    requires lineOffsets.Valid()
    ensures var r := EntryLog(log, lineOffsets, settings, firstEnd, e);
      && log.GrowsTo(r)
      && (r.errorState <==> log.errorState || !EntryOk(lineOffsets, settings, firstEnd, e))
  {
    var target := FindTarget(lineOffsets.keys, lineOffsets.entries, e.to);
    var empty := e.to.None? || e.to.value !in lineOffsets.entries;
    var pastEnd := e.to.Some? && firstEnd.Some? && e.to.value > firstEnd.value;
    var log1 := if target.None? then log.Error(e.from, "Jump does not target anything.") else log;
    var log2 := if empty then log1.Extension(e.from, "Empty line jumps are an extension.", settings.emptyLineJumps) else log1;
    var r := if pastEnd then log2.Extension(e.from, "Jump past end instruction is an extension.", settings.pastEnd) else log2;
    assert EntryLog(log, lineOffsets, settings, firstEnd, e) == r;
    Diag.ErrorIf(log, target.None?, e.from, "Jump does not target anything.");
    Diag.ExtensionIf(log1, empty, e.from, "Empty line jumps are an extension.", settings.emptyLineJumps);
    Diag.ExtensionIf(log2, pastEnd, e.from, "Jump past end instruction is an extension.", settings.pastEnd);
    Diag.GrowsTransitive(log, log1, log2);
    Diag.GrowsTransitive(log, log2, r);
  }

  /** The byte a placeholder recorded at position `k` resolves to. */
  function PlaceholderTarget(build: CBuild, k: int): Option<int>
    requires build.Valid() && k in build.linkTable.entries
  {
    FindTarget(build.lineOffsets.keys, build.lineOffsets.entries, build.linkTable.entries[k].to)
  }

  /** Every placeholder whose key is a byte position has its byte replaced by
      its target; every other byte is as compiled; the length is kept. The log
      is in the error state exactly when some placeholder was not resolved
      cleanly. */
  lemma {:induction false} LinkEntriesFacts(ls: LState, build: CBuild, settings: Settings, firstEnd: Option<int>, n: nat)
    requires build.Valid() && n <= |build.linkTable.keys|
    ensures var r := LinkEntries(ls, build, settings, firstEnd, n);
      var keys := build.linkTable.keys;
      && |r.exe| == |ls.exe|
      && (forall p :: 0 <= p < |ls.exe| && p !in keys[..n] ==> r.exe[p] == ls.exe[p])
      && (forall i :: 0 <= i < n && 0 <= keys[i] < |ls.exe| ==> r.exe[keys[i]] == PlaceholderTarget(build, keys[i]))
      && ls.log.GrowsTo(r.log)
      && (r.log.errorState <==>
            (ls.log.errorState || exists i :: 0 <= i < n && !EntryOk(build.lineOffsets, settings, firstEnd, build.linkTable.entries[keys[i]])))
  {
    if n > 0 {
      var keys := build.linkTable.keys;
      LinkEntriesFacts(ls, build, settings, firstEnd, n - 1);
      var prev := LinkEntries(ls, build, settings, firstEnd, n - 1);
      var key := keys[n - 1];
      assert key in build.linkTable.keys;
      var r := LinkEntries(ls, build, settings, firstEnd, n);
      assert r == LinkEntrySpec(prev, build.lineOffsets, settings, firstEnd, key, build.linkTable.entries[key]);
      EntryFacts(prev, build.lineOffsets, settings, firstEnd, key, build.linkTable.entries[key]);
      Diag.GrowsTransitive(ls.log, prev.log, r.log);
      UntouchedStep(ls.exe, prev.exe, r.exe, keys, n);
      TargetsStep(prev.exe, r.exe, build, n);
    }
  }

  /** Bytes no placeholder among the first `n` names keep their value. */
  lemma UntouchedStep(start: seq<Option<int>>, prev: seq<Option<int>>, r: seq<Option<int>>, keys: seq<int>, n: nat)
    requires 0 < n <= |keys| && |prev| == |start| && |r| == |prev|
    requires forall p :: 0 <= p < |start| && p !in keys[..n - 1] ==> prev[p] == start[p]
    requires forall p :: 0 <= p < |prev| && p != keys[n - 1] ==> r[p] == prev[p]
    ensures forall p :: 0 <= p < |start| && p !in keys[..n] ==> r[p] == start[p]
  {
    assert keys[..n] == keys[..n - 1] + [keys[n - 1]];
  }

  /** The bytes of the first `n` placeholders hold their targets, given that
      the first `n - 1` did and only the last one's byte was changed. */
  lemma TargetsStep(prev: seq<Option<int>>, r: seq<Option<int>>, build: CBuild, n: nat)
    requires build.Valid() && 0 < n <= |build.linkTable.keys| && |r| == |prev|
    requires var keys := build.linkTable.keys;
      forall i :: 0 <= i < n - 1 && 0 <= keys[i] < |prev| ==> prev[keys[i]] == PlaceholderTarget(build, keys[i])
    requires forall p :: 0 <= p < |prev| && p != build.linkTable.keys[n - 1] ==> r[p] == prev[p]
    requires var key := build.linkTable.keys[n - 1];
      0 <= key < |prev| ==> r[key] == PlaceholderTarget(build, key)
    ensures var keys := build.linkTable.keys;
      forall i :: 0 <= i < n && 0 <= keys[i] < |r| ==> r[keys[i]] == PlaceholderTarget(build, keys[i])
  {
    var keys := build.linkTable.keys;
    forall i | 0 <= i < n && 0 <= keys[i] < |r|
      ensures r[keys[i]] == PlaceholderTarget(build, keys[i])
    {
      if i < n - 1 {
        assert keys[i] != keys[n - 1];
      }
    }
  }

  /** `link`: the bytes keep their length, every placeholder byte holds its
      target and every other byte is as compiled; the log is in the error state
      exactly when some placeholder was not resolved cleanly or the program has
      more than `program_size` bytes. */
  lemma LinkFacts(build: CBuild, settings: Settings, firstEnd: Option<int>)
    requires build.Valid()
    ensures var r := LinkSpec(build, settings, firstEnd);
      var keys := build.linkTable.keys;
      && |r.exe| == |build.exe|
      && (forall p :: 0 <= p < |build.exe| && p !in build.linkTable.entries ==> r.exe[p] == build.exe[p])
      && (forall k :: k in build.linkTable.entries && 0 <= k < |build.exe| ==>
            r.exe[k] == FindTarget(build.lineOffsets.keys, build.lineOffsets.entries, build.linkTable.entries[k].to))
      && (r.log.errorState <==>
            (|build.exe| > settings.programSize ||
             exists i :: 0 <= i < |keys| && !EntryOk(build.lineOffsets, settings, firstEnd, build.linkTable.entries[keys[i]])))
  {
    var keys := build.linkTable.keys;
    LinkEntriesFacts(LState(build.exe, Diag.Empty), build, settings, firstEnd, |keys|);
    var r := LinkSpec(build, settings, firstEnd);
    assert keys[..|keys|] == keys;
    forall k | k in build.linkTable.entries && 0 <= k < |build.exe|
      ensures r.exe[k] == PlaceholderTarget(build, k)
    {
      var i :| 0 <= i < |keys| && keys[i] == k;
    }
  }

  /** The parts of a build object the stage reads. */
  function Parts(b: BuildResult): CBuild
    reads b
  {
    CBuild(b.executable, b.lineOffsets, b.linkTable)
  }

  class Link {
    const settings: Settings
    const firstEnd: Option<int>
    /** The build, shared with the compile stage and updated in place. */
    const build: BuildResult
    const diagnostics: Diag.Diagnostics

    function Snapshot(): CBuild
      reads build
    {
      Parts(build)
    }

    /** Links the build in place. */
    constructor(settings: Settings, build: BuildResult, firstEnd: Option<int>)
      requires build.lineOffsets.Valid() && build.linkTable.Valid()
      modifies build
      ensures this.settings == settings && this.firstEnd == firstEnd && this.build == build
      ensures fresh(diagnostics)
      ensures build.lineOffsets == old(build.lineOffsets) && build.linkTable == old(build.linkTable)
      ensures LinkSpec(old(Parts(build)), settings, firstEnd) == LState(build.executable, diagnostics.Snapshot())
    {
      this.settings := settings;
      this.firstEnd := firstEnd;
      this.build := build;
      diagnostics := new Diag.Diagnostics();
      new;
      Run();
    }

    /** The `find` over the recorded line offsets. */
    static method Target(lineOffsets: OMap<int, int>, to: Option<int>) returns (target: Option<int>)
      requires lineOffsets.Valid()
      ensures target == FindTarget(lineOffsets.keys, lineOffsets.entries, to)
    {
      if to.None? {
        return None;
      }
      var i := 0;
      while i < |lineOffsets.keys|
        invariant 0 <= i <= |lineOffsets.keys|
        invariant FindTarget(lineOffsets.keys[i..], lineOffsets.entries, to) == FindTarget(lineOffsets.keys, lineOffsets.entries, to)
      {
        assert lineOffsets.keys[i..][1..] == lineOffsets.keys[i + 1..];
        if lineOffsets.keys[i] >= to.value {
          return Some(lineOffsets.entries[lineOffsets.keys[i]]);
        }
        i := i + 1;
      }
      return None;
    }

    method LinkOne(key: int, e: LinkEntry)
      requires build.lineOffsets.Valid()
      modifies build, diagnostics
      ensures build.lineOffsets == old(build.lineOffsets) && build.linkTable == old(build.linkTable)
      ensures LState(build.executable, diagnostics.Snapshot())
        == LinkEntrySpec(old(LState(build.executable, diagnostics.Snapshot())), build.lineOffsets, settings, firstEnd, key, e)
    {
      var target := Target(build.lineOffsets, e.to);
      if target.None? {
        diagnostics.Error(e.from, "Jump does not target anything.");
      }
      if e.to.None? || !build.lineOffsets.Has(e.to.value) {
        diagnostics.Extension(e.from, "Empty line jumps are an extension.", settings.emptyLineJumps);
      }
      if e.to.Some? && firstEnd.Some? && e.to.value > firstEnd.value {
        diagnostics.Extension(e.from, "Jump past end instruction is an extension.", settings.pastEnd);
      }
      if 0 <= key < |build.executable| {
        build.executable := build.executable[key := target];
      }
    }

    /** `link`. */
    method Run()
      requires Snapshot().Valid() && diagnostics.Snapshot() == Diag.Empty
      modifies build, diagnostics
      ensures build.lineOffsets == old(build.lineOffsets) && build.linkTable == old(build.linkTable)
      ensures LinkSpec(old(Snapshot()), settings, firstEnd) == LState(build.executable, diagnostics.Snapshot())
    {
      var start := Snapshot();
      var i := 0;
      while i < |build.linkTable.keys|
        invariant 0 <= i <= |build.linkTable.keys|
        invariant build.lineOffsets == start.lineOffsets && build.linkTable == start.linkTable
        invariant LState(build.executable, diagnostics.Snapshot()) == LinkEntries(LState(start.exe, Diag.Empty), start, settings, firstEnd, i)
      {
        var key := build.linkTable.keys[i];
        assert key in build.linkTable.keys;
        ghost var next := LinkEntrySpec(LinkEntries(LState(start.exe, Diag.Empty), start, settings, firstEnd, i), start.lineOffsets, settings, firstEnd, key, start.linkTable.entries[key]);
        assert LinkEntries(LState(start.exe, Diag.Empty), start, settings, firstEnd, i + 1) == next;
        LinkOne(key, build.linkTable.entries[key]);
        assert LState(build.executable, diagnostics.Snapshot()) == next;
        i := i + 1;
      }
      if |build.executable| > settings.programSize {
        diagnostics.Error(1, "Program is too large.");
      }
    }
  }
}
