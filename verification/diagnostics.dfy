/** The diagnostics log the assembler stages share: a list of messages and a
    sticky error flag that blocks the build. */
module Diag {

  datatype Severity = Info | Warning | Extension | Error

  datatype Entry = Entry(severity: Severity, nearLine: int, description: string)

  /** What a log holds at one moment. */
  datatype Log = Log(messages: seq<Entry>, errorState: bool)
  {
    function Raise(severity: Severity, line: int, description: string): Log {
      Log(messages + [Entry(severity, line, description)], errorState)
    }

    function Info(line: int, description: string): Log {
      Raise(Severity.Info, line, description)
    }

    function Warning(line: int, description: string): Log {
      Raise(Severity.Warning, line, description)
    }

    /** An extension blocks the build unless the setting that admits it is on. */
    function Extension(line: int, description: string, enabled: bool): Log {
      var l := Raise(Severity.Extension, line, description);
      if enabled then l else l.(errorState := true)
    }

    function Error(line: int, description: string): Log {
      Raise(Severity.Error, line, description).(errorState := true)
    }

    function Append(other: Log): Log {
      Log(messages + other.messages, errorState || other.errorState)
    }

    /** `l` came from this log by adding messages at the end, and did not clear the flag. */
    predicate GrowsTo(l: Log) {
      |messages| <= |l.messages| && l.messages[..|messages|] == messages && (errorState ==> l.errorState)
    }
  }

  const Empty: Log := Log([], false)

  /** Each raise appends exactly one entry with its severity, line and text; only
      `info` and `warning` leave the flag alone, `extension` sets it exactly when the
      extension is not enabled, and `error` always sets it. */
  lemma RaiseFacts(l: Log, line: int, d: string, enabled: bool)
    ensures l.Info(line, d) == Log(l.messages + [Entry(Info, line, d)], l.errorState)
    ensures l.Warning(line, d) == Log(l.messages + [Entry(Warning, line, d)], l.errorState)
    ensures l.Extension(line, d, enabled).messages == l.messages + [Entry(Extension, line, d)]
    ensures l.Extension(line, d, enabled).errorState <==> l.errorState || !enabled
    ensures l.Error(line, d) == Log(l.messages + [Entry(Error, line, d)], true)
  {
  }

  /** Appending logs is associative, has the empty log as identity and is what
      a sequence of appends accumulates. */
  lemma AppendFacts(a: Log, b: Log, c: Log)
    ensures a.Append(b).Append(c) == a.Append(b.Append(c))
    ensures Empty.Append(a) == a && a.Append(Empty) == a
    ensures a.GrowsTo(a.Append(b))
    ensures a.Append(b).errorState <==> a.errorState || b.errorState
  {
  }

  /** Growth is reflexive and transitive, so a run of raises and appends never
      loses a message or clears the flag. */
  lemma GrowsTransitive(a: Log, b: Log, c: Log)
    requires a.GrowsTo(b) && b.GrowsTo(c)
    ensures a.GrowsTo(c)
  {
    assert c.messages[..|a.messages|] == c.messages[..|b.messages|][..|a.messages|];
  }

  /** A raise made only when `cond` holds: the log grows, and the flag is set
      exactly when it was set or the raise happened and was an error or a
      disabled extension. */
  lemma ExtensionIf(l: Log, cond: bool, line: int, d: string, enabled: bool)
    ensures var r := if cond then l.Extension(line, d, enabled) else l;
      l.GrowsTo(r) && (r.errorState <==> l.errorState || (cond && !enabled))
  {
    if cond {
      RaisesGrow(l, line, d, enabled);
    } else {
      assert l.messages[..|l.messages|] == l.messages;
    }
  }

  lemma ErrorIf(l: Log, cond: bool, line: int, d: string)
    ensures var r := if cond then l.Error(line, d) else l;
      l.GrowsTo(r) && (r.errorState <==> l.errorState || cond)
  {
    if cond {
      RaisesGrow(l, line, d, true);
    } else {
      assert l.messages[..|l.messages|] == l.messages;
    }
  }

  lemma RaisesGrow(l: Log, line: int, d: string, enabled: bool)
    ensures l.GrowsTo(l) && l.GrowsTo(l.Info(line, d)) && l.GrowsTo(l.Warning(line, d))
    ensures l.GrowsTo(l.Extension(line, d, enabled)) && l.GrowsTo(l.Error(line, d))
  {
  }

  class Diagnostics {
    var errorState: bool
    var messages: seq<Entry>

    function Snapshot(): Log
      reads this
    {
      Log(messages, errorState)
    }

    constructor()
      ensures Snapshot() == Empty
    {
      errorState := false;
      messages := [];
    }

    method Info(line: int, description: string)
      modifies this
      ensures Snapshot() == old(Snapshot()).Info(line, description)
    {
      messages := messages + [Entry(Severity.Info, line, description)];
    }

    method Warning(line: int, description: string)
      modifies this
      ensures Snapshot() == old(Snapshot()).Warning(line, description)
    {
      messages := messages + [Entry(Severity.Warning, line, description)];
    }

    method Extension(line: int, description: string, enabled: bool)
      modifies this
      ensures Snapshot() == old(Snapshot()).Extension(line, description, enabled)
    {
      messages := messages + [Entry(Severity.Extension, line, description)];
      if !enabled {
        errorState := true;
      }
    }

    method Error(line: int, description: string)
      modifies this
      ensures Snapshot() == old(Snapshot()).Error(line, description)
    {
      messages := messages + [Entry(Severity.Error, line, description)];
      errorState := true;
    }

    /** Appends the other log's messages (read before the push, so a log appended
        to itself doubles) and ORs the flags; answers this log for chaining. */
    method Append(other: Diagnostics) returns (r: Diagnostics)
      modifies this
      ensures r == this
      ensures Snapshot() == old(Snapshot()).Append(old(other.Snapshot()))
    {
      messages := messages + other.messages;
      errorState := errorState || other.errorState;
      r := this;
    }
  }
}
