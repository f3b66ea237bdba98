/** The machine's fixed instruction catalog, the I/O address aliases, the
    operator and comparison codes and the representable integer range
    (src/platform.ts). Shared by the assemblers and the virtual machine. */
module Platform {
  import opened Wrappers

  /** The operations, in the declaration order of the source's `Operation` enum. */
  datatype Operation = Nop | Ld | St | In | Out | Add | Sub | Mul | Div | Mod | Cmp | Jmp | Jlt | Jeq | Jgt | End

  /** How an operation takes its argument: none, a memory address read from,
      a memory address written to, a jump target, or a literal value. */
  datatype ArgType = NoArg | AdrSrc | AdrDst | Tar | Val

  datatype Instruction = Instruction(operation: Operation, argType: ArgType)

  datatype CodedInstruction = CodedInstruction(instruction: Instruction, opcode: int)

  const MOPS_MIN_INTEGER: int := -9999
  const MOPS_MAX_INTEGER: int := 9999

  /** The catalog, in source order; the opcodes are the values of the `Opcode` enum. */
  const InstructionSet: seq<CodedInstruction> := [
    CodedInstruction(Instruction(Nop, NoArg), 0),
    CodedInstruction(Instruction(Ld, AdrSrc), 10),
    CodedInstruction(Instruction(Ld, Val), 11),
    CodedInstruction(Instruction(St, AdrDst), 12),
    CodedInstruction(Instruction(In, AdrDst), 20),
    CodedInstruction(Instruction(Out, AdrSrc), 22),
    CodedInstruction(Instruction(Out, Val), 23),
    CodedInstruction(Instruction(Add, AdrSrc), 30),
    CodedInstruction(Instruction(Add, Val), 31),
    CodedInstruction(Instruction(Sub, AdrSrc), 32),
    CodedInstruction(Instruction(Sub, Val), 33),
    CodedInstruction(Instruction(Mul, AdrSrc), 34),
    CodedInstruction(Instruction(Mul, Val), 35),
    CodedInstruction(Instruction(Div, AdrSrc), 36),
    CodedInstruction(Instruction(Div, Val), 37),
    CodedInstruction(Instruction(Mod, AdrSrc), 38),
    CodedInstruction(Instruction(Mod, Val), 39),
    CodedInstruction(Instruction(Cmp, AdrSrc), 40),
    CodedInstruction(Instruction(Cmp, Val), 41),
    CodedInstruction(Instruction(Jmp, Tar), 50),
    CodedInstruction(Instruction(Jlt, Tar), 52),
    CodedInstruction(Instruction(Jeq, Tar), 54),
    CodedInstruction(Instruction(Jgt, Tar), 56),
    CodedInstruction(Instruction(End, NoArg), 60)
  ]

  /** The members of the `Operation` enum in declaration order. */
  const Operations: seq<Operation> := [Nop, Ld, St, In, Out, Add, Sub, Mul, Div, Mod, Cmp, Jmp, Jlt, Jeq, Jgt, End]

  /** The enum member's name, which is also its default mnemonic. */
  function Name(op: Operation): string {
    match op
    case Nop => "nop" case Ld => "ld" case St => "st" case In => "in"
    case Out => "out" case Add => "add" case Sub => "sub" case Mul => "mul"
    case Div => "div" case Mod => "mod" case Cmp => "cmp" case Jmp => "jmp"
    case Jlt => "jlt" case Jeq => "jeq" case Jgt => "jgt" case End => "end"
  }

  /** Every operation is listed, at its enumeration index. */
  lemma OperationsListed(op: Operation)
    ensures 0 <= OperationIndex(op) < |Operations| && Operations[OperationIndex(op)] == op
  {
  }

  /** No two operations share a name. */
  lemma NamesDistinct(a: Operation, b: Operation)
    ensures Name(a) == Name(b) ==> a == b
  {
  }

  /** The I/O aliases `a`..`h`. */
  const BuiltinAliases: map<string, int> :=
    map["a" := 64, "b" := 65, "c" := 66, "d" := 67, "e" := 68, "f" := 69, "g" := 70, "h" := 71]

  /** `ExecutionOperator`: the code an arithmetic or compare step writes to `opr`. */
  const OPR_NONE: int := 0
  const OPR_ADD: int := 1
  const OPR_SUB: int := 2
  const OPR_MUL: int := 3
  const OPR_DIV: int := 4
  const OPR_MOD: int := 5
  const OPR_CMP: int := 6

  /** `ExecutionComparison`: the code `cmp` writes to the comparison register. */
  const CMP_NONE: int := 0
  const CMP_LT: int := 1
  const CMP_EQ: int := 2
  const CMP_GT: int := 3

  /** Bytes an instruction occupies: the opcode, plus one argument byte unless it takes none. */
  function Width(kind: ArgType): (w: nat)
    ensures w == 1 <==> kind == NoArg
    ensures w == 1 || w == 2
  {
    if kind == NoArg then 1 else 2
  }

  function FindOpcodeIn(s: seq<CodedInstruction>, code: int): (r: Option<CodedInstruction>)
    ensures r.Some? ==> r.value in s && r.value.opcode == code
    ensures r.None? <==> forall e :: e in s ==> e.opcode != code
  {
    if s == [] then None
    else if s[0].opcode == code then Some(s[0])
    else FindOpcodeIn(s[1..], code)
  }

  /** Decoding: the first catalog entry with the given opcode (`InstructionSet.find`). */
  function FindByOpcode(code: int): (r: Option<CodedInstruction>)
    ensures r.Some? ==> r.value in InstructionSet && r.value.opcode == code
    ensures r.None? <==> forall e :: e in InstructionSet ==> e.opcode != code
  {
    FindOpcodeIn(InstructionSet, code)
  }

  function FindInstructionIn(s: seq<CodedInstruction>, i: Instruction): (r: Option<int>)
    ensures r.Some? ==> CodedInstruction(i, r.value) in s
    ensures r.None? <==> forall e :: e in s ==> e.instruction != i
  {
    if s == [] then None
    else if s[0].instruction == i then Some(s[0].opcode)
    else FindInstructionIn(s[1..], i)
  }

  /** Encoding: the opcode of the catalog entry for an instruction. */
  function OpcodeOf(i: Instruction): (r: Option<int>)
    ensures r.Some? ==> CodedInstruction(i, r.value) in InstructionSet
    ensures r.None? <==> forall e :: e in InstructionSet ==> e.instruction != i
  {
    FindInstructionIn(InstructionSet, i)
  }

  function FilterOperation(s: seq<CodedInstruction>, op: Operation): (r: seq<CodedInstruction>)
    ensures forall e :: e in r <==> e in s && e.instruction.operation == op
    ensures |r| <= |s|
  {
    if s == [] then []
    else if s[0].instruction.operation == op then [s[0]] + FilterOperation(s[1..], op)
    else FilterOperation(s[1..], op)
  }

  /** The catalog entries of one operation, in catalog order: the slice at the
      operation's span, which `MatchingIsFilter` shows to be what filtering the
      catalog by operation yields. */
  function Matching(op: Operation): seq<CodedInstruction> {
    InstructionSet[Span(op).0..Span(op).1]
  }

  /** No two catalog entries share an opcode. */
  ghost predicate OpcodesUnique() {
    forall i, j :: 0 <= i < j < |InstructionSet| ==> InstructionSet[i].opcode != InstructionSet[j].opcode
  }

  /** No two catalog entries share an (operation, argument kind) pair. */
  ghost predicate InstructionsUnique() {
    forall i, j :: 0 <= i < j < |InstructionSet| ==> InstructionSet[i].instruction != InstructionSet[j].instruction
  }

  /** The position of an operation in its enum. */
  function OperationIndex(op: Operation): int {
    match op
    case Nop => 0 case Ld => 1 case St => 2 case In => 3 case Out => 4 case Add => 5 case Sub => 6 case Mul => 7
    case Div => 8 case Mod => 9 case Cmp => 10 case Jmp => 11 case Jlt => 12 case Jeq => 13 case Jgt => 14 case End => 15
  }

  function KindIndex(k: ArgType): int {
    match k case NoArg => 0 case AdrSrc => 1 case AdrDst => 2 case Tar => 3 case Val => 4
  }

  /** A numbering of instructions, by operation and then by argument kind. */
  function Rank(i: Instruction): int {
    OperationIndex(i.operation) * 5 + KindIndex(i.argType)
  }

  lemma {:induction false} AdjacentToAll(s: seq<CodedInstruction>)
    requires forall i :: 0 <= i < |s| - 1 ==> s[i].opcode < s[i + 1].opcode
    requires forall i :: 0 <= i < |s| - 1 ==> Rank(s[i].instruction) < Rank(s[i + 1].instruction)
    ensures forall i, j :: 0 <= i < j < |s| ==> s[i].opcode < s[j].opcode
    ensures forall i, j :: 0 <= i < j < |s| ==> Rank(s[i].instruction) < Rank(s[j].instruction)
  {
    if |s| > 1 {
      AdjacentToAll(s[1..]);
      forall i, j | 0 <= i < j < |s|
        ensures s[i].opcode < s[j].opcode && Rank(s[i].instruction) < Rank(s[j].instruction)
      {
        assert s[j] == s[1..][j - 1];
        if i > 0 {
          assert s[i] == s[1..][i - 1];
        } else if j > 1 {
          assert s[1] == s[1..][0];
        }
      }
    }
  }

  lemma OpcodesAdjacent()
    ensures forall i :: 0 <= i < |InstructionSet| - 1 ==> InstructionSet[i].opcode < InstructionSet[i + 1].opcode
  {
  }

  lemma RanksAdjacent()
    ensures forall i :: 0 <= i < |InstructionSet| - 1 ==>
      Rank(InstructionSet[i].instruction) < Rank(InstructionSet[i + 1].instruction)
  {

  }

  /** Both uniqueness facts follow from the catalog being listed in increasing
      opcode order and in increasing (operation, argument kind) order. */
  lemma CatalogUnique()
    ensures OpcodesUnique() && InstructionsUnique()
  {
    OpcodesAdjacent();
    RanksAdjacent();
    AdjacentToAll(InstructionSet);
  }

  /** Opcode decoding and instruction encoding are inverse on the catalog, in both directions. */
  lemma {:induction false} CodingRoundTrip(e: CodedInstruction)
    requires e in InstructionSet
    ensures FindByOpcode(e.opcode) == Some(e)
    ensures OpcodeOf(e.instruction) == Some(e.opcode)
  {
    CatalogUnique();
    var k :| 0 <= k < |InstructionSet| && InstructionSet[k] == e;
    FindFirstAt(InstructionSet, k);
  }

  lemma {:induction false} FindFirstAt(s: seq<CodedInstruction>, k: int)
    requires 0 <= k < |s|
    requires forall i, j :: 0 <= i < j < |s| ==> s[i].opcode != s[j].opcode
    requires forall i, j :: 0 <= i < j < |s| ==> s[i].instruction != s[j].instruction
    ensures FindOpcodeIn(s, s[k].opcode) == Some(s[k])
    ensures FindInstructionIn(s, s[k].instruction) == Some(s[k].opcode)
  {
    if k > 0 {
      FindFirstAt(s[1..], k - 1);
    }
  }

  /** Decoding a known opcode and encoding the instruction found gives the opcode back. */
  lemma DecodeThenEncode(code: int)
    requires FindByOpcode(code).Some?
    ensures OpcodeOf(FindByOpcode(code).value.instruction) == Some(code)
  {
    CodingRoundTrip(FindByOpcode(code).value);
  }

  /** The argument kinds the catalog lists for each operation. */
  predicate Admits(op: Operation, kind: ArgType) {
    match op
    case Nop => kind == NoArg
    case End => kind == NoArg
    case St => kind == AdrDst
    case In => kind == AdrDst
    case Jmp => kind == Tar
    case Jlt => kind == Tar
    case Jeq => kind == Tar
    case Jgt => kind == Tar
    case _ => kind == AdrSrc || kind == Val
  }

  /** An instruction has a catalog entry exactly when its operation admits its
      argument kind. */
  lemma AdmitsIsCatalog(i: Instruction)
    ensures Admits(i.operation, i.argType) <==> OpcodeOf(i).Some?
  {
    if Admits(i.operation, i.argType) {
      AdmittedListed(i);
    }
    if OpcodeOf(i).Some? {
      ListedAdmitted(i, CodedInstruction(i, OpcodeOf(i).value));
    }
  }

  lemma AdmittedListed(i: Instruction)
    requires Admits(i.operation, i.argType)
    ensures OpcodeOf(i).Some?
  {
    var op := i.operation;
    var m := Matching(op);
    MatchingShape(op);
    var k := if op in {Ld, Out, Add, Sub, Mul, Div, Mod, Cmp} && i.argType == Val then 1 else 0;
    assert m[k].instruction == i;
    assert m[k] == InstructionSet[Span(op).0 + k];
    CodingRoundTrip(m[k]);
  }

  lemma ListedAdmitted(i: Instruction, e: CodedInstruction)
    requires e in InstructionSet && e.instruction == i
    ensures Admits(i.operation, i.argType)
  {
    CatalogKinds();
    var j :| 0 <= j < |InstructionSet| && InstructionSet[j] == e;
  }

  /** Only `nop` and `end` take no argument; the jumps take only targets;
      `st` and `in` take only a written address; every other operation takes a
      read address or a value. */
  lemma CatalogKinds()
    ensures forall i :: 0 <= i < |InstructionSet| ==>
      var e := InstructionSet[i].instruction;
      && (e.argType == NoArg <==> e.operation in {Nop, End})
      && (e.operation in {Jmp, Jlt, Jeq, Jgt} ==> e.argType == Tar)
      && (e.operation in {St, In} ==> e.argType == AdrDst)
      && (e.operation in {Ld, Out, Add, Sub, Mul, Div, Mod, Cmp} ==> e.argType in {AdrSrc, Val})
  {
  }

  /** Where each operation's entries sit in the catalog: a half-open range of positions. */
  function Span(op: Operation): (int, int) {
    match op
    case Nop => (0, 1) case Ld => (1, 3) case St => (3, 4) case In => (4, 5) case Out => (5, 7)
    case Add => (7, 9) case Sub => (9, 11) case Mul => (11, 13) case Div => (13, 15)
    case Mod => (15, 17) case Cmp => (17, 19) case Jmp => (19, 20) case Jlt => (20, 21) case Jeq => (21, 22)
    case Jgt => (22, 23) case End => (23, 24)
  }

  lemma SpanExact(op: Operation)
    ensures 0 <= Span(op).0 < Span(op).1 <= |InstructionSet|
    ensures forall i :: 0 <= i < |InstructionSet| ==>
      (InstructionSet[i].instruction.operation == op <==> Span(op).0 <= i < Span(op).1)
  {
  }

  lemma {:induction false} FilterAppend(a: seq<CodedInstruction>, b: seq<CodedInstruction>, op: Operation)
    ensures FilterOperation(a + b, op) == FilterOperation(a, op) + FilterOperation(b, op)
  {
    if a != [] {
      assert (a + b)[1..] == a[1..] + b;
      FilterAppend(a[1..], b, op);
    } else {
      assert a + b == b;
    }
  }

  lemma {:induction false} FilterNone(s: seq<CodedInstruction>, op: Operation)
    requires forall i :: 0 <= i < |s| ==> s[i].instruction.operation != op
    ensures FilterOperation(s, op) == []
  {
    if s != [] {
      FilterNone(s[1..], op);
    }
  }

  lemma {:induction false} FilterAll(s: seq<CodedInstruction>, op: Operation)
    requires forall i :: 0 <= i < |s| ==> s[i].instruction.operation == op
    ensures FilterOperation(s, op) == s
  {
    if s != [] {
      FilterAll(s[1..], op);
    }
  }

  /** Filtering a sequence whose matching entries form one contiguous run gives that run. */
  lemma FilterSpan(s: seq<CodedInstruction>, op: Operation, lo: int, hi: int)
    requires 0 <= lo <= hi <= |s|
    requires forall i :: 0 <= i < |s| ==> (s[i].instruction.operation == op <==> lo <= i < hi)
    ensures FilterOperation(s, op) == s[lo..hi]
  {
    var a, b, c := s[..lo], s[lo..hi], s[hi..];
    assert s == a + b + c;
    forall i | 0 <= i < |a| ensures a[i].instruction.operation != op {
      assert a[i] == s[i];
    }
    forall i | 0 <= i < |b| ensures b[i].instruction.operation == op {
      assert b[i] == s[lo + i];
    }
    forall i | 0 <= i < |c| ensures c[i].instruction.operation != op {
      assert c[i] == s[hi + i];
    }
    FilterAppend(a + b, c, op);
    FilterAppend(a, b, op);
    FilterNone(a, op);
    FilterAll(b, op);
    FilterNone(c, op);
  }

  /** Filtering the catalog by an operation gives exactly the slice at its span. */
  lemma MatchingIsFilter(op: Operation)
    ensures FilterOperation(InstructionSet, op) == Matching(op)
    ensures forall e :: e in Matching(op) <==> e in InstructionSet && e.instruction.operation == op
  {
    SpanExact(op);
    FilterSpan(InstructionSet, op, Span(op).0, Span(op).1);
  }

  /** The catalog slice at an operation's span has the argument kinds listed below. */
  lemma SpanShape(op: Operation, m: seq<CodedInstruction>)
    requires m == InstructionSet[Span(op).0..Span(op).1]
    ensures op in {Ld, Out, Add, Sub, Mul, Div, Mod, Cmp} ==>
      |m| == 2 && m[0].instruction == Instruction(op, AdrSrc) && m[1].instruction == Instruction(op, Val)
    ensures op !in {Ld, Out, Add, Sub, Mul, Div, Mod, Cmp} ==>
      |m| == 1 && m[0].instruction.operation == op &&
      m[0].instruction.argType == (if op in {Nop, End} then NoArg else if op in {St, In} then AdrDst else Tar)
  {
    SpanExact(op);
    var lo := Span(op).0;
    assert m[0] == InstructionSet[lo];
    if |m| == 2 {
      assert m[1] == InstructionSet[lo + 1];
    }
  }
  /** Each of `ld`, `out`, `add`, `sub`, `mul`, `div`, `mod` and `cmp` has exactly
      one read-address entry followed by one value entry; every other operation
      has exactly one entry. */
  lemma MatchingShape(op: Operation)
    ensures op in {Ld, Out, Add, Sub, Mul, Div, Mod, Cmp} ==>
      |Matching(op)| == 2 && Matching(op)[0].instruction == Instruction(op, AdrSrc) && Matching(op)[1].instruction == Instruction(op, Val)
    ensures op !in {Ld, Out, Add, Sub, Mul, Div, Mod, Cmp} ==>
      |Matching(op)| == 1 && Matching(op)[0].instruction.operation == op &&
      Matching(op)[0].instruction.argType == (if op in {Nop, End} then NoArg else if op in {St, In} then AdrDst else Tar)
  {
    SpanShape(op, Matching(op));
  }

  /** The aliases `a`..`h` name the consecutive addresses 64..71. */
  lemma AliasesConsecutive()
    ensures |BuiltinAliases| == 8
    ensures forall i :: 0 <= i < 8 ==> ["abcdefgh"[i]] in BuiltinAliases && BuiltinAliases[["abcdefgh"[i]]] == 64 + i
  {
  }
}
