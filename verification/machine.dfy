/** The MOPS virtual machine (src/vm/mops_machine.ts, and its older callback
    version src/vm/vm.ts): a memory of range-checked words, the control
    registers `ip`, `ir_lo`, `ir_hi`, the execution registers `acc`, `opd`,
    `opr`, `cmp`, and a fetch-decode-operand-execute cycle that reports every
    register and memory access as an event.

    Every word the machine holds is a whole number here. A step whose result
    JavaScript would keep as a NaN or a fraction stops the model with
    `Unmodelled`; an infinity is refused by the word check, as in the source. */
module Machine {
  import opened Wrappers
  import P = Platform
  import Bytes

  /** The two versions of the machine: the generator, which yields its events
      and reports a failure with a `FailState` before passing it on, and the
      callback version, which hands its events to `callbacks.event`, calls
      `callbacks.halt` on `end` and lets failures propagate. */
  datatype Variant = Generator | Callbacks

  /** The register names events refer to. */
  datatype Register = Ip | IrLo | IrHi | Acc | Opd | Opr | Res | Cmp | In | Out

  /** The events of src/vm/mops_event.ts. The callback version's `halt` call is
      recorded as `Halt` in the same trace. */
  datatype Event =
    | Fetch(address: int, lo: int, hi: int)
    | MemoryRead(address: int, value: int)
    | MemoryWrite(address: int, value: int)
    | RegisterRead(target: Register, value: int)
    | RegisterWrite(target: Register, value: int)
    | Decode(instruction: Option<P.CodedInstruction>, argument: int)
    | FailState(message: string)
    | Halt

  /** What a step throws: a word check, a property read on `undefined` (a
      memory slot never written, an unknown opcode), or `read_memory`'s
      "Invalid Address!". */
  datatype Fault = Thrown(error: Bytes.ByteError) | Undefined | InvalidAddress

  /** How a step ended: it ran through, it threw, or JavaScript would carry on
      with something this model does not represent (a NaN, a fraction, or an
      input the environment does not supply). */
  datatype Status = Done | Threw(fault: Fault) | Unmodelled(reason: string)

  /** The whole machine: `memory.values` as a map (a negative index is a plain
      property of the array) with the array's `length`, the registers,
      `halted`, the environment's remaining input, the values given to
      `callbacks.output`, the events so far, and the instruction set that
      decoding searches (the platform's `InstructionSet`). */
  datatype MState = MState(
    memory: map<int, int>, length: int,
    ip: int, irLo: int, irHi: int, decoded: Option<P.CodedInstruction>, argCache: int,
    acc: int, opd: int, opr: int, cmp: int,
    halted: bool,
    input: seq<int>, output: seq<int>, trace: seq<Event>,
    table: seq<P.CodedInstruction>)

  /** A stage's new state and how it ended. */
  datatype Step = Step(s: MState, status: Status)

  /** How a run ended. */
  datatype Outcome = Halted | Failed(fault: Fault) | Stopped(reason: string) | OutOfFuel

  /** `new MopsByte(v)` for a whole number: the setter's verdict. */
  function Admit(v: int): (r: Status)
    ensures r == Done <==> Bytes.Check(Bytes.Finite(v as real)).None?
    ensures r != Done ==> r == Threw(Thrown(Bytes.Check(Bytes.Finite(v as real)).value))
  {
    Bytes.CheckInteger(v);
    if Bytes.InRange(v) then Done else Threw(Thrown(Bytes.OutOfRange))
  }

  /** What every live word has passed: memory and registers in range, the
      operator and comparison codes among their enums, and every written
      non-negative address below the array's length. */
  ghost predicate Valid(s: MState) {
    && ValidMemory(s.memory, s.length)
    && Bytes.InRange(s.ip) && Bytes.InRange(s.irLo) && Bytes.InRange(s.irHi) && Bytes.InRange(s.argCache)
    && Bytes.InRange(s.acc) && Bytes.InRange(s.opd)
    && P.OPR_NONE <= s.opr <= P.OPR_CMP && P.CMP_NONE <= s.cmp <= P.CMP_GT
  }

  /** Memory holds only words, and no written non-negative address lies past
      the array's length. */
  ghost predicate ValidMemory(memory: map<int, int>, length: int) {
    && (forall a :: a in memory ==> Bytes.InRange(memory[a]))
    && (forall a :: a in memory && a >= 0 ==> a < length)
    && length >= 0
  }

  // ---------------------------------------------------------------------------
  // Loading

  /** `assign_memory(values)`: the first `n` values stored at addresses 0..n-1,
      or the error of the first one the word check refuses (a missing value is
      `undefined`, hence "Null Byte!"). */
  function LoadPrefix(values: seq<Option<int>>, n: nat): Result<map<int, int>, Fault>
    requires n <= |values|
  {
    if n == 0 then Ok(map[])
    else
      match LoadPrefix(values, n - 1)
      case Err(e) => Err(e)
      case Ok(m) =>
        var v := values[n - 1];
        if v.None? then Err(Thrown(Bytes.NullByte))
        else if !Bytes.InRange(v.value) then Err(Thrown(Bytes.OutOfRange))
        else Ok(m[n - 1 := v.value])
  }

  /** Every value present and in range. */
  ghost predicate Loadable(values: seq<Option<int>>, n: int) {
    forall i :: 0 <= i < n && i < |values| ==> values[i].Some? && Bytes.InRange(values[i].value)
  }

  /** Loading succeeds exactly when every value is present and in range, and
      then memory holds value `i` at address `i` and nothing else; otherwise
      the error is that of the first bad value. */
  lemma {:induction false} LoadPrefixFacts(values: seq<Option<int>>, n: nat)
    requires n <= |values|
    ensures LoadPrefix(values, n).Ok? <==> Loadable(values, n)
    ensures LoadPrefix(values, n).Ok? ==>
      (forall a :: a in LoadPrefix(values, n).value <==> 0 <= a < n) &&
      (forall i :: 0 <= i < n ==> LoadPrefix(values, n).value[i] == values[i].value)
    ensures LoadPrefix(values, n).Err? ==>
      (exists i :: 0 <= i < n && Loadable(values, i) &&
         LoadPrefix(values, n).error == if values[i].None? then Thrown(Bytes.NullByte) else Thrown(Bytes.OutOfRange))
  {
    if n > 0 {
      LoadPrefixFacts(values, n - 1);
    }
  }

  /** Once a value is refused, loading more does not change the error. */
  lemma {:induction false} LoadPrefixStops(values: seq<Option<int>>, i: nat, n: nat)
    requires i <= n <= |values| && LoadPrefix(values, i).Err?
    ensures LoadPrefix(values, n) == LoadPrefix(values, i)
    decreases n
  {
    if n > i {
      LoadPrefixStops(values, i, n - 1);
    }
  }

  /** A machine just constructed over the loaded memory. */
  function Initial(memory: map<int, int>, length: int, input: seq<int>): MState {
    MState(memory, length, 0, 0, 0, None, 0, 0, 0, 0, 0, false, input, [], [], P.InstructionSet)
  }

  /** A loaded machine satisfies the word invariant. */
  lemma InitialValid(values: seq<Option<int>>, input: seq<int>)
    requires LoadPrefix(values, |values|).Ok?
    ensures Valid(Initial(LoadPrefix(values, |values|).value, |values|, input))
  {
    LoadPrefixFacts(values, |values|);
  }

  // ---------------------------------------------------------------------------
  // The stages of one cycle

  /** `fetch`: the opcode at `ip`, and the byte after it or 0 past memory. */
  function FetchSpec(s: MState): Step {
    if s.ip !in s.memory then Step(s, Threw(Undefined))
    else
      var lo := s.memory[s.ip];
      var hi := if s.ip + 1 in s.memory then s.memory[s.ip + 1] else 0;
      Step(s.(irLo := lo, irHi := hi,
              trace := s.trace + [Fetch(s.ip, lo, hi), RegisterWrite(IrLo, lo), RegisterWrite(IrHi, hi)]), Done)
  }

  /** `decode`, given what the instruction set holds for `ir_lo`: report it,
      then step `ip` over the instruction. */
  function DecodeWith(s: MState, instr: Option<P.CodedInstruction>): Step {
    var s1 := s.(decoded := instr, trace := s.trace + [Decode(instr, s.irHi)]);
    if instr.None? then Step(s1, Threw(Undefined))
    else
      var next := s.ip + P.Width(instr.value.instruction.argType);
      if !Bytes.InRange(next) then Step(s1, Admit(next))
      else Step(s1.(ip := next, trace := s1.trace + [RegisterWrite(Ip, next)]), Done)
  }

  /** `decode`: the first entry of the instruction set with opcode `ir_lo`. */
  function DecodeSpec(s: MState): Step {
    DecodeWith(s, P.FindOpcodeIn(s.table, s.irLo))
  }

  /** `fetch_operand`: an address source reads memory, any other argument kind
      takes the argument byte itself, and no argument keeps the cache. */
  function OperandSpec(s: MState): Step
    requires s.decoded.Some?
  {
    var kind := s.decoded.value.instruction.argType;
    if kind == P.AdrSrc then
      if s.irHi !in s.memory then Step(s, Threw(Undefined))
      else
        var v := s.memory[s.irHi];
        Step(s.(argCache := v, trace := s.trace + [MemoryRead(s.irHi, v)]), Done)
    else if kind != P.NoArg then Step(s.(argCache := s.irHi), Done)
    else Step(s, Done)
  }

  /** Writing a word to memory as a JavaScript array does: a new non-negative
      index past the end grows the length. */
  function Store(s: MState, address: int, v: int): MState {
    s.(memory := s.memory[address := v],
       length := if address >= s.length then address + 1 else s.length,
       trace := s.trace + [MemoryWrite(address, v)])
  }

  /** What JavaScript's arithmetic gives for two whole numbers. */
  datatype Value = Whole(n: int) | NotANumber | Fraction | Infinite

  function Abs(a: int): nat {
    if a < 0 then -a else a
  }

  /** `a % b` in JavaScript: the remainder takes the dividend's sign. */
  function JsRem(a: int, b: int): int
    requires b != 0
  {
    var r := Abs(a) % Abs(b);
    if a < 0 then -r else r
  }

  /** The quotient rounded toward zero. */
  function TruncDiv(a: int, b: int): int
    requires b != 0
  {
    var q := Abs(a) / Abs(b);
    if (a < 0) == (b < 0) then q else -q
  }

  /** The JavaScript remainder completes the quotient rounded toward zero, is
      smaller than the divisor in magnitude, and has the dividend's sign. */
  lemma JsRemFacts(a: int, b: int)
    requires b != 0
    ensures a == TruncDiv(a, b) * b + JsRem(a, b)
    ensures Abs(JsRem(a, b)) < Abs(b) && Abs(JsRem(a, b)) <= Abs(a)
    ensures a >= 0 ==> JsRem(a, b) >= 0
    ensures a < 0 ==> JsRem(a, b) <= 0
  {
    var q, r := Abs(a) / Abs(b), Abs(a) % Abs(b);
    Euclid(Abs(a), Abs(b));
    if b < 0 {
      Negated(q, Abs(b));
    }
  }

  /** Division of naturals leaves a remainder no larger than the dividend. */
  lemma Euclid(x: nat, y: nat)
    requires y > 0
    ensures x == (x / y) * y + x % y && 0 <= x % y < y && x % y <= x && x / y >= 0
  {
    assert (x / y) * y >= 0;
  }

  /** A product with a negated factor. */
  lemma Negated(q: int, y: int)
    ensures q * (-y) == -(q * y) && (-q) * (-y) == q * y
  {
  }

  /** `acc <operator> operand` as JavaScript computes it. */
  function Arith(operator: int, a: int, b: int): Value {
    if operator == P.OPR_ADD then Whole(a + b)
    else if operator == P.OPR_SUB then Whole(a - b)
    else if operator == P.OPR_MUL then Whole(a * b)
    else if operator == P.OPR_DIV then
      if b == 0 then (if a == 0 then NotANumber else Infinite)
      else if a % b == 0 then Whole(a / b)
      else Fraction
    else if b == 0 then NotANumber
    else Whole(JsRem(a, b))
  }

  /** A whole quotient is exact, and a remainder of two words is itself a word
      of the dividend's sign. */
  lemma ArithFacts(a: int, b: int)
    ensures Arith(P.OPR_DIV, a, b).Whole? ==> Arith(P.OPR_DIV, a, b).n * b == a
    ensures b != 0 ==> Arith(P.OPR_MOD, a, b).Whole?
    ensures b != 0 && Bytes.InRange(a) ==>
      var r := Arith(P.OPR_MOD, a, b).n;
      Bytes.InRange(r) && Abs(r) < Abs(b) && (a >= 0 ==> r >= 0) && (a < 0 ==> r <= 0)
  {
    if b != 0 {
      JsRemFacts(a, b);
    }
  }

  /** `exec_math`: `opr` and `opd` are written and reported first; the result is
      checked before `acc` changes. */
  function MathSpec(s: MState, operator: int, operand: int): Step {
    var s1 := s.(opr := operator, opd := operand,
                 trace := s.trace + [RegisterWrite(Opr, operator), RegisterWrite(Opd, operand)]);
    match Arith(operator, s.acc, operand)
    case Whole(r) =>
      if Bytes.InRange(r) then Step(s1.(acc := r, trace := s1.trace + [RegisterWrite(Res, r)]), Done)
      else Step(s1, Admit(r))
    case Infinite => Step(s1, Threw(Thrown(Bytes.OutOfRange)))
    case NotANumber => Step(s1, Unmodelled("NaN result"))
    case Fraction => Step(s1, Unmodelled("fractional quotient"))
  }

  /** The comparison code of `acc` against an operand. */
  function Compare(a: int, b: int): int {
    if a < b then P.CMP_LT else if a == b then P.CMP_EQ else P.CMP_GT
  }

  /** `exec_cmp`. The generator compares the words' values. The callback
      version compares the word objects themselves; for two distinct objects
      none of `<`, `==`, `>` holds and the `undefined` result throws "Null Byte!". */
  function CompareSpec(s: MState, v: Variant, operand: int): Step {
    var s1 := s.(opr := P.OPR_CMP, opd := operand,
                 trace := s.trace + [RegisterWrite(Opr, P.OPR_CMP), RegisterWrite(Opd, operand)]);
    if v == Callbacks then Step(s1, Threw(Thrown(Bytes.NullByte)))
    else
      var c := Compare(s.acc, operand);
      Step(s1.(cmp := c, trace := s1.trace + [RegisterWrite(Cmp, c)]), Done)
  }

  /** `exec_jmp`. */
  function JumpSpec(s: MState, target: int): MState {
    s.(ip := target, trace := s.trace + [RegisterWrite(Ip, target)])
  }

  /** `exec_branch`: report `cmp`, then jump when it is the condition. */
  function BranchSpec(s: MState, condition: int, target: int): MState {
    var s1 := s.(trace := s.trace + [RegisterRead(Cmp, s.cmp)]);
    if s.cmp == condition then JumpSpec(s1, target) else s1
  }

  /** `exec_in`: report the raw input, then check and store it. */
  function InSpec(s: MState, address: int): Step {
    if |s.input| == 0 then Step(s, Unmodelled("no input"))
    else
      var v := s.input[0];
      var s1 := s.(input := s.input[1..], trace := s.trace + [RegisterRead(In, v)]);
      if !Bytes.InRange(v) then Step(s1, Admit(v))
      else Step(Store(s1, address, v), Done)
  }

  /** `execute`: the decoded operation on the cached argument. */
  function ExecuteSpec(s: MState, v: Variant): Step
    requires s.decoded.Some?
  {
    var arg := s.argCache;
    match s.decoded.value.instruction.operation
    case Nop => Step(s, Done)
    case Ld => Step(s.(acc := arg, trace := s.trace + [RegisterWrite(Acc, arg)]), Done)
    case St => Step(Store(s.(trace := s.trace + [RegisterRead(Acc, s.acc)]), arg, s.acc), Done)
    case In => InSpec(s, arg)
    case Out => Step(s.(output := s.output + [arg], trace := s.trace + [RegisterWrite(Out, arg)]), Done)
    case Add => MathSpec(s, P.OPR_ADD, arg)
    case Sub => MathSpec(s, P.OPR_SUB, arg)
    case Mul => MathSpec(s, P.OPR_MUL, arg)
    case Div => MathSpec(s, P.OPR_DIV, arg)
    case Mod => MathSpec(s, P.OPR_MOD, arg)
    case Cmp => CompareSpec(s, v, arg)
    case Jmp => Step(JumpSpec(s, arg), Done)
    case Jlt => Step(BranchSpec(s, P.CMP_LT, arg), Done)
    case Jeq => Step(BranchSpec(s, P.CMP_EQ, arg), Done)
    case Jgt => Step(BranchSpec(s, P.CMP_GT, arg), Done)
    case End => Step(s.(halted := true, trace := s.trace + (if v == Callbacks then [Halt] else [])), Done)
  }

  /** Fetch, decode (with the given answer of the instruction set) and operand
      fetch, stopping at the first stage that does not run through. */
  function Prepare(s: MState, instr: Option<P.CodedInstruction>): (r: Step)
    ensures r.status == Done ==> r.s.decoded.Some?
  {
    var f := FetchSpec(s);
    if f.status != Done then f
    else
      var d := DecodeWith(f.s, instr);
      if d.status != Done then d
      else OperandSpec(d.s)
  }

  /** A cycle with the given answer of the instruction set. */
  function CycleWith(s: MState, v: Variant, instr: Option<P.CodedInstruction>): Step {
    var o := Prepare(s, instr);
    if o.status != Done then o else ExecuteSpec(o.s, v)
  }

  /** `cycle`: fetch, decode, fetch the operand and execute, stopping at the
      first stage that does not run through; the instruction set is consulted
      on the fetched opcode. */
  function CycleSpec(s: MState, v: Variant): Step {
    CycleWith(s, v, P.FindOpcodeIn(s.table, FetchSpec(s).s.irLo))
  }

  /** The `while (!halted)` loop of `run`, for at most `fuel` cycles. */
  function RunLoop(s: MState, v: Variant, fuel: nat): (MState, Outcome)
    decreases fuel, 0
  {
    if s.halted then
      (if v == Generator then s.(trace := s.trace + [Halt]) else s, Halted)
    else if fuel == 0 then (s, OutOfFuel)
    else Continue(CycleSpec(s, v), v, fuel - 1)
  }

  /** After a cycle: loop on when it ran through, otherwise end the run, the
      generator reporting a throw with a `FailState`. */
  function Continue(c: Step, v: Variant, fuel: nat): (MState, Outcome)
    decreases fuel, 1
  {
    match c.status
    case Done => RunLoop(c.s, v, fuel)
    case Unmodelled(r) => (c.s, Stopped(r))
    case Threw(f) =>
      (if v == Generator then c.s.(trace := c.s.trace + [FailState("Runtime Error!")]) else c.s, Failed(f))
  }

  /** `run`: clear `halted`, then loop. */
  function RunSpec(s: MState, v: Variant, fuel: nat): (MState, Outcome) {
    RunLoop(s.(halted := false), v, fuel)
  }

  // ---------------------------------------------------------------------------
  // Properties of the stages

  /** A fetch fails exactly when `ip` holds no word, and then before any event;
      otherwise `ir_lo` is the word at `ip`, `ir_hi` the next one or 0 past
      memory, and three events report them. */
  lemma FetchFacts(s: MState)
    ensures FetchSpec(s).status != Done <==> s.ip !in s.memory
    ensures FetchSpec(s).status != Done ==> FetchSpec(s) == Step(s, Threw(Undefined))
    ensures FetchSpec(s).status == Done ==>
      var r := FetchSpec(s).s;
      && r.irLo == s.memory[s.ip]
      && r.irHi == (if s.ip + 1 in s.memory then s.memory[s.ip + 1] else 0)
      && r.trace == s.trace + [Fetch(s.ip, r.irLo, r.irHi), RegisterWrite(IrLo, r.irLo), RegisterWrite(IrHi, r.irHi)]
      && r == s.(irLo := r.irLo, irHi := r.irHi, trace := r.trace)
  {
  }

  /** Decoding reports the instruction found (or `undefined`) first; it then
      fails for an unknown opcode or an `ip` step out of range, and otherwise
      moves `ip` past the instruction: one byte without an argument, two with. */
  lemma DecodeFacts(s: MState)
    ensures |DecodeSpec(s).s.trace| > |s.trace|
    ensures DecodeSpec(s).s.trace[|s.trace|] == Decode(P.FindOpcodeIn(s.table, s.irLo), s.irHi)
    ensures DecodeSpec(s).s.decoded == P.FindOpcodeIn(s.table, s.irLo)
    ensures P.FindOpcodeIn(s.table, s.irLo).None? ==> DecodeSpec(s).status == Threw(Undefined)
    ensures P.FindOpcodeIn(s.table, s.irLo).Some? ==>
      var next := s.ip + (if P.FindOpcodeIn(s.table, s.irLo).value.instruction.argType == P.NoArg then 1 else 2);
      (DecodeSpec(s).status == Done <==> Bytes.InRange(next))
    ensures P.FindOpcodeIn(s.table, s.irLo).Some? && DecodeSpec(s).status != Done ==>
      DecodeSpec(s).status == Threw(Thrown(Bytes.OutOfRange)) && DecodeSpec(s).s.ip == s.ip
    ensures P.FindOpcodeIn(s.table, s.irLo).Some? && DecodeSpec(s).status == Done ==>
      var next := s.ip + (if P.FindOpcodeIn(s.table, s.irLo).value.instruction.argType == P.NoArg then 1 else 2);
      DecodeSpec(s).s.ip == next &&
      DecodeSpec(s).s.trace == s.trace + [Decode(P.FindOpcodeIn(s.table, s.irLo), s.irHi), RegisterWrite(Ip, next)]
  {
  }

  /** An address source caches the word at `ir_hi` (and fails when there is
      none), any other argument kind caches `ir_hi`, and no argument leaves
      the cache alone. */
  lemma OperandFacts(s: MState)
    requires s.decoded.Some?
    ensures OperandSpec(s).status != Done <==> s.decoded.value.instruction.argType == P.AdrSrc && s.irHi !in s.memory
    ensures OperandSpec(s).status == Done && s.decoded.value.instruction.argType == P.AdrSrc ==>
      OperandSpec(s).s.argCache == s.memory[s.irHi] &&
      OperandSpec(s).s.trace == s.trace + [MemoryRead(s.irHi, s.memory[s.irHi])]
    ensures s.decoded.value.instruction.argType !in {P.AdrSrc, P.NoArg} ==>
      OperandSpec(s).s.argCache == s.irHi && OperandSpec(s).s.trace == s.trace
    ensures s.decoded.value.instruction.argType == P.NoArg ==> OperandSpec(s) == Step(s, Done)
  {
  }

  /** Arithmetic writes and reports `opr` and `opd` first; a result out of
      range throws after those two events with `acc` untouched; a result in
      range goes to `acc` and is reported as `res`. */
  lemma MathFacts(s: MState, operator: int, operand: int)
    ensures MathSpec(s, operator, operand).s.opr == operator
    ensures MathSpec(s, operator, operand).s.opd == operand
    ensures MathSpec(s, operator, operand).status == Done <==>
      Arith(operator, s.acc, operand).Whole? && Bytes.InRange(Arith(operator, s.acc, operand).n)
    ensures MathSpec(s, operator, operand).status == Done ==>
      var a := Arith(operator, s.acc, operand);
      a.Whole? && MathSpec(s, operator, operand).s.acc == a.n &&
      MathSpec(s, operator, operand).s.trace ==
        s.trace + [RegisterWrite(Opr, operator), RegisterWrite(Opd, operand), RegisterWrite(Res, a.n)]
    ensures MathSpec(s, operator, operand).status != Done ==>
      MathSpec(s, operator, operand).s.acc == s.acc &&
      MathSpec(s, operator, operand).s.trace == s.trace + [RegisterWrite(Opr, operator), RegisterWrite(Opd, operand)]
    ensures MathSpec(s, operator, operand).status.Threw? <==>
      var a := Arith(operator, s.acc, operand);
      (a.Whole? && !Bytes.InRange(a.n)) || a.Infinite?
  {
  }

  /** Division by zero throws for a non-zero dividend (the quotient is an
      infinity) and leaves the model for a zero one (a NaN), as does any
      remainder by zero. */
  lemma DivideByZero(s: MState)
    ensures s.acc != 0 ==> MathSpec(s, P.OPR_DIV, 0).status == Threw(Thrown(Bytes.OutOfRange))
    ensures s.acc == 0 ==> MathSpec(s, P.OPR_DIV, 0).status.Unmodelled?
    ensures MathSpec(s, P.OPR_MOD, 0).status.Unmodelled?
  {
  }

  /** The generator's `cmp` becomes 1, 2 or 3 exactly as `acc` is below, equal
      to or above the operand; the callback version throws and keeps `cmp`. */
  lemma CompareFacts(s: MState, v: Variant, operand: int)
    ensures CompareSpec(s, v, operand).s.opr == P.OPR_CMP
    ensures CompareSpec(s, v, operand).s.opd == operand
    ensures v == Callbacks ==>
      CompareSpec(s, v, operand).status == Threw(Thrown(Bytes.NullByte)) && CompareSpec(s, v, operand).s.cmp == s.cmp
    ensures v == Generator ==> CompareSpec(s, v, operand).status == Done
    ensures v == Generator ==> (CompareSpec(s, v, operand).s.cmp == P.CMP_LT <==> s.acc < operand)
    ensures v == Generator ==> (CompareSpec(s, v, operand).s.cmp == P.CMP_EQ <==> s.acc == operand)
    ensures v == Generator ==> (CompareSpec(s, v, operand).s.cmp == P.CMP_GT <==> s.acc > operand)
  {
  }

  /** A conditional jump always reports `cmp`, and moves `ip` to the target
      exactly when `cmp` is its condition; nothing else changes. */
  lemma BranchFacts(s: MState, condition: int, target: int)
    ensures BranchSpec(s, condition, target).trace[..|s.trace| + 1] == s.trace + [RegisterRead(Cmp, s.cmp)]
    ensures BranchSpec(s, condition, target).ip == if s.cmp == condition then target else s.ip
    ensures BranchSpec(s, condition, target) ==
      s.(ip := BranchSpec(s, condition, target).ip, trace := BranchSpec(s, condition, target).trace)
  {
    var t := s.trace + [RegisterRead(Cmp, s.cmp)];
    assert (t + [RegisterWrite(Ip, target)])[..|s.trace| + 1] == t;
  }

  /** `in` reports the raw input, then stores it only when it is in range, at
      the argument address. */
  lemma InFacts(s: MState, address: int)
    requires |s.input| > 0
    ensures InSpec(s, address).s.trace[|s.trace|] == RegisterRead(In, s.input[0])
    ensures InSpec(s, address).s.input == s.input[1..]
    ensures InSpec(s, address).status == Done <==> Bytes.InRange(s.input[0])
    ensures InSpec(s, address).status == Done ==> InSpec(s, address).s.memory == s.memory[address := s.input[0]]
    ensures InSpec(s, address).status != Done ==> InSpec(s, address).s.memory == s.memory
  {
  }

  // ---------------------------------------------------------------------------
  // The word invariant

  /** Fetch, decode and operand fetch keep every word in range, whether they
      run through or throw. */
  lemma PrepareValid(s: MState, instr: Option<P.CodedInstruction>)
    requires Valid(s)
    ensures Valid(Prepare(s, instr).s)
  {
    var f := FetchSpec(s);
    assert Valid(f.s);
    if f.status == Done {
      var d := DecodeWith(f.s, instr);
      assert Valid(d.s);
    }
  }

  /** Executing keeps every word in range: a result is checked before it is
      stored, and a comparison code is one of the enum's. */
  lemma ExecuteValid(s: MState, v: Variant)
    requires Valid(s) && s.decoded.Some?
    ensures Valid(ExecuteSpec(s, v).s)
  {
    match s.decoded.value.instruction.operation
    case Add | Sub | Mul | Div | Mod | Cmp => ArithmeticValid(s, v);
    case Nop | Ld | St | In | Out => TransferValid(s, v);
    case Jmp | Jlt | Jeq | Jgt | End => ControlValid(s, v);
  }

  /** The arithmetic and comparison arms of execute keep the state valid. */
  lemma ArithmeticValid(s: MState, v: Variant)
    requires Valid(s) && s.decoded.Some?
    requires s.decoded.value.instruction.operation in {P.Add, P.Sub, P.Mul, P.Div, P.Mod, P.Cmp}
    ensures Valid(ExecuteSpec(s, v).s)
  {
    var arg := s.argCache;
    match s.decoded.value.instruction.operation
    case Add => MathValid(s, P.OPR_ADD, arg);
    case Sub => MathValid(s, P.OPR_SUB, arg);
    case Mul => MathValid(s, P.OPR_MUL, arg);
    case Div => MathValid(s, P.OPR_DIV, arg);
    case Mod => MathValid(s, P.OPR_MOD, arg);
    case Cmp => CompareValid(s, v, arg);
  }

  /** The load, store and input/output arms of execute keep the state valid. */
  lemma TransferValid(s: MState, v: Variant)
    requires Valid(s) && s.decoded.Some?
    requires s.decoded.value.instruction.operation in {P.Nop, P.Ld, P.St, P.In, P.Out}
    ensures Valid(ExecuteSpec(s, v).s)
  {
    var arg := s.argCache;
    match s.decoded.value.instruction.operation
    case St => StoreValid(s.(trace := s.trace + [RegisterRead(Acc, s.acc)]), arg, s.acc);
    case In => InValid(s, arg);
    case _ =>
  }

  /** The jump and end arms of execute keep the state valid. */
  lemma ControlValid(s: MState, v: Variant)
    requires Valid(s) && s.decoded.Some?
    requires s.decoded.value.instruction.operation in {P.Jmp, P.Jlt, P.Jeq, P.Jgt, P.End}
    ensures Valid(ExecuteSpec(s, v).s)
  {
  }

  lemma StoreValid(s: MState, address: int, v: int)
    requires Valid(s) && Bytes.InRange(v)
    ensures Valid(Store(s, address, v))
  {
  }

  lemma InValid(s: MState, address: int)
    requires Valid(s)
    ensures Valid(InSpec(s, address).s)
  {
    if |s.input| > 0 && Bytes.InRange(s.input[0]) {
      StoreValid(s.(input := s.input[1..], trace := s.trace + [RegisterRead(In, s.input[0])]), address, s.input[0]);
    }
  }

  lemma MathValid(s: MState, operator: int, operand: int)
    requires Valid(s) && P.OPR_ADD <= operator <= P.OPR_MOD && Bytes.InRange(operand)
    ensures Valid(MathSpec(s, operator, operand).s)
  {
  }

  lemma CompareValid(s: MState, v: Variant, operand: int)
    requires Valid(s) && Bytes.InRange(operand)
    ensures Valid(CompareSpec(s, v, operand).s)
  {
  }

  /** Every cycle keeps every word in range. */
  lemma CycleValid(s: MState, v: Variant, instr: Option<P.CodedInstruction>)
    requires Valid(s)
    ensures Valid(CycleWith(s, v, instr).s)
  {
    PrepareValid(s, instr);
    var o := Prepare(s, instr);
    if o.status == Done {
      ExecuteValid(o.s, v);
    }
  }

  /** A whole run keeps every word in range. */
  lemma {:induction false} RunValid(s: MState, v: Variant, fuel: nat)
    requires Valid(s)
    ensures Valid(RunLoop(s, v, fuel).0)
    decreases fuel
  {
    if !s.halted && fuel > 0 {
      var c := CycleSpec(s, v);
      CycleValid(s, v, P.FindOpcodeIn(s.table, FetchSpec(s).s.irLo));
      if c.status == Done {
        RunValid(c.s, v, fuel - 1);
      }
    }
  }

  // ---------------------------------------------------------------------------
  // The shape of a run's trace

  /** The events that end a run's trace: `Halt` and `FailState`. */
  predicate Closing(e: Event) {
    e.Halt? || e.FailState?
  }

  /** No closing event at positions `from` to `to` - 1. */
  ghost predicate Quiet(t: seq<Event>, from: int, to: int) {
    forall k :: from <= k < to && 0 <= k < |t| ==> !Closing(t[k])
  }

  /** A run that ends with `Halt` or the generator's `FailState`. */
  predicate Closed(v: Variant, outcome: Outcome) {
    outcome == Halted || (v == Generator && outcome.Failed?)
  }

  /** A stage from `s` to `r` only appended events, none of them closing, and
      left `halted` alone. */
  ghost predicate Appends(s: MState, r: MState) {
    s.trace <= r.trace && Quiet(r.trace, |s.trace|, |r.trace|) && r.halted == s.halted
  }

  lemma AppendsEvents(s: MState, r: MState, added: seq<Event>)
    requires r.trace == s.trace + added && r.halted == s.halted
    requires forall k :: 0 <= k < |added| ==> !Closing(added[k])
    ensures Appends(s, r)
  {
    assert forall k :: |s.trace| <= k < |r.trace| ==> r.trace[k] == added[k - |s.trace|];
  }

  /** Quiet stretches next to each other make one, and stay quiet in any
      extension of the trace. */
  lemma QuietJoin(t: seq<Event>, u: seq<Event>, i: int, j: int, k: int)
    requires t <= u && i <= j <= |t| && Quiet(t, i, j) && Quiet(u, j, k)
    ensures Quiet(u, i, k)
  {
    forall m | i <= m < j && 0 <= m < |u|
      ensures !Closing(u[m])
    {
      assert u[m] == t[m];
    }
  }

  lemma AppendsTransitive(s: MState, m: MState, r: MState)
    requires Appends(s, m) && Appends(m, r)
    ensures Appends(s, r)
  {
    QuietJoin(m.trace, r.trace, |s.trace|, |m.trace|, |r.trace|);
  }

  /** Fetch, decode and operand fetch only append events, none of them closing,
      and leave `halted` alone. */
  lemma PrepareTrace(s: MState, instr: Option<P.CodedInstruction>)
    ensures Appends(s, Prepare(s, instr).s)
  {
    var f := FetchSpec(s);
    if f.status == Done {
      AppendsEvents(s, f.s, [Fetch(s.ip, f.s.irLo, f.s.irHi), RegisterWrite(IrLo, f.s.irLo), RegisterWrite(IrHi, f.s.irHi)]);
      var d := DecodeWith(f.s, instr);
      var d1 := f.s.(decoded := instr, trace := f.s.trace + [Decode(instr, f.s.irHi)]);
      AppendsEvents(f.s, d1, [Decode(instr, f.s.irHi)]);
      if d.status == Done {
        AppendsEvents(d1, d.s, [RegisterWrite(Ip, d.s.ip)]);
        AppendsTransitive(f.s, d1, d.s);
        var o := OperandSpec(d.s);
        if o.status == Done && d.s.decoded.value.instruction.argType == P.AdrSrc {
          AppendsEvents(d.s, o.s, [MemoryRead(d.s.irHi, o.s.argCache)]);
        }
        AppendsTransitive(f.s, d.s, o.s);
        AppendsTransitive(s, f.s, o.s);
      } else {
        AppendsTransitive(s, f.s, d1);
      }
    }
  }

  lemma MathAppends(s: MState, operator: int, operand: int)
    ensures Appends(s, MathSpec(s, operator, operand).s)
  {
    var r := MathSpec(s, operator, operand).s;
    var s1 := s.(opr := operator, opd := operand,
                 trace := s.trace + [RegisterWrite(Opr, operator), RegisterWrite(Opd, operand)]);
    AppendsEvents(s, s1, [RegisterWrite(Opr, operator), RegisterWrite(Opd, operand)]);
    if r != s1 {
      AppendsEvents(s1, r, [RegisterWrite(Res, r.acc)]);
      AppendsTransitive(s, s1, r);
    }
  }

  lemma CompareAppends(s: MState, v: Variant, operand: int)
    ensures Appends(s, CompareSpec(s, v, operand).s)
  {
    var r := CompareSpec(s, v, operand).s;
    var s1 := s.(opr := P.OPR_CMP, opd := operand,
                 trace := s.trace + [RegisterWrite(Opr, P.OPR_CMP), RegisterWrite(Opd, operand)]);
    AppendsEvents(s, s1, [RegisterWrite(Opr, P.OPR_CMP), RegisterWrite(Opd, operand)]);
    if v == Generator {
      AppendsEvents(s1, r, [RegisterWrite(Cmp, r.cmp)]);
      AppendsTransitive(s, s1, r);
    }
  }

  lemma BranchAppends(s: MState, condition: int, target: int)
    ensures Appends(s, BranchSpec(s, condition, target))
  {
    var s1 := s.(trace := s.trace + [RegisterRead(Cmp, s.cmp)]);
    AppendsEvents(s, s1, [RegisterRead(Cmp, s.cmp)]);
    if s.cmp == condition {
      AppendsEvents(s1, JumpSpec(s1, target), [RegisterWrite(Ip, target)]);
      AppendsTransitive(s, s1, JumpSpec(s1, target));
    }
  }

  lemma InAppends(s: MState, address: int)
    ensures Appends(s, InSpec(s, address).s)
  {
    if |s.input| > 0 {
      var v := s.input[0];
      var s1 := s.(input := s.input[1..], trace := s.trace + [RegisterRead(In, v)]);
      AppendsEvents(s, s1, [RegisterRead(In, v)]);
      if Bytes.InRange(v) {
        AppendsEvents(s1, Store(s1, address, v), [MemoryWrite(address, v)]);
        AppendsTransitive(s, s1, Store(s1, address, v));
      }
    }
  }

  /** Executing only appends events, none of them closing, except at `end`:
      that sets `halted` and appends the callback version's `Halt`. */
  lemma ExecuteTrace(s: MState, v: Variant)
    requires s.decoded.Some?
    ensures s.decoded.value.instruction.operation != P.End ==> Appends(s, ExecuteSpec(s, v).s)
    ensures s.decoded.value.instruction.operation == P.End ==>
      ExecuteSpec(s, v) == Step(s.(halted := true, trace := s.trace + (if v == Callbacks then [Halt] else [])), Done)
  {
    var arg := s.argCache;
    var r := ExecuteSpec(s, v).s;
    match s.decoded.value.instruction.operation
    case Nop => AppendsEvents(s, r, []);
    case Ld => AppendsEvents(s, r, [RegisterWrite(Acc, arg)]);
    case St =>
      var s1 := s.(trace := s.trace + [RegisterRead(Acc, s.acc)]);
      AppendsEvents(s, s1, [RegisterRead(Acc, s.acc)]);
      AppendsEvents(s1, r, [MemoryWrite(arg, s.acc)]);
      AppendsTransitive(s, s1, r);
    case In => InAppends(s, arg);
    case Out => AppendsEvents(s, r, [RegisterWrite(Out, arg)]);
    case Add => MathAppends(s, P.OPR_ADD, arg);
    case Sub => MathAppends(s, P.OPR_SUB, arg);
    case Mul => MathAppends(s, P.OPR_MUL, arg);
    case Div => MathAppends(s, P.OPR_DIV, arg);
    case Mod => MathAppends(s, P.OPR_MOD, arg);
    case Cmp => CompareAppends(s, v, arg);
    case Jmp => AppendsEvents(s, r, [RegisterWrite(Ip, arg)]);
    case Jlt => BranchAppends(s, P.CMP_LT, arg);
    case Jeq => BranchAppends(s, P.CMP_EQ, arg);
    case Jgt => BranchAppends(s, P.CMP_GT, arg);
    case End =>
  }

  /** A cycle from trace `t` to `c` only appended events. It appended no
      closing event unless it halted the callback version, and then its last
      event is `Halt`; only a cycle that ran through halts. */
  ghost predicate CycleShape(t: seq<Event>, c: Step, v: Variant) {
    && t <= c.s.trace
    && (c.s.halted ==> c.status == Done)
    && (c.s.halted && v == Callbacks ==>
          |c.s.trace| > |t| && c.s.trace[|c.s.trace| - 1] == Halt && Quiet(c.s.trace, |t|, |c.s.trace| - 1))
    && (!(c.s.halted && v == Callbacks) ==> Quiet(c.s.trace, |t|, |c.s.trace|))
  }

  /** Every cycle has that shape. */
  lemma CycleTrace(s: MState, v: Variant, instr: Option<P.CodedInstruction>)
    requires !s.halted
    ensures CycleShape(s.trace, CycleWith(s, v, instr), v)
  {
    PrepareTrace(s, instr);
    var o := Prepare(s, instr);
    if o.status == Done {
      ExecuteTrace(o.s, v);
      var c := ExecuteSpec(o.s, v);
      if o.s.decoded.value.instruction.operation == P.End {
        QuietJoin(o.s.trace, c.s.trace, |s.trace|, |o.s.trace|, |o.s.trace|);
      } else {
        AppendsTransitive(s, o.s, c.s);
      }
    }
  }

  /** The trace `u` of a run from trace `t` that ended with `outcome`: it
      extends `t`; when the run ends with `Halt`, or with the generator's
      `FailState`, that event is the last one and no closing event comes
      before it; any other run appends no closing event at all. */
  ghost predicate RunShape(t: seq<Event>, u: seq<Event>, v: Variant, outcome: Outcome) {
    && t <= u
    && (Closed(v, outcome) ==>
          && |u| > |t| && Quiet(u, |t|, |u| - 1)
          && u[|u| - 1] == if outcome == Halted then Halt else FailState("Runtime Error!"))
    && (!Closed(v, outcome) ==> Quiet(u, |t|, |u|))
  }

  /** Quiet events before a run keep the run's shape. */
  lemma ShapeJoin(t: seq<Event>, m: seq<Event>, u: seq<Event>, v: Variant, outcome: Outcome)
    requires t <= m && Quiet(m, |t|, |m|) && RunShape(m, u, v, outcome)
    ensures RunShape(t, u, v, outcome)
  {
    if Closed(v, outcome) {
      QuietJoin(m, u, |t|, |m|, |u| - 1);
    } else {
      QuietJoin(m, u, |t|, |m|, |u|);
    }
  }

  /** A closing event after quiet ones gives a closed run's shape. */
  lemma ShapeClose(t: seq<Event>, m: seq<Event>, v: Variant, outcome: Outcome)
    requires t <= m && Quiet(m, |t|, |m|) && Closed(v, outcome)
    ensures RunShape(t, m + [if outcome == Halted then Halt else FailState("Runtime Error!")], v, outcome)
  {
    var u := m + [if outcome == Halted then Halt else FailState("Runtime Error!")];
    assert forall k :: 0 <= k < |m| ==> u[k] == m[k];
  }

  /** What the shape says of the run's last event. */
  lemma ShapeFacts(t: seq<Event>, u: seq<Event>, v: Variant, outcome: Outcome)
    requires RunShape(t, u, v, outcome)
    ensures outcome == Halted <==> |u| > |t| && u[|u| - 1] == Halt
    ensures v == Generator ==> (outcome.Failed? <==> |u| > |t| && u[|u| - 1] == FailState("Runtime Error!"))
    ensures v == Callbacks ==> forall k :: |t| <= k < |u| ==> !u[k].FailState?
    ensures Quiet(u, |t|, |u| - 1)
  {
  }

  /** Every run has that shape. */
  lemma {:induction false} RunTrace(s: MState, v: Variant, fuel: nat)
    requires !s.halted
    ensures RunShape(s.trace, RunLoop(s, v, fuel).0.trace, v, RunLoop(s, v, fuel).1)
    decreases fuel, 0
  {
    if fuel > 0 {
      var instr := P.FindOpcodeIn(s.table, FetchSpec(s).s.irLo);
      CycleTrace(s, v, instr);
      ContinueTrace(s.trace, CycleSpec(s, v), v, fuel - 1);
    }
  }

  /** And so does every run after a cycle of that shape. */
  lemma {:induction false} ContinueTrace(t: seq<Event>, c: Step, v: Variant, fuel: nat)
    requires CycleShape(t, c, v)
    ensures RunShape(t, Continue(c, v, fuel).0.trace, v, Continue(c, v, fuel).1)
    decreases fuel, 1
  {
    if c.status == Done && !c.s.halted {
      RunTrace(c.s, v, fuel);
      var (r, outcome) := RunLoop(c.s, v, fuel);
      ShapeJoin(t, c.s.trace, r.trace, v, outcome);
    } else if c.status == Done {
      if v == Generator {
        ShapeClose(t, c.s.trace, v, Halted);
      }
    } else if c.status.Threw? && v == Generator {
      ShapeClose(t, c.s.trace, v, Failed(c.status.fault));
    }
  }

  /** So a run's trace holds at most one closing event, as its very last: `Halt`
      exactly when the run halts, the generator's `FailState` exactly when it
      fails, and never a `FailState` from the callback version. */
  lemma RunEndsOnce(s: MState, v: Variant, fuel: nat)
    ensures var (r, outcome) := RunSpec(s, v, fuel);
      && (outcome == Halted <==> |r.trace| > |s.trace| && r.trace[|r.trace| - 1] == Halt)
      && (v == Generator ==> (outcome.Failed? <==> |r.trace| > |s.trace| && r.trace[|r.trace| - 1] == FailState("Runtime Error!")))
      && (v == Callbacks ==> forall k :: |s.trace| <= k < |r.trace| ==> !r.trace[k].FailState?)
      && Quiet(r.trace, |s.trace|, |r.trace| - 1)
  {
    RunTrace(s.(halted := false), v, fuel);
    var (r, outcome) := RunSpec(s, v, fuel);
    ShapeFacts(s.trace, r.trace, v, outcome);
  }
  // ---------------------------------------------------------------------------
  // The two versions

  /** Outside `cmp` and `end` the two versions execute alike; at `end` the
      callback version adds its `halt` call; at `cmp` only the callback
      version throws. */
  lemma ExecuteAgree(s: MState)
    requires s.decoded.Some?
    ensures s.decoded.value.instruction.operation !in {P.Cmp, P.End} ==>
      ExecuteSpec(s, Generator) == ExecuteSpec(s, Callbacks)
    ensures s.decoded.value.instruction.operation == P.End ==>
      ExecuteSpec(s, Callbacks) == Step(ExecuteSpec(s, Generator).s.(trace := s.trace + [Halt]), Done)
    ensures s.decoded.value.instruction.operation == P.Cmp ==>
      ExecuteSpec(s, Generator).status == Done && ExecuteSpec(s, Callbacks).status.Threw?
  {
  }

  /** The same holds for a whole cycle, whatever instruction is decoded. */
  lemma VariantsAgree(s: MState, instr: Option<P.CodedInstruction>)
    ensures instr.None? || instr.value.instruction.operation !in {P.Cmp, P.End} ==>
      CycleWith(s, Generator, instr) == CycleWith(s, Callbacks, instr)
    ensures instr.Some? && instr.value.instruction.operation == P.End && Prepare(s, instr).status == Done ==>
      CycleWith(s, Callbacks, instr) == Step(CycleWith(s, Generator, instr).s.(trace := CycleWith(s, Generator, instr).s.trace + [Halt]), CycleWith(s, Generator, instr).status)
    ensures instr.Some? && instr.value.instruction.operation == P.Cmp && Prepare(s, instr).status == Done ==>
      CycleWith(s, Generator, instr).status == Done && CycleWith(s, Callbacks, instr).status.Threw?
  {
    var o := Prepare(s, instr);
    if o.status == Done {
      ExecuteAgree(o.s);
    }
  }

  // ---------------------------------------------------------------------------
  // The machine object

  class MopsMachine {
    const variant: Variant
    const table: seq<P.CodedInstruction>
    var memory: map<int, int>
    var length: int
    var ip: int
    var irLo: int
    var irHi: int
    var decoded: Option<P.CodedInstruction>
    /** `arg_cache`: `undefined` until the first instruction with an argument,
        and read only by instructions with an argument. */
    var argCache: int
    var acc: int
    var opd: int
    var opr: int
    var cmp: int
    var halted: bool
    var input: seq<int>
    var output: seq<int>
    var trace: seq<Event>

    function State(): MState
      reads this
    {
      MState(memory, length, ip, irLo, irHi, decoded, argCache, acc, opd, opr, cmp, halted, input, output, trace, table)
    }

    /** The fields before `assign_memory`: empty memory, zero registers. */
    constructor Blank(variant: Variant, input: seq<int>)
      ensures this.variant == variant && State() == Initial(map[], 0, input)
    {
      this.variant := variant;
      table := P.InstructionSet;
      memory := map[];
      length := 0;
      ip, irLo, irHi, decoded, argCache := 0, 0, 0, None, 0;
      acc, opd, opr, cmp := 0, 0, 0, 0;
      halted := false;
      this.input := input;
      output, trace := [], [];
    }

    /** `new MopsMachine(values, callbacks)`: each value through the word check
        into address 0, 1, ...; the first refused value is the error thrown. */
    static method New(values: seq<Option<int>>, variant: Variant, input: seq<int>) returns (r: Result<MopsMachine, Fault>)
      ensures r.Err? <==> LoadPrefix(values, |values|).Err?
      ensures r.Err? ==> r.error == LoadPrefix(values, |values|).error
      ensures r.Ok? ==>
        fresh(r.value) && r.value.variant == variant &&
        r.value.State() == Initial(LoadPrefix(values, |values|).value, |values|, input)
    {
      var m := new MopsMachine.Blank(variant, input);
      var i := 0;
      while i < |values|
        invariant 0 <= i <= |values|
        invariant LoadPrefix(values, i).Ok?
        invariant m.variant == variant
        invariant m.State() == Initial(LoadPrefix(values, i).value, i, input)
        modifies m
      {
        // The address `i` is exactly the array's length here, so the source's
        // address check never throws.
        assert !(i < 0 || i > m.length);
        var v := values[i];
        if v.None? || !Bytes.InRange(v.value) {
          LoadPrefixStops(values, i + 1, |values|);
          return Err(if v.None? then Thrown(Bytes.NullByte) else Thrown(Bytes.OutOfRange));
        }
        m.memory := m.memory[i := v.value];
        m.length := i + 1;
        i := i + 1;
      }
      return Ok(m);
    }

    /** `read_memory`: a negative address or one past the length is refused;
        a slot never written is `undefined`, whose `value` throws. */
    method ReadMemory(i: int) returns (r: Result<int, Fault>)
      ensures r.Err? <==> i < 0 || i > length || i !in memory
      ensures (i < 0 || i > length) ==> r == Err(InvalidAddress)
      ensures r.Ok? ==> r.value == memory[i]
    {
      if i < 0 || i > length {
        return Err(InvalidAddress);
      }
      if i !in memory {
        return Err(Undefined);
      }
      return Ok(memory[i]);
    }

    method Fetch() returns (status: Status)
      modifies this
      ensures Step(State(), status) == FetchSpec(old(State()))
    {
      if ip !in memory {
        return Threw(Undefined);
      }
      var lo := memory[ip];
      var hi := if ip + 1 in memory then memory[ip + 1] else 0;
      trace := trace + [Event.Fetch(ip, lo, hi)];
      irLo := lo;
      trace := trace + [RegisterWrite(IrLo, lo)];
      irHi := hi;
      trace := trace + [RegisterWrite(IrHi, hi)];
      return Done;
    }

    method Decode() returns (status: Status)
      modifies this
      ensures Step(State(), status) == DecodeSpec(old(State()))
    {
      var instr := P.FindOpcodeIn(table, irLo);
      decoded := instr;
      trace := trace + [Event.Decode(instr, irHi)];
      if instr.None? {
        return Threw(Undefined);
      }
      var next := ip + P.Width(instr.value.instruction.argType);
      if !Bytes.InRange(next) {
        return Admit(next);
      }
      ip := next;
      trace := trace + [RegisterWrite(Ip, next)];
      return Done;
    }

    method FetchOperand() returns (status: Status)
      requires decoded.Some?
      modifies this
      ensures Step(State(), status) == OperandSpec(old(State()))
    {
      var kind := decoded.value.instruction.argType;
      if kind == P.AdrSrc {
        if irHi !in memory {
          return Threw(Undefined);
        }
        var v := memory[irHi];
        trace := trace + [MemoryRead(irHi, v)];
        argCache := v;
      } else if kind != P.NoArg {
        argCache := irHi;
      }
      return Done;
    }

    method ExecLd(v: int)
      modifies this
      ensures State() == old(State()).(acc := v, trace := old(State()).trace + [RegisterWrite(Acc, v)])
    {
      acc := v;
      trace := trace + [RegisterWrite(Acc, v)];
    }

    method ExecSt(address: int)
      modifies this
      ensures State() == Store(old(State()).(trace := old(State()).trace + [RegisterRead(Acc, old(State()).acc)]), address, old(State()).acc)
    {
      var v := acc;
      trace := trace + [RegisterRead(Acc, v)];
      WriteMemory(address, v);
    }

    /** An assignment to `memory.values[address]`. */
    method WriteMemory(address: int, v: int)
      modifies this
      ensures State() == Store(old(State()), address, v)
    {
      memory := memory[address := v];
      if address >= length {
        length := address + 1;
      }
      trace := trace + [MemoryWrite(address, v)];
    }

    method ExecIn(address: int) returns (status: Status)
      modifies this
      ensures Step(State(), status) == InSpec(old(State()), address)
    {
      if |input| == 0 {
        return Unmodelled("no input");
      }
      var v := input[0];
      input := input[1..];
      trace := trace + [RegisterRead(In, v)];
      if !Bytes.InRange(v) {
        return Admit(v);
      }
      WriteMemory(address, v);
      return Done;
    }

    method ExecOut(v: int)
      modifies this
      ensures State() == old(State()).(output := old(State()).output + [v], trace := old(State()).trace + [RegisterWrite(Out, v)])
    {
      output := output + [v];
      trace := trace + [RegisterWrite(Out, v)];
    }

    method ExecMath(operator: int, operand: int) returns (status: Status)
      modifies this
      ensures Step(State(), status) == MathSpec(old(State()), operator, operand)
    {
      opr := operator;
      trace := trace + [RegisterWrite(Opr, operator)];
      opd := operand;
      trace := trace + [RegisterWrite(Opd, operand)];
      match Arith(operator, acc, operand)
      case Whole(n) =>
        if !Bytes.InRange(n) {
          return Admit(n);
        }
        acc := n;
        trace := trace + [RegisterWrite(Res, n)];
        return Done;
      case Infinite =>
        return Threw(Thrown(Bytes.OutOfRange));
      case NotANumber =>
        return Unmodelled("NaN result");
      case Fraction =>
        return Unmodelled("fractional quotient");
    }

    method ExecCmp(operand: int) returns (status: Status)
      modifies this
      ensures Step(State(), status) == CompareSpec(old(State()), variant, operand)
    {
      opr := P.OPR_CMP;
      trace := trace + [RegisterWrite(Opr, P.OPR_CMP)];
      opd := operand;
      trace := trace + [RegisterWrite(Opd, operand)];
      if variant == Callbacks {
        return Threw(Thrown(Bytes.NullByte));
      }
      var c := Compare(acc, opd);
      cmp := c;
      trace := trace + [RegisterWrite(Cmp, c)];
      return Done;
    }

    method ExecJmp(target: int)
      modifies this
      ensures State() == JumpSpec(old(State()), target)
    {
      ip := target;
      trace := trace + [RegisterWrite(Ip, target)];
    }

    method ExecBranch(condition: int, target: int)
      modifies this
      ensures State() == BranchSpec(old(State()), condition, target)
    {
      var c := cmp;
      trace := trace + [RegisterRead(Cmp, c)];
      if c == condition {
        ExecJmp(target);
      }
    }

    method ExecEnd()
      modifies this
      ensures State() == old(State()).(halted := true, trace := old(State()).trace + (if variant == Callbacks then [Halt] else []))
    {
      halted := true;
      if variant == Callbacks {
        trace := trace + [Halt];
      }
    }

    method Execute() returns (status: Status)
      requires decoded.Some?
      modifies this
      ensures Step(State(), status) == ExecuteSpec(old(State()), variant)
    {
      var arg := argCache;
      status := Done;
      match decoded.value.instruction.operation
      case Nop =>
      case Ld => ExecLd(arg);
      case St => ExecSt(arg);
      case In => status := ExecIn(arg);
      case Out => ExecOut(arg);
      case Add => status := ExecMath(P.OPR_ADD, arg);
      case Sub => status := ExecMath(P.OPR_SUB, arg);
      case Mul => status := ExecMath(P.OPR_MUL, arg);
      case Div => status := ExecMath(P.OPR_DIV, arg);
      case Mod => status := ExecMath(P.OPR_MOD, arg);
      case Cmp => status := ExecCmp(arg);
      case Jmp => ExecJmp(arg);
      case Jlt => ExecBranch(P.CMP_LT, arg);
      case Jeq => ExecBranch(P.CMP_EQ, arg);
      case Jgt => ExecBranch(P.CMP_GT, arg);
      case End => ExecEnd();
    }

    method Cycle() returns (status: Status)
      modifies this
      ensures Step(State(), status) == CycleSpec(old(State()), variant)
    {
      ghost var instr := P.FindOpcodeIn(table, FetchSpec(State()).s.irLo);
      ghost var f := FetchSpec(State());
      status := Fetch();
      if status != Done {
        return;
      }
      assert State() == f.s;
      status := Decode();
      assert Step(State(), status) == DecodeWith(f.s, instr);
      if status != Done {
        return;
      }
      status := FetchOperand();
      if status != Done {
        return;
      }
      status := Execute();
    }

    /** One pass of `run`'s loop: a cycle, and on a throw the generator's
        `FailState`. What is left of the run is what `RunLoop` says. */
    method RunCycle(ghost left: nat) returns (status: Status)
      requires !halted && left > 0
      modifies this
      ensures status == Done ==> RunLoop(old(State()), variant, left) == RunLoop(State(), variant, left - 1)
      ensures status.Unmodelled? ==> RunLoop(old(State()), variant, left) == (State(), Stopped(status.reason))
      ensures status.Threw? ==> RunLoop(old(State()), variant, left) == (State(), Failed(status.fault))
    {
      status := Cycle();
      if status.Threw? && variant == Generator {
        trace := trace + [FailState("Runtime Error!")];
      }
    }

    /** `run`, for at most `fuel` cycles. */
    method Run(fuel: nat) returns (outcome: Outcome)
      modifies this
      ensures (State(), outcome) == RunSpec(old(State()), variant, fuel)
    {
      halted := false;
      var left := fuel;
      while !halted && left > 0
        invariant RunLoop(State(), variant, left) == RunSpec(old(State()), variant, fuel)
        decreases left
      {
        var status := RunCycle(left);
        if status.Unmodelled? {
          return Stopped(status.reason);
        }
        if status.Threw? {
          return Failed(status.fault);
        }
        left := left - 1;
      }
      if !halted {
        return OutOfFuel;
      }
      if variant == Generator {
        trace := trace + [Halt];
      }
      return Halted;
    }
  }
}
