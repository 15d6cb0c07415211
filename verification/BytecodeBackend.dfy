/** Lowering of labelled IR to bytecode: labels are resolved in a first pass and erased in a second.

    The meaning of the plain opcodes is a parameter. The IR machine jumps to labels by name and walks
    over LABEL instructions; the bytecode machine only knows addresses. A tag defined more than once
    means its last definition to both. */
module BytecodeBackend {
  import opened Options

  /** An argument as the back end sees it: a constant with its `str` and `repr` forms. */
  datatype Arg = Arg(constant: int, text: string, repr: string)

  datatype PlainOp =
    | HALT | PUSH | STORE | STORE_KEEP | STORE_AUTO | LOAD | ADD | SUB | MUL | DIV | COMPARE | PRINT | PRINTN
    | CALL | RETURN | ARG | SHOW_PREC | STOP | WAIT | SAVE_VAL | LOAD_F | LIST_PUT | BOOL_AND | BOOL_OR | BOOL_NOT
    | SYSCALL | POP | GETITEM | LEN | BUILD_LIST | BUILD_MAP | RANDOM | SEED | GLOBAL_SEED | MOD | POW_OP | IMPORT

  datatype IROp = LABEL | JUMP | JUMP_IF_FALSE | Plain(op: PlainOp) | Unsupported(name: string)

  datatype IRInstruction = IRInstruction(op: IROp, args: seq<Arg>, line: int, col: int)

  datatype IRFunction = IRFunction(entryLabel: string, params: seq<string>, kind: string)

  datatype IRProgram = IRProgram(
    instructions: seq<IRInstruction>,
    functions: map<string, IRFunction>,
    events: map<string, IRFunction>)

  datatype Bytecode = Jump(target: nat) | JumpIfFalse(target: nat) | Operation(op: PlainOp, args: seq<Arg>)

  datatype Entry = Entry(address: nat, paramCount: nat, params: seq<string>, kind: string)

  datatype Span = Span(line: int, col: int, endLine: int, endCol: int, hint: string, irIndex: nat)

  datatype Bundle = Bundle(
    code: seq<Bytecode>,
    spans: seq<Span>,
    functions: map<string, Entry>,
    events: map<string, Entry>)

  datatype Error = MissingArgument | UnknownLabel | UnsupportedOpcode

  datatype Result<T> = Ok(value: T) | Err(error: Error)

  /** How many arguments the emitter of an opcode keeps. */
  function Arity(op: PlainOp): nat {
    match op
    case PUSH => 1 case STORE => 1 case STORE_KEEP => 1 case STORE_AUTO => 1 case LOAD => 1 case COMPARE => 1
    case PRINTN => 1 case ARG => 1 case LOAD_F => 1 case SYSCALL => 1 case BUILD_LIST => 1 case BUILD_MAP => 1
    case CALL => 2 case IMPORT => 2
    case _ => 0
  }

  const TWO_ARGUMENTS: set<PlainOp> := {CALL, IMPORT}
  const ONE_ARGUMENT: set<PlainOp> :=
    {PUSH, STORE, STORE_KEEP, STORE_AUTO, LOAD, COMPARE, PRINTN, ARG, LOAD_F, SYSCALL, BUILD_LIST, BUILD_MAP}

  /** What an opcode takes of the arguments in an IR instruction: a name, a count or a constant, a name
      and a count, or nothing. */
  function Used(op: PlainOp, args: seq<Arg>): seq<Arg> {
    if op in TWO_ARGUMENTS && |args| >= 2 then [args[0], args[1]]
    else if op in ONE_ARGUMENT && |args| >= 1 then [args[0]]
    else []
  }

  /** An instruction that carries what its opcode takes, and nothing else. */
  predicate CarriesWhatItUses(i: IRInstruction) {
    i.op.Plain? ==> |i.args| == if i.op.op in TWO_ARGUMENTS then 2 else if i.op.op in ONE_ARGUMENT then 1 else 0
  }

  lemma UsedAreKept(op: PlainOp, args: seq<Arg>)
    requires |args| >= Arity(op)
    ensures args[..Arity(op)] == Used(op, args)
  {
  }

  /** Such an instruction is lowered if its opcode is plain, and keeps its whole argument list. */
  lemma ArgumentsAreKept(ins: seq<IRInstruction>, i: IRInstruction)
    requires i.op.Plain? && CarriesWhatItUses(i)
    ensures Emittable(ins, i) && Emitted(ins, i) == Operation(i.op.op, i.args)
    ensures Used(i.op.op, i.args) == i.args
  {
    assert i.args[..|i.args|] == i.args;
  }

  /** With fewer arguments than its opcode takes it is refused. */
  lemma MissingArgumentsAreRefused(ins: seq<IRInstruction>, i: IRInstruction)
    requires i.op.Plain?
    ensures Emittable(ins, i) <==>
            (i.op.op in TWO_ARGUMENTS ==> |i.args| >= 2) && (i.op.op in ONE_ARGUMENT ==> |i.args| >= 1)
  {
  }

  // ----- positions -----

  /** How many instructions before `i` are emitted. */
  function PcOf(ins: seq<IRInstruction>, i: nat): (pc: nat)
    requires i <= |ins|
    ensures pc <= i
  {
    if i == 0 then 0 else PcOf(ins, i - 1) + if ins[i - 1].op == LABEL then 0 else 1
  }

  predicate Defines(ins: IRInstruction, tag: string) {
    ins.op == LABEL && ins.args != [] && ins.args[0].text == tag
  }

  /** The last definition of a label among the first `n` instructions. */
  function LabelIndex(ins: seq<IRInstruction>, n: nat, tag: string): (r: Option<nat>)
    requires n <= |ins|
    ensures r.Some? ==> r.value < n
  {
    if n == 0 then None
    else if Defines(ins[n - 1], tag) then Some(n - 1)
    else LabelIndex(ins, n - 1, tag)
  }

  function Target(ins: seq<IRInstruction>, tag: string): Option<nat> {
    LabelIndex(ins, |ins|, tag)
  }

  /** It is a definition of the label, and no later one is. */
  lemma {:induction false} LabelIndexIsLast(ins: seq<IRInstruction>, n: nat, tag: string)
    requires n <= |ins|
    ensures var r := LabelIndex(ins, n, tag);
            && (r.Some? ==> Defines(ins[r.value], tag))
            && forall i :: (if r.Some? then r.value + 1 else 0) <= i < n ==> !Defines(ins[i], tag)
  {
    if n > 0 && !Defines(ins[n - 1], tag) {
      LabelIndexIsLast(ins, n - 1, tag);
    }
  }

  /** When a label is defined once, "the last definition" is that one. */
  lemma {:induction false} UniqueLabelIsItsTarget(ins: seq<IRInstruction>, i: nat, tag: string)
    requires i < |ins| && Defines(ins[i], tag)
    requires forall k :: 0 <= k < |ins| && Defines(ins[k], tag) ==> k == i
    ensures Target(ins, tag) == Some(i)
  {
    LabelIndexIsLast(ins, |ins|, tag);
  }

  lemma {:induction false} PcOfMonotone(ins: seq<IRInstruction>, i: nat, j: nat)
    requires i <= j <= |ins|
    ensures PcOf(ins, i) <= PcOf(ins, j)
    ensures i < j && ins[i].op != LABEL ==> PcOf(ins, i) < PcOf(ins, j)
    decreases j
  {
    if i < j {
      PcOfMonotone(ins, i, j - 1);
    }
  }

  /** Every address is the position of exactly one instruction that is not a label. */
  lemma {:induction false} AddressHasOneInstruction(ins: seq<IRInstruction>, n: nat, pc: nat) returns (i: nat)
    requires n <= |ins| && pc < PcOf(ins, n)
    ensures i < n && ins[i].op != LABEL && PcOf(ins, i) == pc
    ensures forall k :: 0 <= k < |ins| && ins[k].op != LABEL && PcOf(ins, k) == pc ==> k == i
    decreases n
  {
    if pc < PcOf(ins, n - 1) {
      i := AddressHasOneInstruction(ins, n - 1, pc);
    } else {
      i := n - 1;
      forall k | 0 <= k < |ins| && ins[k].op != LABEL && PcOf(ins, k) == pc
        ensures k == i
      {
        if k < i {
          PcOfMonotone(ins, k, i);
        } else if i < k {
          PcOfMonotone(ins, i, k);
        }
      }
    }
  }

  // ----- what lowering must produce -----

  function ArgsNeeded(op: IROp): nat {
    match op
    case Plain(p) => Arity(p)
    case Unsupported(_) => 0
    case _ => 1
  }

  predicate Emittable(ins: seq<IRInstruction>, i: IRInstruction) {
    && !i.op.Unsupported?
    && ArgsNeeded(i.op) <= |i.args|
    && (i.op == JUMP || i.op == JUMP_IF_FALSE ==> Target(ins, i.args[0].text).Some?)
  }

  /** The bytecode of one instruction that is not a label. */
  function Emitted(ins: seq<IRInstruction>, i: IRInstruction): Bytecode
    requires Emittable(ins, i) && i.op != LABEL
  {
    match i.op
    case JUMP => Jump(PcOf(ins, Target(ins, i.args[0].text).value))
    case JUMP_IF_FALSE => JumpIfFalse(PcOf(ins, Target(ins, i.args[0].text).value))
    case Plain(p) => Operation(p, i.args[..Arity(p)])
  }

  predicate AllEmittable(ins: seq<IRInstruction>, n: nat)
    requires n <= |ins|
  {
    forall i {:trigger Emittable(ins, ins[i])} :: 0 <= i < n ==> Emittable(ins, ins[i])
  }

  predicate Lowerable(ir: IRProgram) {
    && AllEmittable(ir.instructions, |ir.instructions|)
    && (forall f :: f in ir.functions ==> Target(ir.instructions, ir.functions[f].entryLabel).Some?)
    && (forall f :: f in ir.events ==> Target(ir.instructions, ir.events[f].entryLabel).Some?)
  }

  function PlainName(op: PlainOp): string {
    match op
    case HALT => "HALT" case PUSH => "PUSH" case STORE => "STORE" case STORE_KEEP => "STORE_KEEP"
    case STORE_AUTO => "STORE_AUTO" case LOAD => "LOAD" case ADD => "ADD" case SUB => "SUB" case MUL => "MUL"
    case DIV => "DIV" case COMPARE => "COMPARE" case PRINT => "PRINT" case PRINTN => "PRINTN" case CALL => "CALL"
    case RETURN => "RETURN" case ARG => "ARG" case SHOW_PREC => "SHOW_PREC" case STOP => "STOP" case WAIT => "WAIT"
    case SAVE_VAL => "SAVE_VAL" case LOAD_F => "LOAD_F" case LIST_PUT => "LIST_PUT" case BOOL_AND => "BOOL_AND"
    case BOOL_OR => "BOOL_OR" case BOOL_NOT => "BOOL_NOT" case SYSCALL => "SYSCALL" case POP => "POP"
    case GETITEM => "GETITEM" case LEN => "LEN" case BUILD_LIST => "BUILD_LIST" case BUILD_MAP => "BUILD_MAP"
    case RANDOM => "RANDOM" case SEED => "SEED" case GLOBAL_SEED => "GLOBAL_SEED" case MOD => "MOD"
    case POW_OP => "POW_OP" case IMPORT => "IMPORT"
  }

  function OpName(op: IROp): string {
    match op
    case LABEL => "LABEL" case JUMP => "JUMP" case JUMP_IF_FALSE => "JUMP_IF_FALSE"
    case Plain(p) => PlainName(p)
    case Unsupported(name) => name
  }

  /** Each argument's `repr` after a blank. */
  function Reprs(args: seq<Arg>): string {
    if args == [] then "" else " " + args[0].repr + Reprs(args[1..])
  }

  /** The instruction as the span's hint shows it. */
  function Rendered(i: IRInstruction): string {
    OpName(i.op) + Reprs(i.args)
  }

  /** int(line or 0), int(col or 1), and an end one character short of the hint's length, but past
      the start. */
  function SpanOf(i: IRInstruction, index: nat): (s: Span)
    ensures s.endLine == s.line && s.endCol > s.col
  {
    var col, hint := if i.col == 0 then 1 else i.col, Rendered(i);
    Span(i.line, col, i.line, col + if |hint| > 2 then |hint| - 1 else 1, hint, index)
  }

  ghost predicate IsTable(ins: seq<IRInstruction>, source: map<string, IRFunction>, table: map<string, Entry>) {
    && table.Keys == source.Keys
    && forall f :: f in source ==>
         && Target(ins, source[f].entryLabel).Some?
         && table[f] == Entry(PcOf(ins, Target(ins, source[f].entryLabel).value), |source[f].params|, source[f].params,
                              source[f].kind)
  }

  ghost predicate IsLowering(ir: IRProgram, b: Bundle) {
    var ins := ir.instructions;
    && IsCode(ins, |ins|, b.code, b.spans)
    && IsTable(ins, ir.functions, b.functions)
    && IsTable(ins, ir.events, b.events)
  }

  ghost predicate LabelsUpTo(ins: seq<IRInstruction>, n: nat, labels: map<string, nat>)
    requires n <= |ins|
  {
    forall tag {:trigger tag in labels} {:trigger LabelIndex(ins, n, tag)} ::
      && (tag in labels <==> LabelIndex(ins, n, tag).Some?)
      && (tag in labels ==> labels[tag] == PcOf(ins, LabelIndex(ins, n, tag).value))
  }

  method ResolveLabels(ins: seq<IRInstruction>) returns (r: Result<map<string, nat>>)
    ensures r.Ok? <==> forall i :: 0 <= i < |ins| && ins[i].op == LABEL ==> ins[i].args != []
    ensures r.Ok? ==> LabelsUpTo(ins, |ins|, r.value)
  {
    var labels: map<string, nat> := map[];
    var pc := 0;
    for idx := 0 to |ins|
      invariant pc == PcOf(ins, idx)
      invariant forall i :: 0 <= i < idx && ins[i].op == LABEL ==> ins[i].args != []
      invariant LabelsUpTo(ins, idx, labels)
    {
      if ins[idx].op == LABEL {
        if ins[idx].args == [] {
          return Err(MissingArgument);
        }
        labels := labels[ins[idx].args[0].text := pc];
      } else {
        pc := pc + 1;
      }
    }
    r := Ok(labels);
  }

  method EmitInstruction(i: IRInstruction, labels: map<string, nat>, ghost ins: seq<IRInstruction>)
    returns (r: Result<Bytecode>)
    requires i.op != LABEL && LabelsUpTo(ins, |ins|, labels)
    ensures r.Ok? <==> Emittable(ins, i)
    ensures r.Ok? ==> r.value == Emitted(ins, i)
  {
    if i.op == JUMP || i.op == JUMP_IF_FALSE {
      if i.args == [] {
        return Err(MissingArgument);
      }
      var tag := i.args[0].text;
      if tag !in labels {
        return Err(UnknownLabel);
      }
      r := Ok(if i.op == JUMP then Jump(labels[tag]) else JumpIfFalse(labels[tag]));
    } else if i.op.Unsupported? {
      r := Err(UnsupportedOpcode);
    } else if |i.args| < Arity(i.op.op) {
      r := Err(MissingArgument);
    } else {
      r := Ok(Operation(i.op.op, i.args[..Arity(i.op.op)]));
    }
  }

  method BuildTable(source: map<string, IRFunction>, labels: map<string, nat>, ghost ins: seq<IRInstruction>)
    returns (r: Result<map<string, Entry>>)
    requires LabelsUpTo(ins, |ins|, labels)
    ensures r.Ok? <==> forall f :: f in source ==> Target(ins, source[f].entryLabel).Some?
    ensures r.Ok? ==> IsTable(ins, source, r.value)
  {
    if f :| f in source && source[f].entryLabel !in labels {
      return Err(UnknownLabel);
    }
    r := Ok(map f | f in source ::
              Entry(labels[source[f].entryLabel], |source[f].params|, source[f].params, source[f].kind));
  }

  /** Instruction `i`, unless a label, is emitted at its position. */
  ghost predicate IsEmitted(ins: seq<IRInstruction>, i: nat, code: seq<Bytecode>, spans: seq<Span>)
    requires i < |ins|
  {
    ins[i].op != LABEL ==>
      && Emittable(ins, ins[i])
      && PcOf(ins, i) < |code| == |spans|
      && code[PcOf(ins, i)] == Emitted(ins, ins[i])
      && spans[PcOf(ins, i)] == SpanOf(ins[i], i)
  }

  ghost predicate IsCode(ins: seq<IRInstruction>, n: nat, code: seq<Bytecode>, spans: seq<Span>)
    requires n <= |ins|
  {
    && |code| == |spans| == PcOf(ins, n)
    && forall i {:trigger IsEmitted(ins, i, code, spans)} :: 0 <= i < n ==> IsEmitted(ins, i, code, spans)
  }

  /** The second pass: labels are skipped, everything else is emitted with its position. */
  method EmitCode(ins: seq<IRInstruction>, labels: map<string, nat>) returns (r: Result<(seq<Bytecode>, seq<Span>)>)
    requires LabelsUpTo(ins, |ins|, labels)
    requires forall i :: 0 <= i < |ins| && ins[i].op == LABEL ==> ins[i].args != []
    ensures r.Ok? <==> AllEmittable(ins, |ins|)
    ensures r.Ok? ==> IsCode(ins, |ins|, r.value.0, r.value.1)
  {
    var code: seq<Bytecode>, spans: seq<Span> := [], [];
    for idx := 0 to |ins|
      invariant AllEmittable(ins, idx)
      invariant IsCode(ins, idx, code, spans)
    {
      ghost var code0, spans0 := code, spans;
      if ins[idx].op != LABEL {
        var emitted := EmitInstruction(ins[idx], labels, ins);
        if emitted.Err? {
          return Err(emitted.error);
        }
        code := code + [emitted.value];
        spans := spans + [SpanOf(ins[idx], idx)];
      }
      forall i | 0 <= i <= idx
        ensures IsEmitted(ins, i, code, spans)
      {
        assert i < idx ==> IsEmitted(ins, i, code0, spans0);
      }
    }
    r := Ok((code, spans));
  }

  /** BytecodeBackend.lower: it succeeds exactly on the programs whose labels, opcodes and
      arguments resolve, and what it returns is the lowering. */
  method Lower(ir: IRProgram) returns (r: Result<Bundle>)
    ensures r.Ok? <==> Lowerable(ir)
    ensures r.Ok? ==> IsLowering(ir, r.value)
  {
    var ins := ir.instructions;
    var resolved := ResolveLabels(ins);
    if resolved.Err? {
      ghost var i :| 0 <= i < |ins| && ins[i].op == LABEL && ins[i].args == [];
      assert !Emittable(ins, ins[i]);
      return Err(resolved.error);
    }
    var labels := resolved.value;
    var emitted := EmitCode(ins, labels);
    if emitted.Err? {
      return Err(emitted.error);
    }
    var functions := BuildTable(ir.functions, labels, ins);
    if functions.Err? {
      return Err(functions.error);
    }
    var events := BuildTable(ir.events, labels, ins);
    if events.Err? {
      return Err(events.error);
    }
    r := Ok(Bundle(emitted.value.0, emitted.value.1, functions.value, events.value));
  }

  // ----- the two machines -----

  /** What executing a plain opcode can do besides changing the data: go on, stop, fail, enter a
      function or an event handler by name, or return. */
  datatype Effect<S> =
    | Continue(data: S) | Halt(data: S) | Enter(name: string, isEvent: bool, data: S) | Leave(data: S) | Fail

  datatype Semantics<!S> = Semantics(
    plain: (PlainOp, seq<Arg>, S) -> Effect<S>,
    test: S -> Option<(bool, S)>)

  datatype Config<S> = Running(at: nat, frames: seq<nat>, data: S) | Stopped(data: S) | Faulted

  /** Doing a plain opcode's effect; the entry points are the only thing the machines do differently. */
  function Apply<S>(e: Effect<S>, next: nat, frames: seq<nat>, entry: Option<nat>): Config<S> {
    match e
    case Continue(s) => Running(next, frames, s)
    case Halt(s) => Stopped(s)
    case Enter(_, _, s) => if entry.Some? then Running(entry.value, frames + [next], s) else Faulted
    case Leave(s) => if frames == [] then Stopped(s) else Running(frames[|frames| - 1], frames[..|frames| - 1], s)
    case Fail => Faulted
  }

  function Branch<S>(sem: Semantics<S>, target: Option<nat>, c: Config<S>): Config<S>
    requires c.Running?
  {
    match sem.test(c.data)
    case None => Faulted
    case Some(r) =>
      if r.0 then Running(c.at + 1, c.frames, r.1)
      else if target.Some? then Running(target.value, c.frames, r.1) else Faulted
  }

  function IREntry<S>(ir: IRProgram, e: Effect<S>): Option<nat> {
    if !e.Enter? then None
    else
      var table := if e.isEvent then ir.events else ir.functions;
      if e.name in table then Target(ir.instructions, table[e.name].entryLabel) else None
  }

  function BytecodeEntry<S>(b: Bundle, e: Effect<S>): Option<nat> {
    if !e.Enter? then None
    else
      var table := if e.isEvent then b.events else b.functions;
      if e.name in table then Some(table[e.name].address) else None
  }

  function IRStep<S>(sem: Semantics<S>, ir: IRProgram, c: Config<S>): Config<S>
    requires Lowerable(ir)
  {
    var ins := ir.instructions;
    if !c.Running? then c
    else if c.at >= |ins| then Stopped(c.data)
    else
      var i := ins[c.at];
      assert Emittable(ins, i);
      match i.op
      case LABEL => Running(c.at + 1, c.frames, c.data)
      case JUMP => Running(Target(ins, i.args[0].text).value, c.frames, c.data)
      case JUMP_IF_FALSE => Branch(sem, Target(ins, i.args[0].text), c)
      case Plain(p) =>
        var e := sem.plain(p, Used(p, i.args), c.data);
        Apply(e, c.at + 1, c.frames, IREntry(ir, e))
  }

  function BytecodeStep<S>(sem: Semantics<S>, b: Bundle, c: Config<S>): Config<S> {
    if !c.Running? then c
    else if c.at >= |b.code| then Stopped(c.data)
    else
      match b.code[c.at]
      case Jump(target) => Running(target, c.frames, c.data)
      case JumpIfFalse(target) => Branch(sem, Some(target), c)
      case Operation(p, args) =>
        var e := sem.plain(p, args, c.data);
        Apply(e, c.at + 1, c.frames, BytecodeEntry(b, e))
  }

  // ----- the simulation -----

  /** Positions of an IR configuration point into the program. */
  ghost predicate InRange<S>(ir: IRProgram, c: Config<S>) {
    c.Running? ==>
      c.at <= |ir.instructions| && forall k :: 0 <= k < |c.frames| ==> c.frames[k] <= |ir.instructions|
  }

  function Addresses(ins: seq<IRInstruction>, at: seq<nat>): (r: seq<nat>)
    requires forall k :: 0 <= k < |at| ==> at[k] <= |ins|
    ensures |r| == |at| && forall k :: 0 <= k < |at| ==> r[k] == PcOf(ins, at[k])
  {
    seq(|at|, k requires 0 <= k < |at| => PcOf(ins, at[k]))
  }

  /** The bytecode configuration an IR configuration stands for. */
  function Lowered<S>(ir: IRProgram, c: Config<S>): Config<S>
    requires InRange(ir, c)
  {
    if c.Running? then Running(PcOf(ir.instructions, c.at), Addresses(ir.instructions, c.frames), c.data) else c
  }

  /** Whether the next IR step is one the bytecode does not have. */
  predicate Silent<S>(ir: IRProgram, c: Config<S>) {
    c.Running? && c.at < |ir.instructions| && ir.instructions[c.at].op == LABEL
  }

  lemma {:induction false} StepSimulated<S>(sem: Semantics<S>, ir: IRProgram, b: Bundle, c: Config<S>)
    requires Lowerable(ir) && IsLowering(ir, b) && InRange(ir, c)
    ensures InRange(ir, IRStep(sem, ir, c))
    ensures Lowered(ir, IRStep(sem, ir, c)) ==
            if Silent(ir, c) then Lowered(ir, c) else BytecodeStep(sem, b, Lowered(ir, c))
  {
    var ins := ir.instructions;
    if c.Running? && c.at < |ins| {
      var i := ins[c.at];
      assert Emittable(ins, i);
      match i.op
      case LABEL =>
      case Plain(p) => OperationSimulated(sem, ir, b, c);
      case _ => JumpSimulated(sem, ir, b, c);
    }
  }

  lemma {:induction false} JumpSimulated<S>(sem: Semantics<S>, ir: IRProgram, b: Bundle, c: Config<S>)
    requires Lowerable(ir) && IsLowering(ir, b) && InRange(ir, c)
    requires c.Running? && c.at < |ir.instructions| && ir.instructions[c.at].op in {JUMP, JUMP_IF_FALSE}
    ensures InRange(ir, IRStep(sem, ir, c))
    ensures Lowered(ir, IRStep(sem, ir, c)) == BytecodeStep(sem, b, Lowered(ir, c))
  {
    var ins := ir.instructions;
    assert Emittable(ins, ins[c.at]);
    assert IsEmitted(ins, c.at, b.code, b.spans);
  }

  lemma {:induction false} OperationSimulated<S>(sem: Semantics<S>, ir: IRProgram, b: Bundle, c: Config<S>)
    requires Lowerable(ir) && IsLowering(ir, b) && InRange(ir, c)
    requires c.Running? && c.at < |ir.instructions| && ir.instructions[c.at].op.Plain?
    ensures InRange(ir, IRStep(sem, ir, c))
    ensures Lowered(ir, IRStep(sem, ir, c)) == BytecodeStep(sem, b, Lowered(ir, c))
  {
    var ins := ir.instructions;
    var i := ins[c.at];
    assert Emittable(ins, i);
    assert IsEmitted(ins, c.at, b.code, b.spans);
    UsedAreKept(i.op.op, i.args);
    var args := Used(i.op.op, i.args);
    var e := sem.plain(i.op.op, args, c.data);
    EntryAgrees(ir, b, e);
    ApplyLowered(ir, e, c, IREntry(ir, e));
    PlainStep(sem, ir, c);
    OperationStep(sem, b, Lowered(ir, c), i.op.op, args);
  }

  lemma PlainStep<S>(sem: Semantics<S>, ir: IRProgram, c: Config<S>)
    requires Lowerable(ir) && c.Running? && c.at < |ir.instructions| && ir.instructions[c.at].op.Plain?
    ensures var i := ir.instructions[c.at];
            Emittable(ir.instructions, i) &&
            var e := sem.plain(i.op.op, Used(i.op.op, i.args), c.data);
            IRStep(sem, ir, c) == Apply(e, c.at + 1, c.frames, IREntry(ir, e))
  {
    assert Emittable(ir.instructions, ir.instructions[c.at]);
  }

  lemma OperationStep<S>(sem: Semantics<S>, b: Bundle, c: Config<S>, p: PlainOp, args: seq<Arg>)
    requires c.Running? && c.at < |b.code| && b.code[c.at] == Operation(p, args)
    ensures var e := sem.plain(p, args, c.data);
            BytecodeStep(sem, b, c) == Apply(e, c.at + 1, c.frames, BytecodeEntry(b, e))
  {
  }

  lemma EntryAgrees<S>(ir: IRProgram, b: Bundle, e: Effect<S>)
    requires Lowerable(ir) && IsLowering(ir, b)
    ensures BytecodeEntry(b, e) ==
            match IREntry(ir, e)
            case None => None
            case Some(i) => Some(PcOf(ir.instructions, i))
  {
  }

  lemma ApplyLowered<S>(ir: IRProgram, e: Effect<S>, c: Config<S>, entry: Option<nat>)
    requires c.Running? && InRange(ir, c) && c.at < |ir.instructions| && ir.instructions[c.at].op != LABEL
    requires entry.Some? ==> entry.value <= |ir.instructions|
    ensures var c1 := Apply(e, c.at + 1, c.frames, entry);
            InRange(ir, c1) &&
            Lowered(ir, c1) ==
            Apply(e, PcOf(ir.instructions, c.at) + 1, Addresses(ir.instructions, c.frames),
                  if entry.None? then None else Some(PcOf(ir.instructions, entry.value)))
  {
    var ins := ir.instructions;
    match e
    case Enter(_, _, s) =>
      if entry.Some? {
        var frames := c.frames + [c.at + 1];
        assert forall k :: 0 <= k < |frames| ==> frames[k] <= |ins|;
        assert Addresses(ins, frames) == Addresses(ins, c.frames) + [PcOf(ins, c.at) + 1];
      }
    case Leave(s) =>
      if c.frames != [] {
        var frames := c.frames[..|c.frames| - 1];
        assert Addresses(ins, frames) == Addresses(ins, c.frames)[..|c.frames| - 1];
      }
    case _ =>
  }

  function IRRun<S>(sem: Semantics<S>, ir: IRProgram, c: Config<S>, steps: nat): Config<S>
    requires Lowerable(ir)
  {
    if steps == 0 then c else IRStep(sem, ir, IRRun(sem, ir, c, steps - 1))
  }

  function BytecodeRun<S>(sem: Semantics<S>, b: Bundle, c: Config<S>, steps: nat): Config<S> {
    if steps == 0 then c else BytecodeStep(sem, b, BytecodeRun(sem, b, c, steps - 1))
  }

  /** How many of the first `steps` IR steps are not over a label. */
  function Visible<S>(sem: Semantics<S>, ir: IRProgram, c: Config<S>, steps: nat): nat
    requires Lowerable(ir)
  {
    if steps == 0 then 0
    else
      Visible(sem, ir, c, steps - 1) + if Silent(ir, IRRun(sem, ir, c, steps - 1)) then 0 else 1
  }

  /** What can be seen of the first `steps` IR steps: the configuration after each visible one. */
  function IRTrace<S>(sem: Semantics<S>, ir: IRProgram, b: Bundle, c: Config<S>, steps: nat): seq<Config<S>>
    requires Lowerable(ir) && IsLowering(ir, b) && InRange(ir, c)
  {
    if steps == 0 then []
    else
      var before := IRTrace(sem, ir, b, c, steps - 1);
      if Silent(ir, IRRun(sem, ir, c, steps - 1)) then before
      else
        RunSimulated(sem, ir, b, c, steps);
        before + [Lowered(ir, IRRun(sem, ir, c, steps))]
  }

  function BytecodeTrace<S>(sem: Semantics<S>, b: Bundle, c: Config<S>, steps: nat): seq<Config<S>> {
    if steps == 0 then [] else BytecodeTrace(sem, b, c, steps - 1) + [BytecodeRun(sem, b, c, steps)]
  }

  /** After any number of IR steps the bytecode, run for as many steps as were visible, is in the
      corresponding configuration. */
  lemma {:induction false} RunSimulated<S>(sem: Semantics<S>, ir: IRProgram, b: Bundle, c: Config<S>, steps: nat)
    requires Lowerable(ir) && IsLowering(ir, b) && InRange(ir, c)
    ensures InRange(ir, IRRun(sem, ir, c, steps))
    ensures Lowered(ir, IRRun(sem, ir, c, steps)) ==
            BytecodeRun(sem, b, Lowered(ir, c), Visible(sem, ir, c, steps))
  {
    if steps > 0 {
      RunSimulated(sem, ir, b, c, steps - 1);
      var before := IRRun(sem, ir, c, steps - 1);
      StepSimulated(sem, ir, b, before);
      assert IRRun(sem, ir, c, steps) == IRStep(sem, ir, before);
      var v := Visible(sem, ir, c, steps - 1);
      var lowered := BytecodeRun(sem, b, Lowered(ir, c), v);
      assert BytecodeRun(sem, b, Lowered(ir, c), v + 1) == BytecodeStep(sem, b, lowered);
      assert Visible(sem, ir, c, steps) == if Silent(ir, before) then v else v + 1;
    }
  }

  lemma OneMoreVisible<S>(sem: Semantics<S>, ir: IRProgram, c: Config<S>, m: nat)
    requires Lowerable(ir)
    ensures var here := IRRun(sem, ir, c, m);
            && IRRun(sem, ir, c, m + 1) == IRStep(sem, ir, here)
            && Visible(sem, ir, c, m + 1) == Visible(sem, ir, c, m) + if Silent(ir, here) then 0 else 1
  {
  }

  lemma SilentTrace<S>(sem: Semantics<S>, ir: IRProgram, b: Bundle, c: Config<S>, m: nat)
    requires Lowerable(ir) && IsLowering(ir, b) && InRange(ir, c) && Silent(ir, IRRun(sem, ir, c, m))
    ensures IRTrace(sem, ir, b, c, m + 1) == IRTrace(sem, ir, b, c, m)
  {
  }

  lemma VisibleTrace<S>(sem: Semantics<S>, ir: IRProgram, b: Bundle, c: Config<S>, m: nat)
    requires Lowerable(ir) && IsLowering(ir, b) && InRange(ir, c) && !Silent(ir, IRRun(sem, ir, c, m))
    requires InRange(ir, IRRun(sem, ir, c, m + 1))
    ensures IRTrace(sem, ir, b, c, m + 1) == IRTrace(sem, ir, b, c, m) + [Lowered(ir, IRRun(sem, ir, c, m + 1))]
  {
  }

  lemma OneMoreTraced<S>(sem: Semantics<S>, b: Bundle, c: Config<S>, v: nat)
    ensures BytecodeTrace(sem, b, c, v + 1) == BytecodeTrace(sem, b, c, v) + [BytecodeRun(sem, b, c, v + 1)]
  {
  }

  /** The two machines go through the same states in the same order. */
  lemma {:induction false} TracesAgree<S>(sem: Semantics<S>, ir: IRProgram, b: Bundle, c: Config<S>, steps: nat)
    requires Lowerable(ir) && IsLowering(ir, b) && InRange(ir, c)
    ensures IRTrace(sem, ir, b, c, steps) == BytecodeTrace(sem, b, Lowered(ir, c), Visible(sem, ir, c, steps))
  {
    if steps > 0 {
      var m := steps - 1;
      TracesAgree(sem, ir, b, c, m);
      OneMoreVisible(sem, ir, c, m);
      if Silent(ir, IRRun(sem, ir, c, m)) {
        SilentTrace(sem, ir, b, c, m);
      } else {
        RunSimulated(sem, ir, b, c, m + 1);
        VisibleTrace(sem, ir, b, c, m);
        OneMoreTraced(sem, b, Lowered(ir, c), Visible(sem, ir, c, m));
      }
    }
  }

  // ----- the two machines in other words -----

  /** An instruction that carries what it uses gives its opcode exactly the arguments that stand in it,
      in the IR and at its address in the bytecode. */
  lemma StepAsWritten<S>(sem: Semantics<S>, ir: IRProgram, b: Bundle, c: Config<S>)
    requires Lowerable(ir) && IsLowering(ir, b) && InRange(ir, c) && c.Running? && c.at < |ir.instructions|
    requires ir.instructions[c.at].op.Plain? && CarriesWhatItUses(ir.instructions[c.at])
    ensures var i := ir.instructions[c.at];
            var e := sem.plain(i.op.op, i.args, c.data);
            && IRStep(sem, ir, c) == Apply(e, c.at + 1, c.frames, IREntry(ir, e))
            && PcOf(ir.instructions, c.at) < |b.code|
            && b.code[PcOf(ir.instructions, c.at)] == Operation(i.op.op, i.args)
  {
    var ins := ir.instructions;
    PlainStep(sem, ir, c);
    ArgumentsAreKept(ins, ins[c.at]);
    assert IsEmitted(ins, c.at, b.code, b.spans);
  }

  /** JUMP goes to its label, JUMP_IF_FALSE does when the test gives false and goes on when it gives
      true, and a label is walked over. */
  lemma JumpsAsNamed<S>(sem: Semantics<S>, ir: IRProgram, c: Config<S>)
    requires Lowerable(ir) && c.Running? && c.at < |ir.instructions|
    ensures var i, next := ir.instructions[c.at], c.at + 1;
            && (i.op == LABEL ==> IRStep(sem, ir, c) == Running(next, c.frames, c.data))
            && (i.op in {JUMP, JUMP_IF_FALSE} ==>
                  i.args != [] && Target(ir.instructions, i.args[0].text).Some? &&
                  var at := Target(ir.instructions, i.args[0].text).value;
                  && Defines(ir.instructions[at], i.args[0].text)
                  && (i.op == JUMP ==> IRStep(sem, ir, c) == Running(at, c.frames, c.data))
                  && (i.op == JUMP_IF_FALSE ==>
                        match sem.test(c.data)
                        case None => IRStep(sem, ir, c) == Faulted
                        case Some((truth, data)) =>
                          IRStep(sem, ir, c) == Running(if truth then next else at, c.frames, data)))
  {
    var i := ir.instructions[c.at];
    assert Emittable(ir.instructions, i);
    if i.op in {JUMP, JUMP_IF_FALSE} {
      LabelIndexIsLast(ir.instructions, |ir.instructions|, i.args[0].text);
    }
  }

  /** What is entered and then left goes on after the call, with the callers it had; at the outermost
      level leaving stops. */
  lemma EnterThenLeave<S>(name: string, isEvent: bool, x: S, y: S, next: nat, later: nat, frames: seq<nat>, entry: nat)
    ensures var inside := Apply(Enter(name, isEvent, x), next, frames, Some(entry));
            && inside.Running? && inside.at == entry && inside.data == x
            && Apply(Leave(y), later, inside.frames, None) == Running(next, frames, y)
    ensures Apply(Leave(y), later, [], None) == Stopped(y)
    ensures Apply(Enter(name, isEvent, x), next, frames, None) == Faulted
    ensures Apply(Continue(x), next, frames, None) == Running(next, frames, x)
    ensures Apply(Halt(x), next, frames, None) == Stopped(x) && Apply<S>(Fail, next, frames, None) == Faulted
  {
    assert (frames + [next])[..|frames|] == frames;
  }

  /** Functions are entered through the table of functions, event handlers through that of events. */
  lemma EntriesByKind<S>(ir: IRProgram, b: Bundle, name: string, data: S)
    requires Lowerable(ir) && IsLowering(ir, b)
    ensures name in ir.functions ==>
              var at := Target(ir.instructions, ir.functions[name].entryLabel);
              at.Some? && BytecodeEntry<S>(b, Enter(name, false, data)) == Some(PcOf(ir.instructions, at.value))
    ensures name in ir.events ==>
              var at := Target(ir.instructions, ir.events[name].entryLabel);
              at.Some? && BytecodeEntry<S>(b, Enter(name, true, data)) == Some(PcOf(ir.instructions, at.value))
    ensures name !in ir.functions ==> BytecodeEntry<S>(b, Enter(name, false, data)) == None
    ensures name !in ir.events ==> BytecodeEntry<S>(b, Enter(name, true, data)) == None
  {
  }

  /** One program, lowered by hand. */
  lemma SmallProgram() returns (ir: IRProgram, b: Bundle)
    ensures ir.instructions == [
              IRInstruction(Plain(PUSH), [Arg(7, "7", "7")], 3, 0),
              IRInstruction(JUMP_IF_FALSE, [Arg(0, "end", "'end'")], 3, 4),
              IRInstruction(Plain(CALL), [Arg(1, "f", "'f'"), Arg(2, "2", "2")], 4, 2),
              IRInstruction(LABEL, [Arg(0, "end", "'end'")], 5, 1),
              IRInstruction(Plain(HALT), [], 6, 1)]
    ensures b.code == [
              Operation(PUSH, [Arg(7, "7", "7")]),
              JumpIfFalse(3),
              Operation(CALL, [Arg(1, "f", "'f'"), Arg(2, "2", "2")]),
              Operation(HALT, [])]
    ensures b.spans == [
              Span(3, 1, 3, 6, "PUSH 7", 0),
              Span(3, 4, 3, 22, "JUMP_IF_FALSE 'end'", 1),
              Span(4, 2, 4, 11, "CALL 'f' 2", 2),
              Span(6, 1, 6, 4, "HALT", 4)]
    ensures Lowerable(ir) && IsLowering(ir, b)
  {
    var seven, end := Arg(7, "7", "7"), Arg(0, "end", "'end'");
    var f, two := Arg(1, "f", "'f'"), Arg(2, "2", "2");
    var ins := [IRInstruction(Plain(PUSH), [seven], 3, 0), IRInstruction(JUMP_IF_FALSE, [end], 3, 4),
                IRInstruction(Plain(CALL), [f, two], 4, 2), IRInstruction(LABEL, [end], 5, 1),
                IRInstruction(Plain(HALT), [], 6, 1)];
    var code := [Operation(PUSH, [seven]), JumpIfFalse(3), Operation(CALL, [f, two]), Operation(HALT, [])];
    var spans := [Span(3, 1, 3, 6, "PUSH 7", 0), Span(3, 4, 3, 22, "JUMP_IF_FALSE 'end'", 1),
                  Span(4, 2, 4, 11, "CALL 'f' 2", 2), Span(6, 1, 6, 4, "HALT", 4)];
    ir, b := IRProgram(ins, map[], map[]), Bundle(code, spans, map[], map[]);
    SmallPositions(ins);
    SmallHints(seven, end, f, two);
    assert AllEmittable(ins, 5);
    forall i | 0 <= i < 5
      ensures IsEmitted(ins, i, code, spans)
    {
      assert i == 0 || i == 1 || i == 2 || i == 3 || i == 4;
    }
  }

  lemma SmallPositions(ins: seq<IRInstruction>)
    requires |ins| == 5 && Defines(ins[3], "end")
    requires ins[0].op != LABEL && ins[1].op != LABEL && ins[2].op != LABEL && ins[4].op != LABEL
    ensures PcOf(ins, 0) == 0 && PcOf(ins, 1) == 1 && PcOf(ins, 2) == 2 && PcOf(ins, 3) == PcOf(ins, 4) == 3
    ensures PcOf(ins, 5) == 4 && Target(ins, "end") == Some(3)
  {
    assert PcOf(ins, 1) == 1 && PcOf(ins, 2) == 2 && PcOf(ins, 3) == 3;
    assert LabelIndex(ins, 4, "end") == Some(3);
  }

  lemma SmallHints(seven: Arg, end: Arg, f: Arg, two: Arg)
    requires seven.repr == "7" && end.repr == "'end'" && f.repr == "'f'" && two.repr == "2"
    ensures Rendered(IRInstruction(Plain(PUSH), [seven], 3, 0)) == "PUSH 7"
    ensures Rendered(IRInstruction(JUMP_IF_FALSE, [end], 3, 4)) == "JUMP_IF_FALSE 'end'"
    ensures Rendered(IRInstruction(Plain(CALL), [f, two], 4, 2)) == "CALL 'f' 2"
    ensures Rendered(IRInstruction(Plain(HALT), [], 6, 1)) == "HALT"
  {
    assert Reprs([two]) == " 2" && [f, two][1..] == [two];
    assert Reprs([f, two]) == " 'f' 2" && Reprs([seven]) == " 7" && Reprs([end]) == " 'end'";
  }

  // ----- no run of labels hides a bytecode step -----

  /** Labels still ahead before something visible must happen. */
  function LabelsAhead<S>(ir: IRProgram, c: Config<S>): nat {
    if Silent(ir, c) then |ir.instructions| - c.at else 0
  }

  lemma LabelIsPassed<S>(sem: Semantics<S>, ir: IRProgram, c: Config<S>)
    requires Lowerable(ir) && Silent(ir, c)
    ensures LabelsAhead(ir, IRStep(sem, ir, c)) < LabelsAhead(ir, c)
  {
  }

  /** From any point of an IR run the next visible step comes after finitely many silent ones. */
  lemma {:induction false} NextVisible<S>(sem: Semantics<S>, ir: IRProgram, c: Config<S>, m: nat) returns (m1: nat)
    requires Lowerable(ir)
    ensures m < m1 && Visible(sem, ir, c, m1) == Visible(sem, ir, c, m) + 1
    decreases LabelsAhead(ir, IRRun(sem, ir, c, m))
  {
    var here := IRRun(sem, ir, c, m);
    OneMoreVisible(sem, ir, c, m);
    if Silent(ir, here) {
      LabelIsPassed(sem, ir, here);
      m1 := NextVisible(sem, ir, c, m + 1);
    } else {
      m1 := m + 1;
    }
  }

  lemma {:induction false} EveryVisibleCountIsReached<S>(sem: Semantics<S>, ir: IRProgram, c: Config<S>, n: nat)
    returns (m: nat)
    requires Lowerable(ir)
    ensures Visible(sem, ir, c, m) == n
  {
    if n == 0 {
      m := 0;
    } else {
      m := EveryVisibleCountIsReached(sem, ir, c, n - 1);
      m := NextVisible(sem, ir, c, m);
    }
  }

  /** After `m` IR steps, `n` of them visible, the two machines are in corresponding configurations. */
  ghost predicate InStep<S>(sem: Semantics<S>, ir: IRProgram, b: Bundle, c: Config<S>, m: nat, n: nat)
    requires Lowerable(ir) && InRange(ir, c)
  {
    Visible(sem, ir, c, m) == n && InRange(ir, IRRun(sem, ir, c, m)) &&
    Lowered(ir, IRRun(sem, ir, c, m)) == BytecodeRun(sem, b, Lowered(ir, c), n)
  }

  /** Conversely, every bytecode run is the lowering of an IR run. */
  lemma {:induction false} BytecodeRunIsLowered<S>(sem: Semantics<S>, ir: IRProgram, b: Bundle, c: Config<S>, n: nat)
    requires Lowerable(ir) && IsLowering(ir, b) && InRange(ir, c)
    ensures exists m: nat :: InStep(sem, ir, b, c, m, n)
  {
    var m := EveryVisibleCountIsReached(sem, ir, c, n);
    RunSimulated(sem, ir, b, c, m);
    assert InStep(sem, ir, b, c, m, n);
  }

  /** Both machines end a run together and with the same data. */
  lemma {:induction false} RunsEndTogether<S>(sem: Semantics<S>, ir: IRProgram, b: Bundle, c: Config<S>, end: Config<S>)
    requires Lowerable(ir) && IsLowering(ir, b) && InRange(ir, c) && !end.Running?
    ensures (exists m: nat :: IRRun(sem, ir, c, m) == end) <==>
            (exists n: nat :: BytecodeRun(sem, b, Lowered(ir, c), n) == end)
  {
    if m: nat :| IRRun(sem, ir, c, m) == end {
      RunSimulated(sem, ir, b, c, m);
      assert BytecodeRun(sem, b, Lowered(ir, c), Visible(sem, ir, c, m)) == end;
    }
    if n: nat :| BytecodeRun(sem, b, Lowered(ir, c), n) == end {
      var m := EveryVisibleCountIsReached(sem, ir, c, n);
      RunSimulated(sem, ir, b, c, m);
      assert IRRun(sem, ir, c, m) == end;
    }
  }
}
