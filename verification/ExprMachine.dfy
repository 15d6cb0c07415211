/** The stack machine the emitted code runs on, and what a tree means without any stack.

    The meaning of the primitive operations is a parameter: constants, locals, operators, syscalls
    and script functions may compute anything, fail, and (the last two) change the machine's state.
    A call is one step that ends with the callee's result. */
module ExprMachine {
  import opened Lexer
  import opened ExprSyntax
  import opened Options

  datatype Machine<!V, !S> = Machine(
    constant: Const -> V,
    load: (S, int) -> Option<V>,
    binary: (Opcode, int, V, V) -> Option<V>,
    invert: V -> Option<V>,
    list: seq<V> -> V,
    dictionary: seq<V> -> Option<V>,
    item: (V, V) -> Option<V>,
    syscall: (int, seq<V>, S) -> Option<(V, S)>,
    call: (V, seq<V>, S) -> Option<(V, S)>)

  datatype Config<V, S> = Config(stack: seq<V>, state: S)

  function Push<V, S>(v: Option<V>, stack: seq<V>, state: S): Option<Config<V, S>> {
    match v
    case None => None
    case Some(x) => Some(Config(stack + [x], state))
  }

  function Step<V, S>(m: Machine<V, S>, pool: seq<Const>, i: Instr, c: Config<V, S>): Option<Config<V, S>> {
    var s, n := c.stack, |c.stack|;
    match i.op
    case PUSH_CONST => if 0 <= i.a < |pool| then Some(Config(s + [m.constant(pool[i.a])], c.state)) else None
    case LOAD_LOCAL => Push(m.load(c.state, i.a), s, c.state)
    case GETITEM => if n < 2 then None else Push(m.item(s[n - 2], s[n - 1]), s[..n - 2], c.state)
    case BOOL_NOT => if n < 1 then None else Push(m.invert(s[n - 1]), s[..n - 1], c.state)
    case BUILD_LIST =>
      if 0 <= i.a <= n then Some(Config(s[..n - i.a] + [m.list(s[n - i.a..])], c.state)) else None
    case BUILD_MAP =>
      if 0 <= 2 * i.a <= n then Push(m.dictionary(s[n - 2 * i.a..]), s[..n - 2 * i.a], c.state) else None
    case SYSCALL =>
      if 0 <= i.b <= n then
        match m.syscall(i.a, s[n - i.b..], c.state)
        case None => None
        case Some(r) => Some(Config(s[..n - i.b] + (if i.c != 0 then [r.0] else []), r.1))
      else None
    case CALL =>
      if 0 <= i.a < n then
        match m.call(s[n - 1], s[n - 1 - i.a..n - 1], c.state)
        case None => None
        case Some(r) => Some(Config(s[..n - 1 - i.a] + [r.0], r.1))
      else None
    case _ => if n < 2 then None else Push(m.binary(i.op, i.a, s[n - 2], s[n - 1]), s[..n - 2], c.state)
  }

  function Run<V, S>(m: Machine<V, S>, pool: seq<Const>, code: seq<Instr>, c: Config<V, S>): Option<Config<V, S>> {
    if code == [] then Some(c)
    else
      match Run(m, pool, code[..|code| - 1], c)
      case None => None
      case Some(c1) => Step(m, pool, code[|code| - 1], c1)
  }

  // ----- the value of a tree -----

  type Names<!V, !S> = (string, S) -> Option<V>

  /** A name is worth what the instruction compiled for it loads. */
  function BySlot<V, S>(m: Machine<V, S>, env: Env, pool: seq<Const>, globals: seq<string>): Names<V, S> {
    (name: string, s: S) =>
      match Resolve(env, globals, name)
      case Slot(k) => m.load(s, k)
      case Function(k) => Constant(m, pool, k)
      case Unknown => None
  }

  function Constant<V, S>(m: Machine<V, S>, pool: seq<Const>, k: nat): Option<V> {
    if k < |pool| then Some(m.constant(pool[k])) else None
  }

  /** The value of a tree when `names` says what a name that stands for itself is worth. */
  function Eval<V, S>(m: Machine<V, S>, env: Env, pool: seq<Const>, names: Names<V, S>, t: Expr, s: S): Option<(V, S)>
    decreases t, 0
  {
    match t
    case Lit(tok) =>
      (match Literal(env, tok)
       case None => None
       case Some(k) => Some((m.constant(k), s)))
    case Neg(e) =>
      (match Eval(m, env, pool, names, e, s)
       case None => None
       case Some(r) => Pure(m.binary(SUB, 0, m.constant(I64(0)), r.0), r.1))
    case Not(e) =>
      (match Eval(m, env, pool, names, e, s)
       case None => None
       case Some(r) => Pure(m.invert(r.0), r.1))
    case Paren(e) => Eval(m, env, pool, names, e, s)
    case ListLit(items, _) =>
      (match EvalItems(m, env, pool, names, items, |items|, s)
       case None => None
       case Some(r) => Some((m.list(r.0), r.1)))
    case MapLit(items, _) =>
      (match EvalItems(m, env, pool, names, items, |items|, s)
       case None => None
       case Some(r) => Pure(m.dictionary(r.0), r.1))
    case GetCall(_, name, _, items, _) =>
      (match EvalItems(m, env, pool, names, items, |items|, s)
       case None => None
       case Some(r) => m.syscall(env.builtin(name), r.0, r.1))
    case NameCall(name, items, _) =>
      (match EvalItems(m, env, pool, names, items, |items|, s)
       case None => None
       case Some(r) =>
         if env.builtin(name) != 0 then m.syscall(env.builtin(name), r.0, r.1)
         else if Callee(env, name).None? || Callee(env, name).value >= |pool| then None
         else m.call(m.constant(pool[Callee(env, name).value]), r.0, r.1))
    case Var(name) => Pure(names(name, s), s)
    case Index(base, index) =>
      (match Eval(m, env, pool, names, base, s)
       case None => None
       case Some(b) =>
         match Eval(m, env, pool, names, index, b.1)
         case None => None
         case Some(i) => Pure(m.item(b.0, i.0), i.1))
    case Bin(op, left, right) =>
      match Eval(m, env, pool, names, left, s)
      case None => None
      case Some(a) =>
        match Eval(m, env, pool, names, right, a.1)
        case None => None
        case Some(b) => Pure(m.binary(BinaryOpcode(op).0, BinaryOpcode(op).1, a.0, b.0), b.1)
  }

  function Pure<V, S>(v: Option<V>, s: S): Option<(V, S)> {
    match v
    case None => None
    case Some(x) => Some((x, s))
  }

  function EvalItems<V, S>(m: Machine<V, S>, env: Env, pool: seq<Const>, names: Names<V, S>,
                           items: seq<Expr>, n: nat, s: S): (r: Option<(seq<V>, S)>)
    requires n <= |items|
    ensures r.Some? ==> |r.value.0| == n
    decreases items, n
  {
    if n == 0 then Some(([], s))
    else
      match EvalItems(m, env, pool, names, items, n - 1, s)
      case None => None
      case Some(r) =>
        match Eval(m, env, pool, names, items[n - 1], r.1)
        case None => None
        case Some(v) => Some((r.0 + [v.0], v.1))
  }

  // ----- how the compiler's output grows -----

  /** Globals are only appended to, and not at all at top level or once the table is full. */
  ghost predicate Grows(env: Env, before: seq<string>, after: seq<string>) {
    before <= after && (env.locals.None? || |before| >= MAX_VARS ==> after == before)
  }

  lemma {:induction false} GenGrows(env: Env, t: Expr, o: Output)
    requires Gen(env, t, o).Some?
    ensures var o1 := Gen(env, t, o).value; o.pool <= o1.pool && Grows(env, o.globals, o1.globals)
    decreases t, 0
  {
    match t
    case Lit(_) =>
    case Neg(e) => GenGrows(env, e, PushConst(o, I64(0)));
    case Not(e) => GenGrows(env, e, o);
    case Paren(e) => GenGrows(env, e, o);
    case ListLit(items, _) => GenItemsGrows(env, items, |items|, o);
    case MapLit(items, _) => GenItemsGrows(env, items, |items|, o);
    case GetCall(_, _, _, items, _) => GenItemsGrows(env, items, |items|, o);
    case NameCall(_, items, _) => GenItemsGrows(env, items, |items|, o);
    case Var(_) =>
    case Index(base, index) =>
      GenGrows(env, base, o);
      GenGrows(env, index, Gen(env, base, o).value);
    case Bin(_, left, right) =>
      GenGrows(env, left, o);
      GenGrows(env, right, Gen(env, left, o).value);
  }

  lemma {:induction false} GenItemsGrows(env: Env, items: seq<Expr>, n: nat, o: Output)
    requires n <= |items| && GenItems(env, items, n, o).Some?
    ensures var o1 := GenItems(env, items, n, o).value; o.pool <= o1.pool && Grows(env, o.globals, o1.globals)
    decreases items, n
  {
    if n > 0 {
      GenItemsGrows(env, items, n - 1, o);
      GenGrows(env, items[n - 1], GenItems(env, items, n - 1, o).value);
    }
  }

  lemma {:induction false} FindInPrefix(names: seq<string>, more: seq<string>, name: string)
    requires names <= more && name in names
    ensures Find(more, name) == Find(names, name)
  {
    if names[0] != name {
      FindInPrefix(names[1..], more[1..], name);
    }
  }

  /** A name keeps the meaning it was compiled with, whatever is declared later. */
  lemma {:induction false} ResolveIsStable(env: Env, name: string, globals: seq<string>, later: seq<string>)
    requires Declare(env, globals, name) == globals && Grows(env, globals, later)
    ensures Resolve(env, later, name) == Resolve(env, globals, name)
  {
    if name in globals {
      FindInPrefix(globals, later, name);
    }
  }

  // ----- the code computes the tree -----

  /** No call of the builtin that is emitted without a result. */
  ghost predicate NoPrint(env: Env, t: Expr)
    decreases t, 0
  {
    match t
    case Neg(e) => NoPrint(env, e)
    case Not(e) => NoPrint(env, e)
    case Paren(e) => NoPrint(env, e)
    case ListLit(items, _) => NonePrint(env, items, |items|)
    case MapLit(items, _) => NonePrint(env, items, |items|)
    case GetCall(_, _, _, items, _) => NonePrint(env, items, |items|)
    case NameCall(name, items, _) => env.builtin(name) != PRINT_ID && NonePrint(env, items, |items|)
    case Index(base, index) => NoPrint(env, base) && NoPrint(env, index)
    case Bin(_, left, right) => NoPrint(env, left) && NoPrint(env, right)
    case _ => true
  }

  ghost predicate NonePrint(env: Env, items: seq<Expr>, n: nat)
    requires n <= |items|
    decreases items, n
  {
    n == 0 || (NonePrint(env, items, n - 1) && NoPrint(env, items[n - 1]))
  }

  /** Adding `value` to the stack of `c`, and its effects to the state, or failing with it. */
  function Pushed<V, S>(c: Config<V, S>, value: Option<(V, S)>): Option<Config<V, S>> {
    match value
    case None => None
    case Some(r) => Some(Config(c.stack + [r.0], r.1))
  }

  function PushedAll<V, S>(c: Config<V, S>, values: Option<(seq<V>, S)>): Option<Config<V, S>> {
    match values
    case None => None
    case Some(r) => Some(Config(c.stack + r.0, r.1))
  }

  /** The code in `o1` does what the code in `o` does and then pushes the value of `t`. */
  ghost predicate Computes<V, S>(m: Machine<V, S>, env: Env, t: Expr, o: Output, o1: Output,
                                 pool: seq<Const>, globals: seq<string>, c0: Config<V, S>) {
    match Run(m, pool, o.code, c0)
    case None => Run(m, pool, o1.code, c0) == None
    case Some(c) =>
      Run(m, pool, o1.code, c0) == Pushed(c, Eval(m, env, pool, BySlot(m, env, pool, globals), t, c.state))
  }

  ghost predicate ComputesItems<V, S>(m: Machine<V, S>, env: Env, items: seq<Expr>, n: nat, o: Output, o1: Output,
                                      pool: seq<Const>, globals: seq<string>, c0: Config<V, S>)
    requires n <= |items|
  {
    match Run(m, pool, o.code, c0)
    case None => Run(m, pool, o1.code, c0) == None
    case Some(c) =>
      Run(m, pool, o1.code, c0) ==
      PushedAll(c, EvalItems(m, env, pool, BySlot(m, env, pool, globals), items, n, c.state))
  }

  lemma RunEmit<V, S>(m: Machine<V, S>, pool: seq<Const>, o: Output, op: Opcode, a: int, b: int, c: int,
                      c0: Config<V, S>)
    ensures Run(m, pool, Emit(o, op, a, b, c).code, c0) ==
            match Run(m, pool, o.code, c0)
            case None => None
            case Some(c1) => Step(m, pool, Instr(op, a, b, c), c1)
  {
    var code := Emit(o, op, a, b, c).code;
    assert code[..|code| - 1] == o.code;
  }

  lemma RunPushConst<V, S>(m: Machine<V, S>, pool: seq<Const>, o: Output, k: Const, c0: Config<V, S>)
    requires PushConst(o, k).pool <= pool
    ensures Run(m, pool, PushConst(o, k).code, c0) ==
            match Run(m, pool, o.code, c0)
            case None => None
            case Some(c) => Some(Config(c.stack + [m.constant(k)], c.state))
  {
    RunEmit(m, pool, o, PUSH_CONST, |o.pool|, 0, 0, c0);
    assert PushConst(o, k).code == Emit(o, PUSH_CONST, |o.pool|, 0, 0).code;
    assert pool[|o.pool|] == PushConst(o, k).pool[|o.pool|] == k;
  }

  /** Running the code of a print-free tree leaves the stack below untouched and pushes exactly one
      value, the tree's with names worth what their slots hold; it fails exactly when evaluating the
      tree fails. Which variables those are is the subject of ExprVariables. */
  lemma {:induction false} CodeComputesTree<V, S>(m: Machine<V, S>, env: Env, t: Expr, p: int, o: Output,
                                         pool: seq<Const>, globals: seq<string>, c0: Config<V, S>)
    requires Valid(t, p) && Gen(env, t, o).Some? && NoPrint(env, t)
    requires Gen(env, t, o).value.pool <= pool && Grows(env, Gen(env, t, o).value.globals, globals)
    ensures Computes(m, env, t, o, Gen(env, t, o).value, pool, globals, c0)
    decreases t, 1
  {
    match t
    case Lit(tok) => RunPushConst(m, pool, o, Literal(env, tok).value, c0);
    case Neg(_) => CodeComputesNeg(m, env, t, p, o, pool, globals, c0);
    case Not(_) => CodeComputesNot(m, env, t, p, o, pool, globals, c0);
    case Paren(e) => CodeComputesTree(m, env, e, 0, o, pool, globals, c0);
    case ListLit(_, _) => CodeComputesList(m, env, t, p, o, pool, globals, c0);
    case MapLit(_, _) => CodeComputesMap(m, env, t, o, pool, globals, c0);
    case GetCall(_, _, _, _, _) => CodeComputesList(m, env, t, p, o, pool, globals, c0);
    case NameCall(_, _, _) => CodeComputesCall(m, env, t, o, pool, globals, c0);
    case Var(_) => CodeComputesVar(m, env, t, o, pool, globals, c0);
    case Index(_, _) => CodeComputesIndex(m, env, t, p, o, pool, globals, c0);
    case Bin(_, _, _) => CodeComputesBin(m, env, t, p, o, pool, globals, c0);
  }

  lemma StepBinary<V, S>(m: Machine<V, S>, pool: seq<Const>, op: Token, below: seq<V>, x: V, y: V, s: S)
    ensures var (opcode, cmp) := BinaryOpcode(op);
            Step(m, pool, Instr(opcode, cmp, 0, 0), Config(below + [x] + [y], s)) ==
            Push(m.binary(opcode, cmp, x, y), below, s)
  {
    var stack := below + [x] + [y];
    assert stack[..|stack| - 2] == below;
  }

  lemma StepItem<V, S>(m: Machine<V, S>, pool: seq<Const>, below: seq<V>, x: V, y: V, s: S)
    ensures Step(m, pool, Instr(GETITEM, 0, 0, 0), Config(below + [x] + [y], s)) == Push(m.item(x, y), below, s)
  {
    var stack := below + [x] + [y];
    assert stack[..|stack| - 2] == below;
  }

  lemma StepNot<V, S>(m: Machine<V, S>, pool: seq<Const>, below: seq<V>, x: V, s: S)
    ensures Step(m, pool, Instr(BOOL_NOT, 0, 0, 0), Config(below + [x], s)) == Push(m.invert(x), below, s)
  {
    assert (below + [x])[..|below|] == below;
  }

  lemma {:induction false} CodeComputesNeg<V, S>(m: Machine<V, S>, env: Env, t: Expr, p: int, o: Output,
                                         pool: seq<Const>, globals: seq<string>, c0: Config<V, S>)
    requires t.Neg? && Valid(t, p) && Gen(env, t, o).Some? && NoPrint(env, t)
    requires Gen(env, t, o).value.pool <= pool && Grows(env, Gen(env, t, o).value.globals, globals)
    ensures Computes(m, env, t, o, Gen(env, t, o).value, pool, globals, c0)
    decreases t, 0
  {
    var c := Run(m, pool, o.code, c0);
    var zero, e := I64(0), t.operand;
    var o1 := PushConst(o, zero);
    GenGrows(env, e, o1);
    RunPushConst(m, pool, o, zero, c0);
    CodeComputesTree(m, env, e, PRIMARY, o1, pool, globals, c0);
    var o2 := Gen(env, e, o1).value;
    if Run(m, pool, o2.code, c0).None? {
      RunFails(m, pool, o2, SUB, 0, 0, 0, c0);
    } else {
      var v := Eval(m, env, pool, BySlot(m, env, pool, globals), e, c.value.state).value;
      BinaryRun(m, pool, o2, Sym(MINUS), c.value.stack, m.constant(zero), v.0, v.1, c0);
    }
  }

  lemma RunFails<V, S>(m: Machine<V, S>, pool: seq<Const>, o: Output, op: Opcode, a: int, b: int, c: int,
                       c0: Config<V, S>)
    requires Run(m, pool, o.code, c0).None?
    ensures Run(m, pool, Emit(o, op, a, b, c).code, c0).None?
  {
    RunEmit(m, pool, o, op, a, b, c, c0);
  }

  lemma BinaryRun<V, S>(m: Machine<V, S>, pool: seq<Const>, o: Output, op: Token, below: seq<V>, x: V, y: V, s: S,
                        c0: Config<V, S>)
    requires Run(m, pool, o.code, c0) == Some(Config(below + [x] + [y], s))
    ensures var (opcode, cmp) := BinaryOpcode(op);
            Run(m, pool, Emit(o, opcode, cmp, 0, 0).code, c0) == Push(m.binary(opcode, cmp, x, y), below, s)
  {
    var (opcode, cmp) := BinaryOpcode(op);
    RunEmit(m, pool, o, opcode, cmp, 0, 0, c0);
    StepBinary(m, pool, op, below, x, y, s);
  }

  lemma {:induction false} CodeComputesNot<V, S>(m: Machine<V, S>, env: Env, t: Expr, p: int, o: Output,
                                         pool: seq<Const>, globals: seq<string>, c0: Config<V, S>)
    requires t.Not? && Valid(t, p) && Gen(env, t, o).Some? && NoPrint(env, t)
    requires Gen(env, t, o).value.pool <= pool && Grows(env, Gen(env, t, o).value.globals, globals)
    ensures Computes(m, env, t, o, Gen(env, t, o).value, pool, globals, c0)
    decreases t, 0
  {
    var c := Run(m, pool, o.code, c0);
    CodeComputesTree(m, env, t.operand, PRIMARY, o, pool, globals, c0);
    RunEmit(m, pool, Gen(env, t.operand, o).value, BOOL_NOT, 0, 0, 0, c0);
    if c.Some? {
      var v := Eval(m, env, pool, BySlot(m, env, pool, globals), t.operand, c.value.state);
      if v.Some? {
        StepNot(m, pool, c.value.stack, v.value.0, v.value.1);
      }
    }
  }

  /** Two trees in a row push their two values in that order. */
  lemma {:induction false} CodeComputesTwo<V, S>(m: Machine<V, S>, env: Env, a: Expr, b: Expr,
                                                 o: Output, o1: Output, o2: Output,
                                                 pool: seq<Const>, globals: seq<string>, c0: Config<V, S>)
    requires Computes(m, env, a, o, o1, pool, globals, c0) && Computes(m, env, b, o1, o2, pool, globals, c0)
    ensures var c := Run(m, pool, o.code, c0);
            Run(m, pool, o2.code, c0) ==
            if c.None? then None else
            match Eval(m, env, pool, BySlot(m, env, pool, globals), a, c.value.state)
            case None => None
            case Some(x) =>
              match Eval(m, env, pool, BySlot(m, env, pool, globals), b, x.1)
              case None => None
              case Some(y) => Some(Config(c.value.stack + [x.0] + [y.0], y.1))
  {
  }

  lemma {:induction false} CodeComputesIndex<V, S>(m: Machine<V, S>, env: Env, t: Expr, p: int, o: Output,
                                         pool: seq<Const>, globals: seq<string>, c0: Config<V, S>)
    requires t.Index? && Valid(t, p) && Gen(env, t, o).Some? && NoPrint(env, t)
    requires Gen(env, t, o).value.pool <= pool && Grows(env, Gen(env, t, o).value.globals, globals)
    ensures Computes(m, env, t, o, Gen(env, t, o).value, pool, globals, c0)
    decreases t, 0
  {
    var o1 := Gen(env, t.base, o).value;
    var o2 := Gen(env, t.index, o1).value;
    GenGrows(env, t.index, o1);
    CodeComputesTree(m, env, t.base, PRIMARY, o, pool, globals, c0);
    CodeComputesTree(m, env, t.index, 0, o1, pool, globals, c0);
    CodeComputesTwo(m, env, t.base, t.index, o, o1, o2, pool, globals, c0);
    RunEmit(m, pool, o2, GETITEM, 0, 0, 0, c0);
    var c := Run(m, pool, o.code, c0);
    if c.Some? && Run(m, pool, o2.code, c0).Some? {
      var x := Eval(m, env, pool, BySlot(m, env, pool, globals), t.base, c.value.state).value;
      var y := Eval(m, env, pool, BySlot(m, env, pool, globals), t.index, x.1).value;
      StepItem(m, pool, c.value.stack, x.0, y.0, y.1);
    }
  }

  lemma {:induction false} CodeComputesBin<V, S>(m: Machine<V, S>, env: Env, t: Expr, p: int, o: Output,
                                         pool: seq<Const>, globals: seq<string>, c0: Config<V, S>)
    requires t.Bin? && Valid(t, p) && Gen(env, t, o).Some? && NoPrint(env, t)
    requires Gen(env, t, o).value.pool <= pool && Grows(env, Gen(env, t, o).value.globals, globals)
    ensures Computes(m, env, t, o, Gen(env, t, o).value, pool, globals, c0)
    decreases t, 0
  {
    var o1 := Gen(env, t.left, o).value;
    var o2 := Gen(env, t.right, o1).value;
    var (opcode, cmp) := BinaryOpcode(t.op);
    GenGrows(env, t.right, o1);
    CodeComputesTree(m, env, t.left, Precedence(t.op), o, pool, globals, c0);
    CodeComputesTree(m, env, t.right, Precedence(t.op) + 1, o1, pool, globals, c0);
    CodeComputesTwo(m, env, t.left, t.right, o, o1, o2, pool, globals, c0);
    RunEmit(m, pool, o2, opcode, cmp, 0, 0, c0);
    var c := Run(m, pool, o.code, c0);
    if c.Some? && Run(m, pool, o2.code, c0).Some? {
      var x := Eval(m, env, pool, BySlot(m, env, pool, globals), t.left, c.value.state).value;
      var y := Eval(m, env, pool, BySlot(m, env, pool, globals), t.right, x.1).value;
      StepBinary(m, pool, t.op, c.value.stack, x.0, y.0, y.1);
    }
  }

  lemma {:induction false} CodeComputesList<V, S>(m: Machine<V, S>, env: Env, t: Expr, p: int, o: Output,
                                         pool: seq<Const>, globals: seq<string>, c0: Config<V, S>)
    requires (t.ListLit? || t.GetCall?) && Valid(t, p) && Gen(env, t, o).Some? && NoPrint(env, t)
    requires Gen(env, t, o).value.pool <= pool && Grows(env, Gen(env, t, o).value.globals, globals)
    ensures Computes(m, env, t, o, Gen(env, t, o).value, pool, globals, c0)
    decreases t, 0
  {
    var n := |t.items|;
    CodeComputesItems(m, env, t.items, n, o, pool, globals, c0);
    var o1 := GenItems(env, t.items, n, o).value;
    if t.ListLit? {
      RunEmit(m, pool, o1, BUILD_LIST, n, 0, 0, c0);
    } else {
      RunEmit(m, pool, o1, SYSCALL, env.builtin(t.name), n, 1, c0);
    }
    var c := Run(m, pool, o.code, c0);
    if c.Some? {
      var r := EvalItems(m, env, pool, BySlot(m, env, pool, globals), t.items, n, c.value.state);
      if r.Some? {
        StepList(m, pool, c.value.stack, r.value.0, r.value.1);
        if t.GetCall? {
          StepSyscall(m, pool, env.builtin(t.name), c.value.stack, r.value.0, r.value.1);
        }
      }
    }
  }

  lemma StepList<V, S>(m: Machine<V, S>, pool: seq<Const>, below: seq<V>, items: seq<V>, s: S)
    ensures Step(m, pool, Instr(BUILD_LIST, |items|, 0, 0), Config(below + items, s)) ==
            Some(Config(below + [m.list(items)], s))
  {
    assert (below + items)[|below|..] == items;
    assert (below + items)[..|below|] == below;
  }

  lemma {:induction false} CodeComputesMap<V, S>(m: Machine<V, S>, env: Env, t: Expr, o: Output,
                                                 pool: seq<Const>, globals: seq<string>, c0: Config<V, S>)
    requires t.MapLit? && AllValid(t.items, |t.items|) && |t.items| % 2 == 0 && Gen(env, t, o).Some? && NoPrint(env, t)
    requires Gen(env, t, o).value.pool <= pool && Grows(env, Gen(env, t, o).value.globals, globals)
    ensures Computes(m, env, t, o, Gen(env, t, o).value, pool, globals, c0)
    decreases t, 0
  {
    var n := |t.items|;
    CodeComputesItems(m, env, t.items, n, o, pool, globals, c0);
    RunEmit(m, pool, GenItems(env, t.items, n, o).value, BUILD_MAP, n / 2, 0, 0, c0);
    var c := Run(m, pool, o.code, c0);
    if c.Some? {
      var r := EvalItems(m, env, pool, BySlot(m, env, pool, globals), t.items, n, c.value.state);
      if r.Some? {
        StepMap(m, pool, c.value.stack, r.value.0, r.value.1);
      }
    }
  }

  lemma StepMap<V, S>(m: Machine<V, S>, pool: seq<Const>, below: seq<V>, items: seq<V>, s: S)
    requires |items| % 2 == 0
    ensures Step(m, pool, Instr(BUILD_MAP, |items| / 2, 0, 0), Config(below + items, s)) ==
            Push(m.dictionary(items), below, s)
  {
    assert (below + items)[|below|..] == items;
    assert (below + items)[..|below|] == below;
  }

  lemma StepSyscall<V, S>(m: Machine<V, S>, pool: seq<Const>, id: int, below: seq<V>, args: seq<V>, s: S)
    ensures Step(m, pool, Instr(SYSCALL, id, |args|, 1), Config(below + args, s)) ==
            match m.syscall(id, args, s)
            case None => None
            case Some(r) => Some(Config(below + [r.0], r.1))
  {
    assert (below + args)[|below|..] == args;
    assert (below + args)[..|below|] == below;
  }

  lemma StepCall<V, S>(m: Machine<V, S>, pool: seq<Const>, fn: V, below: seq<V>, args: seq<V>, s: S)
    ensures Step(m, pool, Instr(CALL, |args|, 0, 0), Config(below + args + [fn], s)) ==
            match m.call(fn, args, s)
            case None => None
            case Some(r) => Some(Config(below + [r.0], r.1))
  {
    var stack := below + args + [fn];
    assert stack[|below|..|below| + |args|] == args;
    assert stack[..|below|] == below;
  }

  lemma {:induction false} CodeComputesCall<V, S>(m: Machine<V, S>, env: Env, t: Expr, o: Output,
                                                  pool: seq<Const>, globals: seq<string>, c0: Config<V, S>)
    requires t.NameCall? && AllValid(t.items, |t.items|) && Gen(env, t, o).Some? && NoPrint(env, t)
    requires Gen(env, t, o).value.pool <= pool && Grows(env, Gen(env, t, o).value.globals, globals)
    ensures Computes(m, env, t, o, Gen(env, t, o).value, pool, globals, c0)
    decreases t, 0
  {
    var n := |t.items|;
    CodeComputesItems(m, env, t.items, n, o, pool, globals, c0);
    var o1 := GenItems(env, t.items, n, o).value;
    var id := env.builtin(t.name);
    if id != 0 {
      RunEmit(m, pool, o1, SYSCALL, id, n, 1, c0);
    } else {
      var k := Callee(env, t.name).value;
      RunEmit(m, pool, o1, PUSH_CONST, k, 0, 0, c0);
      RunEmit(m, pool, Emit(o1, PUSH_CONST, k, 0, 0), CALL, n, 0, 0, c0);
    }
    var c := Run(m, pool, o.code, c0);
    if c.Some? {
      var r := EvalItems(m, env, pool, BySlot(m, env, pool, globals), t.items, n, c.value.state);
      if r.Some? {
        StepSyscall(m, pool, id, c.value.stack, r.value.0, r.value.1);
        if id == 0 && Callee(env, t.name).value < |pool| {
          StepCall(m, pool, m.constant(pool[Callee(env, t.name).value]), c.value.stack, r.value.0, r.value.1);
        }
      }
    }
  }

  lemma {:induction false} CodeComputesVar<V, S>(m: Machine<V, S>, env: Env, t: Expr, o: Output,
                                                 pool: seq<Const>, globals: seq<string>, c0: Config<V, S>)
    requires t.Var? && Gen(env, t, o).Some?
    requires Grows(env, Gen(env, t, o).value.globals, globals)
    ensures Computes(m, env, t, o, Gen(env, t, o).value, pool, globals, c0)
    decreases t, 0
  {
    var o1 := o.(globals := Declare(env, o.globals, t.name));
    ResolveIsStable(env, t.name, o1.globals, globals);
    match Resolve(env, o1.globals, t.name)
    case Slot(k) => RunEmit(m, pool, o1, LOAD_LOCAL, k, 0, 0, c0);
    case Function(k) =>
      RunEmit(m, pool, o1, PUSH_CONST, k, 0, 0, c0);
      assert forall s :: BySlot(m, env, pool, globals)(t.name, s) == Constant(m, pool, k);
  }

  lemma {:induction false} CodeComputesItems<V, S>(m: Machine<V, S>, env: Env, items: seq<Expr>, n: nat, o: Output,
                                                   pool: seq<Const>, globals: seq<string>, c0: Config<V, S>)
    requires n <= |items| && AllValid(items, n) && GenItems(env, items, n, o).Some? && NonePrint(env, items, n)
    requires GenItems(env, items, n, o).value.pool <= pool &&
             Grows(env, GenItems(env, items, n, o).value.globals, globals)
    ensures ComputesItems(m, env, items, n, o, GenItems(env, items, n, o).value, pool, globals, c0)
    decreases items, n
  {
    if n == 0 {
      var c := Run(m, pool, o.code, c0);
      assert c.Some? ==> c.value.stack + [] == c.value.stack;
    } else {
      var o1 := GenItems(env, items, n - 1, o).value;
      GenGrows(env, items[n - 1], o1);
      CodeComputesItems(m, env, items, n - 1, o, pool, globals, c0);
      CodeComputesTree(m, env, items[n - 1], 0, o1, pool, globals, c0);
      var c := Run(m, pool, o.code, c0);
      if c.Some? && EvalItems(m, env, pool, BySlot(m, env, pool, globals), items, n, c.value.state).Some? {
        var before := EvalItems(m, env, pool, BySlot(m, env, pool, globals), items, n - 1, c.value.state).value;
        var last := Eval(m, env, pool, BySlot(m, env, pool, globals), items[n - 1], before.1).value;
        assert c.value.stack + before.0 + [last.0] == c.value.stack + (before.0 + [last.0]);
      }
    }
  }

  /** For every text the compiler accepts whose tree calls no `print`: its code, run from any stack
      and state, pushes the tree's value by slots and nothing else. */
  lemma {:induction false} CompiledTreePushesItsValue<V, S>(m: Machine<V, S>, env: Env, t: Expr, pool: seq<Const>,
                                                            globals: seq<string>, stack: seq<V>, s: S)
    requires Valid(t, 0) && NoPrint(env, t) && Gen(env, t, Output([], pool, globals)).Some?
    ensures var o := Gen(env, t, Output([], pool, globals)).value;
            Run(m, o.pool, o.code, Config(stack, s)) ==
            Pushed(Config(stack, s), Eval(m, env, o.pool, BySlot(m, env, o.pool, o.globals), t, s))
  {
    var o := Gen(env, t, Output([], pool, globals)).value;
    CodeComputesTree(m, env, t, 0, Output([], pool, globals), o.pool, o.globals, Config(stack, s));
  }

  // ----- the one exception: `print` pushes nothing -----

  /** How many calls in the tree leave no result. */
  ghost function Prints(env: Env, t: Expr): (r: nat)
    ensures r == 0 <==> NoPrint(env, t)
    decreases t, 0
  {
    match t
    case Neg(e) => Prints(env, e)
    case Not(e) => Prints(env, e)
    case Paren(e) => Prints(env, e)
    case ListLit(items, _) => PrintsIn(env, items, |items|)
    case MapLit(items, _) => PrintsIn(env, items, |items|)
    case GetCall(_, _, _, items, _) => PrintsIn(env, items, |items|)
    case NameCall(name, items, _) => (if env.builtin(name) == PRINT_ID then 1 else 0) + PrintsIn(env, items, |items|)
    case Index(base, index) => Prints(env, base) + Prints(env, index)
    case Bin(_, left, right) => Prints(env, left) + Prints(env, right)
    case _ => 0
  }

  ghost function PrintsIn(env: Env, items: seq<Expr>, n: nat): (r: nat)
    requires n <= |items|
    ensures r == 0 <==> NonePrint(env, items, n)
    decreases items, n
  {
    if n == 0 then 0 else PrintsIn(env, items, n - 1) + Prints(env, items[n - 1])
  }

  /** A successful run of `o1` went through `o`, and the stack is `delta` higher at its end. */
  ghost predicate Deeper<V, S>(m: Machine<V, S>, pool: seq<Const>, o: Output, o1: Output, delta: int,
                               c0: Config<V, S>)
  {
    var after := Run(m, pool, o1.code, c0);
    after.Some? ==>
      var before := Run(m, pool, o.code, c0);
      before.Some? && |after.value.stack| == |before.value.stack| + delta
  }

  lemma EmitDepth<V, S>(m: Machine<V, S>, pool: seq<Const>, o: Output, i: Instr, c0: Config<V, S>)
    ensures Deeper(m, pool, o, Emit(o, i.op, i.a, i.b, i.c), Delta(i), c0)
  {
    RunEmit(m, pool, o, i.op, i.a, i.b, i.c, c0);
    var c := Run(m, pool, o.code, c0);
    if c.Some? && Step(m, pool, i, c.value).Some? {
      StepDepth(m, pool, i, c.value);
    }
  }

  lemma StepDepth<V, S>(m: Machine<V, S>, pool: seq<Const>, i: Instr, c: Config<V, S>)
    requires Step(m, pool, i, c).Some?
    ensures |Step(m, pool, i, c).value.stack| == |c.stack| + Delta(i)
  {
    match i.op
    case PUSH_CONST =>
    case LOAD_LOCAL =>
    case GETITEM =>
    case BOOL_NOT =>
    case BUILD_LIST =>
    case BUILD_MAP =>
    case SYSCALL =>
    case CALL =>
    case _ =>
  }

  function Delta(i: Instr): int {
    match i.op
    case PUSH_CONST => 1
    case LOAD_LOCAL => 1
    case BOOL_NOT => 0
    case BUILD_LIST => 1 - i.a
    case BUILD_MAP => 1 - 2 * i.a
    case SYSCALL => (if i.c != 0 then 1 else 0) - i.b
    case CALL => -i.a
    case _ => -1
  }

  lemma {:induction false} TreeDepth<V, S>(m: Machine<V, S>, env: Env, t: Expr, p: int, o: Output,
                                           pool: seq<Const>, c0: Config<V, S>)
    requires Valid(t, p) && Gen(env, t, o).Some?
    ensures Deeper(m, pool, o, Gen(env, t, o).value, 1 - Prints(env, t), c0)
    decreases t, 1
  {
    match t
    case Lit(_) => EmitDepth(m, pool, o, Instr(PUSH_CONST, |o.pool|, 0, 0), c0);
    case Neg(_) => NegDepth(m, env, t, p, o, pool, c0);
    case Not(_) => NotDepth(m, env, t, p, o, pool, c0);
    case Paren(e) => TreeDepth(m, env, e, 0, o, pool, c0);
    case Var(name) => VarDepth(m, env, name, o, pool, c0);
    case Index(_, _) => IndexDepth(m, env, t, p, o, pool, c0);
    case Bin(_, _, _) => BinDepth(m, env, t, p, o, pool, c0);
    case _ => CollectionDepth(m, env, t, p, o, pool, c0);
  }

  lemma {:induction false} NegDepth<V, S>(m: Machine<V, S>, env: Env, t: Expr, p: int, o: Output,
                                          pool: seq<Const>, c0: Config<V, S>)
    requires t.Neg? && Valid(t, p) && Gen(env, t, o).Some?
    ensures Deeper(m, pool, o, Gen(env, t, o).value, 1 - Prints(env, t), c0)
    decreases t, 0
  {
    var o1 := PushConst(o, I64(0));
    EmitDepth(m, pool, o, Instr(PUSH_CONST, |o.pool|, 0, 0), c0);
    TreeDepth(m, env, t.operand, PRIMARY, o1, pool, c0);
    EmitDepth(m, pool, Gen(env, t.operand, o1).value, Instr(SUB, 0, 0, 0), c0);
  }

  lemma {:induction false} NotDepth<V, S>(m: Machine<V, S>, env: Env, t: Expr, p: int, o: Output,
                                          pool: seq<Const>, c0: Config<V, S>)
    requires t.Not? && Valid(t, p) && Gen(env, t, o).Some?
    ensures Deeper(m, pool, o, Gen(env, t, o).value, 1 - Prints(env, t), c0)
    decreases t, 0
  {
    TreeDepth(m, env, t.operand, PRIMARY, o, pool, c0);
    EmitDepth(m, pool, Gen(env, t.operand, o).value, Instr(BOOL_NOT, 0, 0, 0), c0);
  }

  lemma {:induction false} IndexDepth<V, S>(m: Machine<V, S>, env: Env, t: Expr, p: int, o: Output,
                                           pool: seq<Const>, c0: Config<V, S>)
    requires t.Index? && Valid(t, p) && Gen(env, t, o).Some?
    ensures Deeper(m, pool, o, Gen(env, t, o).value, 1 - Prints(env, t), c0)
    decreases t, 0
  {
    var o1 := Gen(env, t.base, o).value;
    TreeDepth(m, env, t.base, PRIMARY, o, pool, c0);
    TreeDepth(m, env, t.index, 0, o1, pool, c0);
    EmitDepth(m, pool, Gen(env, t.index, o1).value, Instr(GETITEM, 0, 0, 0), c0);
  }

  lemma {:induction false} BinDepth<V, S>(m: Machine<V, S>, env: Env, t: Expr, p: int, o: Output,
                                           pool: seq<Const>, c0: Config<V, S>)
    requires t.Bin? && Valid(t, p) && Gen(env, t, o).Some?
    ensures Deeper(m, pool, o, Gen(env, t, o).value, 1 - Prints(env, t), c0)
    decreases t, 0
  {
    var o1 := Gen(env, t.left, o).value;
    TreeDepth(m, env, t.left, Precedence(t.op), o, pool, c0);
    TreeDepth(m, env, t.right, Precedence(t.op) + 1, o1, pool, c0);
    var i := Instr(BinaryOpcode(t.op).0, BinaryOpcode(t.op).1, 0, 0);
    BinaryDelta(t.op);
    EmitDepth(m, pool, Gen(env, t.right, o1).value, i, c0);
  }

  lemma BinaryDelta(op: Token)
    ensures Delta(Instr(BinaryOpcode(op).0, BinaryOpcode(op).1, 0, 0)) == -1
  {
  }

  lemma {:induction false} CollectionDepth<V, S>(m: Machine<V, S>, env: Env, t: Expr, p: int, o: Output,
                                           pool: seq<Const>, c0: Config<V, S>)
    requires (t.ListLit? || t.MapLit? || t.GetCall? || t.NameCall?) && Valid(t, p) && Gen(env, t, o).Some?
    ensures Deeper(m, pool, o, Gen(env, t, o).value, 1 - Prints(env, t), c0)
    decreases t, 0, 1
  {
    var n := |t.items|;
    match t
    case ListLit(items, _) => BuildDepth(m, env, items, o, Instr(BUILD_LIST, n, 0, 0), pool, c0);
    case MapLit(items, _) => BuildDepth(m, env, items, o, Instr(BUILD_MAP, n / 2, 0, 0), pool, c0);
    case GetCall(_, name, _, items, _) =>
      BuildDepth(m, env, items, o, Instr(SYSCALL, env.builtin(name), n, 1), pool, c0);
    case NameCall(_, _, _) => NameCallDepth(m, env, t, p, o, pool, c0);
  }

  lemma {:induction false} NameCallDepth<V, S>(m: Machine<V, S>, env: Env, t: Expr, p: int, o: Output,
                                           pool: seq<Const>, c0: Config<V, S>)
    requires t.NameCall? && Valid(t, p) && Gen(env, t, o).Some?
    ensures Deeper(m, pool, o, Gen(env, t, o).value, 1 - Prints(env, t), c0)
    decreases t, 0, 0
  {
    var n := |t.items|;
    ItemsDepth(m, env, t.items, n, o, pool, c0);
    CallDepth(m, env, t.name, n, GenItems(env, t.items, n, o).value, pool, c0);
  }

  lemma {:induction false} BuildDepth<V, S>(m: Machine<V, S>, env: Env, items: seq<Expr>, o: Output, i: Instr,
                                            pool: seq<Const>, c0: Config<V, S>)
    requires AllValid(items, |items|) && GenItems(env, items, |items|, o).Some? && Delta(i) == 1 - |items|
    ensures var o1 := GenItems(env, items, |items|, o).value;
            Deeper(m, pool, o, Emit(o1, i.op, i.a, i.b, i.c), 1 - PrintsIn(env, items, |items|), c0)
    decreases items, |items| + 1
  {
    ItemsDepth(m, env, items, |items|, o, pool, c0);
    EmitDepth(m, pool, GenItems(env, items, |items|, o).value, i, c0);
  }

  lemma {:induction false} CallDepth<V, S>(m: Machine<V, S>, env: Env, name: string, argc: nat, o: Output,
                                           pool: seq<Const>, c0: Config<V, S>)
    requires GenCall(env, name, argc, o).Some?
    ensures Deeper(m, pool, o, GenCall(env, name, argc, o).value,
                   (if env.builtin(name) == PRINT_ID then 0 else 1) - argc, c0)
  {
    var id := env.builtin(name);
    if id != 0 {
      var i := Instr(SYSCALL, id, argc, if id == PRINT_ID then 0 else 1);
      assert GenCall(env, name, argc, o).value == Emit(o, i.op, i.a, i.b, i.c);
      assert Delta(i) == (if id == PRINT_ID then 0 else 1) - argc;
      EmitDepth(m, pool, o, i, c0);
    } else {
      var k := Callee(env, name).value;
      assert GenCall(env, name, argc, o).value == Emit(Emit(o, PUSH_CONST, k, 0, 0), CALL, argc, 0, 0);
      FunctionCallDepth(m, env, k, argc, o, pool, c0);
    }
  }

  lemma {:induction false} FunctionCallDepth<V, S>(m: Machine<V, S>, env: Env, k: nat, argc: nat, o: Output,
                                                   pool: seq<Const>, c0: Config<V, S>)
    ensures Deeper(m, pool, o, Emit(Emit(o, PUSH_CONST, k, 0, 0), CALL, argc, 0, 0), 1 - argc, c0)
  {
    EmitDepth(m, pool, o, Instr(PUSH_CONST, k, 0, 0), c0);
    EmitDepth(m, pool, Emit(o, PUSH_CONST, k, 0, 0), Instr(CALL, argc, 0, 0), c0);
  }

  lemma {:induction false} VarDepth<V, S>(m: Machine<V, S>, env: Env, name: string, o: Output, pool: seq<Const>,
                                          c0: Config<V, S>)
    requires GenVar(env, name, o).Some?
    ensures Deeper(m, pool, o, GenVar(env, name, o).value, 1, c0)
  {
    var o1 := o.(globals := Declare(env, o.globals, name));
    match Resolve(env, o1.globals, name)
    case Slot(k) => EmitDepth(m, pool, o1, Instr(LOAD_LOCAL, k, 0, 0), c0);
    case Function(k) => EmitDepth(m, pool, o1, Instr(PUSH_CONST, k, 0, 0), c0);
  }

  lemma {:induction false} ItemsDepth<V, S>(m: Machine<V, S>, env: Env, items: seq<Expr>, n: nat, o: Output,
                                            pool: seq<Const>, c0: Config<V, S>)
    requires n <= |items| && AllValid(items, n) && GenItems(env, items, n, o).Some?
    ensures Deeper(m, pool, o, GenItems(env, items, n, o).value, n - PrintsIn(env, items, n), c0)
    decreases items, n
  {
    if n > 0 {
      ItemsDepth(m, env, items, n - 1, o, pool, c0);
      TreeDepth(m, env, items[n - 1], 0, GenItems(env, items, n - 1, o).value, pool, c0);
    }
  }

  /** A run that gets to its end raises the stack by one if and only if the tree calls no `print`. */
  lemma {:induction false} OneValueExactlyWithoutPrint<V, S>(m: Machine<V, S>, env: Env, t: Expr, pool: seq<Const>,
                                                             globals: seq<string>, stack: seq<V>, s: S)
    requires Valid(t, 0) && Gen(env, t, Output([], pool, globals)).Some?
    requires var o := Gen(env, t, Output([], pool, globals)).value; Run(m, o.pool, o.code, Config(stack, s)).Some?
    ensures var o := Gen(env, t, Output([], pool, globals)).value;
            |Run(m, o.pool, o.code, Config(stack, s)).value.stack| == |stack| + 1 <==> NoPrint(env, t)
  {
    var o := Gen(env, t, Output([], pool, globals)).value;
    TreeDepth(m, env, t, 0, Output([], pool, globals), o.pool, Config(stack, s));
  }

  /** The smallest exception: a call of `print` without arguments compiles, and its code leaves the
      stack as it found it. */
  lemma PrintLeavesNoValue<V, S>(m: Machine<V, S>, env: Env, name: string, pool: seq<Const>, globals: seq<string>,
                                 stack: seq<V>, s: S)
    requires name !in RESERVED && env.builtin(name) == PRINT_ID && m.syscall(PRINT_ID, [], s).Some?
    ensures var t, o := NameCall(name, [], false), Output([], pool, globals);
            Valid(t, 0) && Gen(env, t, o) == Some(Emit(o, SYSCALL, PRINT_ID, 0, 0)) &&
            Run(m, pool, Emit(o, SYSCALL, PRINT_ID, 0, 0).code, Config(stack, s)) ==
            Some(Config(stack, m.syscall(PRINT_ID, [], s).value.1))
  {
    var o := Output([], pool, globals);
    RunEmit(m, pool, o, SYSCALL, PRINT_ID, 0, 0, Config(stack, s));
    assert stack[..|stack|] + [] == stack;
    assert GenItems(env, [], 0, o) == Some(o);
  }
}
