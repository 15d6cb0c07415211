/** Which variable a name means, and when the emitted code reads that variable.

    A name is local, else global. The instruction it is compiled to keeps the slot and forgets the
    scope: inside a function a local and a global at equal indexes compile alike. */
module ExprVariables {
  import opened Lexer
  import opened ExprSyntax
  import opened ExprMachine
  import opened Options

  datatype Variable = Local(name: string) | Global(name: string)

  function Locals(env: Env): seq<string> {
    if env.locals.Some? then env.locals.value else []
  }

  predicate IsLocal(env: Env, name: string) { name in Locals(env) }

  predicate IsGlobal(env: Env, globals: seq<string>, name: string) { name in globals && !IsLocal(env, name) }

  // ----- names that share a slot -----

  /** A local and a global that is not a local stand at equal indexes of their tables. */
  predicate Crosses(env: Env, globals: seq<string>, a: string, b: string) {
    IsLocal(env, a) && IsGlobal(env, globals, b) && Find(Locals(env), a) == Find(globals, b)
  }

  /** Two names resolve to one slot exactly so. */
  lemma SharedSlotExactly(env: Env, globals: seq<string>, a: string, b: string)
    requires a != b && Resolve(env, globals, a).Slot? && Resolve(env, globals, b).Slot?
    ensures Resolve(env, globals, a) == Resolve(env, globals, b) <==>
            Crosses(env, globals, a, b) || Crosses(env, globals, b, a)
  {
  }

  /** At top level every variable has a slot of its own. */
  lemma TopLevelSlotsDiffer(env: Env, globals: seq<string>, a: string, b: string)
    requires env.locals.None? && a != b && Resolve(env, globals, a).Slot? && Resolve(env, globals, b).Slot?
    ensures Resolve(env, globals, a) != Resolve(env, globals, b)
  {
    SharedSlotExactly(env, globals, a, b);
  }

  /** And then, only then, two variables in scope compile to the same code. */
  lemma SameCodeExactly(env: Env, o: Output, a: string, b: string)
    requires a != b && Resolve(env, o.globals, a).Slot? && Resolve(env, o.globals, b).Slot?
    ensures Gen(env, Var(a), o) == Gen(env, Var(b), o) <==>
            Crosses(env, o.globals, a, b) || Crosses(env, o.globals, b, a)
  {
    SharedSlotExactly(env, o.globals, a, b);
    LoadEmitted(env, o, a);
    LoadEmitted(env, o, b);
  }

  lemma LoadEmitted(env: Env, o: Output, name: string)
    requires Resolve(env, o.globals, name).Slot?
    ensures var o1 := Gen(env, Var(name), o);
            o1 == Some(Emit(o, LOAD_LOCAL, Resolve(env, o.globals, name).slot, 0, 0)) &&
            o1.value.code[|o.code|] == Instr(LOAD_LOCAL, Resolve(env, o.globals, name).slot, 0, 0)
  {
    assert Declare(env, o.globals, name) == o.globals;
  }

  /** The smallest case: in a function with the local `a`, a program with the global `g`. */
  lemma LocalAndGlobalCompileAlike(env: Env, o: Output)
    requires env.locals == Some(["a"]) && o.globals == ["g"]
    ensures Gen(env, Var("a"), o) == Gen(env, Var("g"), o) == Some(Emit(o, LOAD_LOCAL, 0, 0, 0))
  {
    assert "g" != "a";
    assert Find(["a"], "a") == Some(0) && Find(["g"], "g") == Some(0);
    LoadEmitted(env, o, "a");
    LoadEmitted(env, o, "g");
  }

  // ----- the value of a tree by variables -----

  /** A name is worth what its variable holds; the name of a function is that function. */
  function ByVariable<V, S>(look: (Variable, S) -> Option<V>, m: Machine<V, S>, env: Env, pool: seq<Const>,
                            globals: seq<string>): ExprMachine.Names<V, S>
  {
    (name: string, s: S) =>
      if IsLocal(env, name) then look(Local(name), s)
      else if name in globals then look(Global(name), s)
      else
        match env.function_(name)
        case Some(k) => Constant(m, pool, k)
        case None => None
  }

  /** The frame holds each local in its slot, and behind the locals each global in its own. A global
      whose slot is a local's cannot be there. */
  ghost predicate Stored<V, S(!new)>(m: Machine<V, S>, look: (Variable, S) -> Option<V>, env: Env,
                                     globals: seq<string>)
  {
    forall name, s {:trigger StoredAt(m, look, env, globals, name, s)} :: StoredAt(m, look, env, globals, name, s)
  }

  ghost predicate StoredAt<V, S>(m: Machine<V, S>, look: (Variable, S) -> Option<V>, env: Env, globals: seq<string>,
                                 name: string, s: S)
  {
    (IsLocal(env, name) ==> m.load(s, Find(Locals(env), name).value) == look(Local(name), s)) &&
    (IsGlobal(env, globals, name) && !Covered(env, globals, name) ==>
       m.load(s, Find(globals, name).value) == look(Global(name), s))
  }

  /** A global whose slot is one of the locals'. */
  predicate Covered(env: Env, globals: seq<string>, name: string) {
    IsGlobal(env, globals, name) && Find(globals, name).value < |Locals(env)|
  }

  /** A name a function does not know becomes a new global, which is covered exactly while there are
      fewer globals than locals. */
  lemma NewGlobalCoveredExactly(env: Env, o: Output, name: string)
    requires env.locals.Some? && name !in Locals(env) && name !in o.globals && |o.globals| < 256
    ensures var o1 := Gen(env, Var(name), o);
            && o1 == Some(Emit(o.(globals := o.globals + [name]), LOAD_LOCAL, |o.globals|, 0, 0))
            && (Covered(env, o1.value.globals, name) <==> |o.globals| < |Locals(env)|)
  {
    FindLast(o.globals, name);
  }

  /** With 256 globals, and at top level, nothing is declared: such a name is a function or unknown. */
  lemma NothingDeclared(env: Env, o: Output, name: string)
    requires name !in Locals(env) && name !in o.globals && (env.locals.None? || |o.globals| >= 256)
    ensures Gen(env, Var(name), o) ==
            if env.function_(name).Some? then Some(Emit(o, PUSH_CONST, env.function_(name).value, 0, 0)) else None
  {
    assert Find(o.globals, name) == None;
  }

  lemma {:induction false} FindLast(names: seq<string>, name: string)
    requires name !in names
    ensures Find(names + [name], name) == Some(|names|)
  {
    if names != [] {
      assert (names + [name])[1..] == names[1..] + [name];
      FindLast(names[1..], name);
    }
  }

  /** The names a tree reads as variables or functions. */
  ghost function Reads(t: Expr): set<string>
    decreases t, 0
  {
    match t
    case Lit(_) => {}
    case Neg(e) => Reads(e)
    case Not(e) => Reads(e)
    case Paren(e) => Reads(e)
    case ListLit(items, _) => ReadsIn(items, |items|)
    case MapLit(items, _) => ReadsIn(items, |items|)
    case GetCall(_, _, _, items, _) => ReadsIn(items, |items|)
    case NameCall(_, items, _) => ReadsIn(items, |items|)
    case Var(name) => {name}
    case Index(base, index) => Reads(base) + Reads(index)
    case Bin(_, left, right) => Reads(left) + Reads(right)
  }

  ghost function ReadsIn(items: seq<Expr>, n: nat): set<string>
    requires n <= |items|
    decreases items, n
  {
    if n == 0 then {} else ReadsIn(items, n - 1) + Reads(items[n - 1])
  }

  ghost predicate ReadsCovered(env: Env, globals: seq<string>, t: Expr) {
    exists name :: name in Reads(t) && Covered(env, globals, name)
  }

  ghost predicate Agree<V, S(!new)>(a: ExprMachine.Names<V, S>, b: ExprMachine.Names<V, S>, names: set<string>) {
    forall name, s {:trigger a(name, s)} :: name in names ==> a(name, s) == b(name, s)
  }

  /** Only the names a tree reads matter to its value. */
  lemma {:induction false} AgreeingNames<V, S(!new)>(m: Machine<V, S>, env: Env, pool: seq<Const>,
                                                     a: ExprMachine.Names<V, S>, b: ExprMachine.Names<V, S>,
                                                     t: Expr, s: S)
    requires Agree(a, b, Reads(t))
    ensures Eval(m, env, pool, a, t, s) == Eval(m, env, pool, b, t, s)
    decreases t, 0
  {
    match t
    case Lit(_) =>
    case Neg(e) => AgreeingNames(m, env, pool, a, b, e, s);
    case Not(e) => AgreeingNames(m, env, pool, a, b, e, s);
    case Paren(e) => AgreeingNames(m, env, pool, a, b, e, s);
    case ListLit(items, _) => AgreeingItems(m, env, pool, a, b, items, |items|, s);
    case MapLit(items, _) => AgreeingItems(m, env, pool, a, b, items, |items|, s);
    case GetCall(_, _, _, items, _) => AgreeingItems(m, env, pool, a, b, items, |items|, s);
    case NameCall(_, items, _) => AgreeingItems(m, env, pool, a, b, items, |items|, s);
    case Var(_) =>
    case Index(base, index) =>
      AgreeingNames(m, env, pool, a, b, base, s);
      var r := Eval(m, env, pool, a, base, s);
      if r.Some? {
        AgreeingNames(m, env, pool, a, b, index, r.value.1);
      }
    case Bin(_, left, right) =>
      AgreeingNames(m, env, pool, a, b, left, s);
      var r := Eval(m, env, pool, a, left, s);
      if r.Some? {
        AgreeingNames(m, env, pool, a, b, right, r.value.1);
      }
  }

  lemma {:induction false} AgreeingItems<V, S(!new)>(m: Machine<V, S>, env: Env, pool: seq<Const>,
                                                     a: ExprMachine.Names<V, S>, b: ExprMachine.Names<V, S>,
                                                     items: seq<Expr>, n: nat, s: S)
    requires n <= |items| && Agree(a, b, ReadsIn(items, n))
    ensures EvalItems(m, env, pool, a, items, n, s) == EvalItems(m, env, pool, b, items, n, s)
    decreases items, n
  {
    if n > 0 {
      AgreeingItems(m, env, pool, a, b, items, n - 1, s);
      var r := EvalItems(m, env, pool, a, items, n - 1, s);
      if r.Some? {
        AgreeingNames(m, env, pool, a, b, items[n - 1], r.value.1);
      }
    }
  }

  lemma SlotHoldsVariable<V, S(!new)>(m: Machine<V, S>, look: (Variable, S) -> Option<V>, env: Env, pool: seq<Const>,
                                      globals: seq<string>, name: string, s: S)
    requires Stored(m, look, env, globals) && !Covered(env, globals, name)
    ensures BySlot(m, env, pool, globals)(name, s) == ByVariable(look, m, env, pool, globals)(name, s)
  {
    assert StoredAt(m, look, env, globals, name, s);
    if IsLocal(env, name) {
      assert Resolve(env, globals, name) == Slot(Find(Locals(env), name).value);
    } else if name in globals {
      assert Resolve(env, globals, name) == Slot(Find(globals, name).value);
    } else {
      var function_ := env.function_(name);
      assert Resolve(env, globals, name) == if function_.Some? then Function(function_.value) else Unknown;
    }
  }

  /** A tree that reads no covered global: its code, run from any stack in any machine that holds the
      variables where they can be held, pushes the value of the tree by variables. */
  lemma {:induction false} CodeReadsVariables<V, S(!new)>(m: Machine<V, S>, look: (Variable, S) -> Option<V>, env: Env,
                                                          t: Expr, pool: seq<Const>, globals: seq<string>,
                                                          stack: seq<V>, s: S)
    requires Valid(t, 0) && NoPrint(env, t) && Gen(env, t, Output([], pool, globals)).Some?
    requires var o := Gen(env, t, Output([], pool, globals)).value;
             Stored(m, look, env, o.globals) && !ReadsCovered(env, o.globals, t)
    ensures var o := Gen(env, t, Output([], pool, globals)).value;
            Run(m, o.pool, o.code, Config(stack, s)) ==
            Pushed(Config(stack, s), Eval(m, env, o.pool, ByVariable(look, m, env, o.pool, o.globals), t, s))
  {
    var o := Gen(env, t, Output([], pool, globals)).value;
    var a, b := BySlot(m, env, o.pool, o.globals), ByVariable(look, m, env, o.pool, o.globals);
    forall name, s1 | name in Reads(t)
      ensures a(name, s1) == b(name, s1)
    {
      SlotHoldsVariable(m, look, env, o.pool, o.globals, name, s1);
    }
    CompiledTreePushesItsValue(m, env, t, pool, globals, stack, s);
    AgreeingNames(m, env, o.pool, a, b, t, s);
  }

  /** At top level no global is covered, so this is true of every tree. */
  lemma TopLevelCodeReadsVariables<V, S(!new)>(m: Machine<V, S>, look: (Variable, S) -> Option<V>, env: Env, t: Expr,
                                               pool: seq<Const>, globals: seq<string>, stack: seq<V>, s: S)
    requires Valid(t, 0) && NoPrint(env, t) && Gen(env, t, Output([], pool, globals)).Some? && env.locals.None?
    requires Stored(m, look, env, Gen(env, t, Output([], pool, globals)).value.globals)
    ensures var o := Gen(env, t, Output([], pool, globals)).value;
            Run(m, o.pool, o.code, Config(stack, s)) ==
            Pushed(Config(stack, s), Eval(m, env, o.pool, ByVariable(look, m, env, o.pool, o.globals), t, s))
  {
    CodeReadsVariables(m, look, env, t, pool, globals, stack, s);
  }

  // ----- a covered global is misread -----

  /** A machine whose values are marks: a result is marked when something that went into it is. Every
      slot holds an unmarked value. */
  const MARKS: Machine<bool, ()> := Machine(
    (k: Const) => false,
    (s: (), k: int) => Some(false),
    (op: Opcode, i: int, x: bool, y: bool) => Some(x || y),
    (x: bool) => Some(x),
    (xs: seq<bool>) => true in xs,
    (xs: seq<bool>) => Some(true in xs),
    (x: bool, i: bool) => Some(x || i),
    (id: int, args: seq<bool>, s: ()) => Some((true in args, s)),
    (f: bool, args: seq<bool>, s: ()) => Some((true in args, s)))

  function CoveredNames(env: Env, globals: seq<string>): set<string> {
    set name | name in globals && Covered(env, globals, name)
  }

  /** The covered globals hold a mark, every other variable none. */
  function MarkCovered(env: Env, globals: seq<string>): (Variable, ()) -> Option<bool> {
    (v: Variable, s: ()) => Some(v.Global? && v.name in CoveredNames(env, globals))
  }

  /** The functions of script and packages are constants of the pool. */
  ghost predicate FunctionsStored(env: Env, pool: seq<Const>) {
    (forall name {:trigger env.function_(name)} :: env.function_(name).Some? ==> env.function_(name).value < |pool|) &&
    (forall name {:trigger env.package(name)} :: env.package(name).Some? ==> env.package(name).value < |pool|)
  }

  ghost predicate Marks(names: ExprMachine.Names<bool, ()>, read: set<string>, marked: set<string>) {
    forall name {:trigger names(name, ())} :: name in read ==> names(name, ()) == Some(name in marked)
  }

  /** The value of a tree is marked exactly when it reads a marked name. */
  lemma {:induction false} MarkOfTree(env: Env, pool: seq<Const>, names: ExprMachine.Names<bool, ()>,
                                      marked: set<string>, t: Expr, o: Output)
    requires Gen(env, t, o).Some? && FunctionsStored(env, pool) && Marks(names, Reads(t), marked)
    ensures Eval(MARKS, env, pool, names, t, ()) == Some((!(Reads(t) !! marked), ()))
    decreases t, 0
  {
    match t
    case Lit(_) =>
    case Neg(e) => MarkOfTree(env, pool, names, marked, e, PushConst(o, I64(0)));
    case Not(e) => MarkOfTree(env, pool, names, marked, e, o);
    case Paren(e) => MarkOfTree(env, pool, names, marked, e, o);
    case ListLit(items, _) => MarkOfItems(env, pool, names, marked, items, |items|, o);
    case MapLit(items, _) => MarkOfItems(env, pool, names, marked, items, |items|, o);
    case GetCall(_, _, _, items, _) => MarkOfItems(env, pool, names, marked, items, |items|, o);
    case NameCall(_, items, _) => MarkOfItems(env, pool, names, marked, items, |items|, o);
    case Var(name) => assert names(name, ()) == Some(name in marked);
    case Index(base, index) =>
      MarkOfTree(env, pool, names, marked, base, o);
      MarkOfTree(env, pool, names, marked, index, Gen(env, base, o).value);
    case Bin(_, left, right) =>
      MarkOfTree(env, pool, names, marked, left, o);
      MarkOfTree(env, pool, names, marked, right, Gen(env, left, o).value);
  }

  lemma {:induction false} MarkOfItems(env: Env, pool: seq<Const>, names: ExprMachine.Names<bool, ()>,
                                       marked: set<string>, items: seq<Expr>, n: nat, o: Output)
    requires n <= |items| && GenItems(env, items, n, o).Some?
    requires FunctionsStored(env, pool) && Marks(names, ReadsIn(items, n), marked)
    ensures var r := EvalItems(MARKS, env, pool, names, items, n, ());
            r.Some? && r.value.1 == () && (true in r.value.0 <==> !(ReadsIn(items, n) !! marked))
    decreases items, n
  {
    if n > 0 {
      MarkOfItems(env, pool, names, marked, items, n - 1, o);
      MarkOfTree(env, pool, names, marked, items[n - 1], GenItems(env, items, n - 1, o).value);
      var before := EvalItems(MARKS, env, pool, names, items, n - 1, ()).value.0;
      var last := Eval(MARKS, env, pool, names, items[n - 1], ()).value.0;
      assert true in before + [last] <==> true in before || last;
    }
  }

  /** What is compiled without an error has only names that are resolved, then and later. */
  lemma {:induction false} ReadsResolve(env: Env, t: Expr, o: Output, globals: seq<string>)
    requires Gen(env, t, o).Some? && Grows(env, Gen(env, t, o).value.globals, globals)
    ensures forall name :: name in Reads(t) ==> !Resolve(env, globals, name).Unknown?
    decreases t, 0
  {
    match t
    case Lit(_) =>
    case Neg(e) => ReadsResolve(env, e, PushConst(o, I64(0)), globals);
    case Not(e) => ReadsResolve(env, e, o, globals);
    case Paren(e) => ReadsResolve(env, e, o, globals);
    case ListLit(items, _) => ReadsInResolve(env, items, |items|, o, globals);
    case MapLit(items, _) => ReadsInResolve(env, items, |items|, o, globals);
    case GetCall(_, _, _, items, _) => ReadsInResolve(env, items, |items|, o, globals);
    case NameCall(_, items, _) => ReadsInResolve(env, items, |items|, o, globals);
    case Var(name) => ResolveIsStable(env, name, Declare(env, o.globals, name), globals);
    case Index(base, index) =>
      GenGrows(env, index, Gen(env, base, o).value);
      ReadsResolve(env, base, o, globals);
      ReadsResolve(env, index, Gen(env, base, o).value, globals);
    case Bin(_, left, right) =>
      GenGrows(env, right, Gen(env, left, o).value);
      ReadsResolve(env, left, o, globals);
      ReadsResolve(env, right, Gen(env, left, o).value, globals);
  }

  lemma {:induction false} ReadsInResolve(env: Env, items: seq<Expr>, n: nat, o: Output, globals: seq<string>)
    requires n <= |items| && GenItems(env, items, n, o).Some?
    requires Grows(env, GenItems(env, items, n, o).value.globals, globals)
    ensures forall name :: name in ReadsIn(items, n) ==> !Resolve(env, globals, name).Unknown?
    decreases items, n
  {
    if n > 0 {
      var o1 := GenItems(env, items, n - 1, o).value;
      GenGrows(env, items[n - 1], o1);
      ReadsInResolve(env, items, n - 1, o, globals);
      ReadsResolve(env, items[n - 1], o1, globals);
    }
  }

  lemma MarksAreStored(env: Env, globals: seq<string>)
    ensures Stored(MARKS, MarkCovered(env, globals), env, globals)
  {
    forall name, s: ()
      ensures StoredAt(MARKS, MarkCovered(env, globals), env, globals, name, s)
    {
    }
  }

  lemma MarkByName(env: Env, pool: seq<Const>, globals: seq<string>, name: string)
    requires FunctionsStored(env, pool) && !Resolve(env, globals, name).Unknown?
    ensures BySlot(MARKS, env, pool, globals)(name, ()) == Some(false)
    ensures ByVariable(MarkCovered(env, globals), MARKS, env, pool, globals)(name, ()) ==
            Some(name in CoveredNames(env, globals))
  {
    var look := MarkCovered(env, globals);
    if IsLocal(env, name) {
      assert look(Local(name), ()) == Some(false);
    } else if name in globals {
      assert look(Global(name), ()) == Some(name in CoveredNames(env, globals));
    } else {
      assert Constant(MARKS, pool, env.function_(name).value) == Some(false);
    }
  }

  /** A tree that reads a covered global: in the machine of marks, which holds every variable where it
      can be held, the tree's value by variables is marked, and its code pushes an unmarked one. */
  lemma CoveredGlobalIsMisread(env: Env, t: Expr, pool: seq<Const>, globals: seq<string>, stack: seq<bool>)
    requires Valid(t, 0) && NoPrint(env, t) && Gen(env, t, Output([], pool, globals)).Some?
    requires var o := Gen(env, t, Output([], pool, globals)).value;
             FunctionsStored(env, o.pool) && ReadsCovered(env, o.globals, t)
    ensures var o := Gen(env, t, Output([], pool, globals)).value;
            var look := MarkCovered(env, o.globals);
            && Stored(MARKS, look, env, o.globals)
            && Eval(MARKS, env, o.pool, ByVariable(look, MARKS, env, o.pool, o.globals), t, ()) == Some((true, ()))
            && Run(MARKS, o.pool, o.code, Config(stack, ())) == Some(Config(stack + [false], ()))
  {
    var o0 := Output([], pool, globals);
    var o := Gen(env, t, o0).value;
    var look, covered := MarkCovered(env, o.globals), CoveredNames(env, o.globals);
    ReadsResolve(env, t, o0, o.globals);
    forall name | name in Reads(t)
      ensures BySlot(MARKS, env, o.pool, o.globals)(name, ()) == Some(name in {})
      ensures ByVariable(look, MARKS, env, o.pool, o.globals)(name, ()) == Some(name in covered)
    {
      MarkByName(env, o.pool, o.globals, name);
    }
    MarksAreStored(env, o.globals);
    MarkOfTree(env, o.pool, BySlot(MARKS, env, o.pool, o.globals), {}, t, o0);
    MarkOfTree(env, o.pool, ByVariable(look, MARKS, env, o.pool, o.globals), covered, t, o0);
    CompiledTreePushesItsValue(MARKS, env, t, pool, globals, stack, ());
  }

  /** In this machine, if it holds the variables where they can be held, the code in `o` pushes the
      value of the tree by variables. */
  ghost predicate ReadsRight<V, S(!new)>(m: Machine<V, S>, look: (Variable, S) -> Option<V>, env: Env, t: Expr,
                                         o: Output, c: Config<V, S>)
  {
    Stored(m, look, env, o.globals) ==>
      Run(m, o.pool, o.code, c) == Pushed(c, Eval(m, env, o.pool, ByVariable(look, m, env, o.pool, o.globals), t,
                                                  c.state))
  }

  /** That is true of every machine and every stack if and only if the tree reads no covered global. */
  lemma VariablesAreReadExactly(env: Env, t: Expr, pool: seq<Const>, globals: seq<string>)
    requires Valid(t, 0) && NoPrint(env, t) && Gen(env, t, Output([], pool, globals)).Some?
    requires FunctionsStored(env, Gen(env, t, Output([], pool, globals)).value.pool)
    ensures var o := Gen(env, t, Output([], pool, globals)).value;
            !ReadsCovered(env, o.globals, t) <==>
            forall m: Machine<bool, ()>, look, c {:trigger ReadsRight(m, look, env, t, o, c)} ::
              ReadsRight(m, look, env, t, o, c)
  {
    var o := Gen(env, t, Output([], pool, globals)).value;
    if ReadsCovered(env, o.globals, t) {
      CoveredGlobalIsMisread(env, t, pool, globals, []);
      assert ([] + [false])[0] != ([] + [true])[0];
      assert !ReadsRight(MARKS, MarkCovered(env, o.globals), env, t, o, Config([], ()));
    } else {
      forall m: Machine<bool, ()>, look, c: Config<bool, ()>
        ensures ReadsRight(m, look, env, t, o, c)
      {
        if Stored(m, look, env, o.globals) {
          CodeReadsVariables(m, look, env, t, pool, globals, c.stack, c.state);
        }
      }
    }
  }
}
