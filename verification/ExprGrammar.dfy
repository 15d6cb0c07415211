/** The grammar by named sets of operators, and the forms it is made of, token by token.

    Nothing here mentions a precedence number or the table of opcodes: the sets are written out, each
    kind of expression is built from the next tighter one, and every form says which tokens it is and
    which instruction ends its code. */
module ExprGrammar {
  import opened Lexer
  import opened ExprSyntax
  import opened ExprParser
  import opened ExprCompiler
  import opened Options

  // ----- operators by name -----

  const OR_OPERATORS: set<Token> := {Id("or")}
  const AND_OPERATORS: set<Token> := {Id("and")}
  const COMPARISONS: set<Token> := {Sym(EQ), Sym(NE), Sym(LT), Sym(LE), Sym(GT), Sym(GE)}
  const SUM_OPERATORS: set<Token> := {Sym(PLUS), Sym(MINUS)}
  const PRODUCT_OPERATORS: set<Token> := {Sym(STAR), Sym(SLASH), Sym(PERCENT)}
  const OPERATORS: set<Token> := OR_OPERATORS + AND_OPERATORS + COMPARISONS + SUM_OPERATORS + PRODUCT_OPERATORS

  // ----- the kinds of expressions -----

  /** Conjunctions with `or` between them, leaning left. */
  ghost predicate IsDisjunction(t: Expr)
    decreases t, 6
  {
    (t.Bin? && t.op in OR_OPERATORS && IsDisjunction(t.left) && IsConjunction(t.right)) || IsConjunction(t)
  }

  ghost predicate IsConjunction(t: Expr)
    decreases t, 5
  {
    (t.Bin? && t.op in AND_OPERATORS && IsConjunction(t.left) && IsComparison(t.right)) || IsComparison(t)
  }

  ghost predicate IsComparison(t: Expr)
    decreases t, 4
  {
    (t.Bin? && t.op in COMPARISONS && IsComparison(t.left) && IsSum(t.right)) || IsSum(t)
  }

  ghost predicate IsSum(t: Expr)
    decreases t, 3
  {
    (t.Bin? && t.op in SUM_OPERATORS && IsSum(t.left) && IsProduct(t.right)) || IsProduct(t)
  }

  ghost predicate IsProduct(t: Expr)
    decreases t, 2
  {
    (t.Bin? && t.op in PRODUCT_OPERATORS && IsProduct(t.left) && IsOperand(t.right)) || IsOperand(t)
  }

  /** What needs no parentheses next to any operator. */
  ghost predicate IsOperand(t: Expr)
    decreases t, 1
  {
    match t
    case Lit(tok) => tok.Num? || tok.Str? || tok in {Id("true"), Id("false"), Id("none"), Id("null")}
    case Neg(e) => IsOperand(e)
    case Not(e) => IsOperand(e)
    case Paren(e) => IsDisjunction(e)
    case ListLit(items, trailing) => AllDisjunctions(items, |items|) && (trailing ==> items != [])
    case MapLit(items, trailing) =>
      AllDisjunctions(items, |items|) && |items| % 2 == 0 && (trailing ==> items != [])
    case GetCall(keyword, name, parens, items, trailing) =>
      keyword in {"get", "call"} && '.' in name && AllDisjunctions(items, |items|) && (trailing ==> items != []) &&
      (!parens ==> items == [])
    case NameCall(name, items, trailing) =>
      IsName(name) && AllDisjunctions(items, |items|) && (trailing ==> items != [])
    case Var(name) => IsName(name)
    case Index(base, index) => (base.Var? || base.Index?) && IsOperand(base) && IsDisjunction(index)
    case Bin(_, _, _) => false
  }

  predicate IsName(name: string) {
    name !in {"true", "false", "none", "null", "get", "call", "not"}
  }

  ghost predicate AllDisjunctions(items: seq<Expr>, n: nat)
    requires n <= |items|
    decreases items, n
  {
    n == 0 || (AllDisjunctions(items, n - 1) && IsDisjunction(items[n - 1]))
  }

  lemma OperatorsAreNamed(op: Token)
    ensures Precedence(op) == 1 <==> op in OR_OPERATORS
    ensures Precedence(op) == 2 <==> op in AND_OPERATORS
    ensures Precedence(op) == 3 <==> op in COMPARISONS
    ensures Precedence(op) == 4 <==> op in SUM_OPERATORS
    ensures Precedence(op) == 5 <==> op in PRODUCT_OPERATORS
  {
  }

  /** The trees the compiler builds at each level are exactly the named kinds. */
  lemma {:induction false} ValidIsTheGrammar(t: Expr)
    ensures Valid(t, 0) <==> IsDisjunction(t)
    ensures Valid(t, 1) <==> IsDisjunction(t)
    ensures Valid(t, 2) <==> IsConjunction(t)
    ensures Valid(t, 3) <==> IsComparison(t)
    ensures Valid(t, 4) <==> IsSum(t)
    ensures Valid(t, 5) <==> IsProduct(t)
    ensures Valid(t, 6) <==> IsOperand(t)
    decreases t, 1
  {
    if t.Bin? {
      OperatorsAreNamed(t.op);
      ValidIsTheGrammar(t.left);
      ValidIsTheGrammar(t.right);
    } else {
      OperandIsTheGrammar(t);
    }
    KindsInOrder(t);
  }

  /** Each kind is the next tighter one, or an operation of its own set. */
  lemma KindsInOrder(t: Expr)
    ensures IsProduct(t) <==>
            (t.Bin? && t.op in PRODUCT_OPERATORS && IsProduct(t.left) && IsOperand(t.right)) || IsOperand(t)
    ensures IsSum(t) <==> (t.Bin? && t.op in SUM_OPERATORS && IsSum(t.left) && IsProduct(t.right)) || IsProduct(t)
    ensures IsComparison(t) <==> (t.Bin? && t.op in COMPARISONS && IsComparison(t.left) && IsSum(t.right)) || IsSum(t)
    ensures IsConjunction(t) <==>
            (t.Bin? && t.op in AND_OPERATORS && IsConjunction(t.left) && IsComparison(t.right)) || IsComparison(t)
    ensures IsDisjunction(t) <==>
            (t.Bin? && t.op in OR_OPERATORS && IsDisjunction(t.left) && IsConjunction(t.right)) || IsConjunction(t)
  {
  }

  lemma {:induction false} OperandIsTheGrammar(t: Expr)
    requires !t.Bin?
    ensures forall p: int {:trigger Valid(t, p)} :: Valid(t, p) <==> IsOperand(t)
    decreases t, 0
  {
    match t
    case Lit(_) =>
    case Neg(e) => ValidIsTheGrammar(e);
    case Not(e) => ValidIsTheGrammar(e);
    case Paren(e) => ValidIsTheGrammar(e);
    case ListLit(items, _) => ItemsAreTheGrammar(items, |items|);
    case MapLit(items, _) => ItemsAreTheGrammar(items, |items|);
    case GetCall(_, _, _, items, _) => ItemsAreTheGrammar(items, |items|);
    case NameCall(_, items, _) => ItemsAreTheGrammar(items, |items|);
    case Var(_) =>
    case Index(base, index) =>
      ValidIsTheGrammar(base);
      ValidIsTheGrammar(index);
  }

  lemma {:induction false} ItemsAreTheGrammar(items: seq<Expr>, n: nat)
    requires n <= |items|
    ensures AllValid(items, n) <==> AllDisjunctions(items, n)
    decreases items, n
  {
    if n > 0 {
      ItemsAreTheGrammar(items, n - 1);
      ValidIsTheGrammar(items[n - 1]);
    }
  }

  /** A token list compiles without leftover tokens if and only if it is the printed form of a
      disjunction for which code can be generated. */
  lemma CompiledIsADisjunction(env: Env, toks: seq<Token>, o: Output)
    ensures (ParseExpr(env, toks, 0, o).Done? && ParseExpr(env, toks, 0, o).toks == []) <==>
            (exists t :: IsDisjunction(t) && Show(t) == toks && Gen(env, t, o).Some?)
  {
    CompilesExactlyTheGrammar(env, toks, o);
    if t :| Valid(t, 0) && Show(t) == toks && Gen(env, t, o).Some? {
      ValidIsTheGrammar(t);
    }
    if t :| IsDisjunction(t) && Show(t) == toks && Gen(env, t, o).Some? {
      ValidIsTheGrammar(t);
    }
  }

  // ----- two operators in a row -----

  /** Of `x a y b z`, the operator `a` takes its two operands before `b` does. */
  predicate LeftFirst(a: Token, b: Token) {
    if a in PRODUCT_OPERATORS then true
    else if a in SUM_OPERATORS then b !in PRODUCT_OPERATORS
    else if a in COMPARISONS then b !in PRODUCT_OPERATORS + SUM_OPERATORS
    else if a in AND_OPERATORS then b in AND_OPERATORS + OR_OPERATORS
    else b in OR_OPERATORS
  }

  /** For every pair of operators: which of the two trees a list of three operands is. */
  lemma TwoOperators(env: Env, x: Expr, a: Token, y: Expr, b: Token, z: Expr, o: Output)
    requires IsOperand(x) && IsOperand(y) && IsOperand(z) && a in OPERATORS && b in OPERATORS
    requires var t := if LeftFirst(a, b) then Bin(b, Bin(a, x, y), z) else Bin(a, x, Bin(b, y, z)); Gen(env, t, o).Some?
    ensures var t := if LeftFirst(a, b) then Bin(b, Bin(a, x, y), z) else Bin(a, x, Bin(b, y, z));
            ParseExpr(env, Show(x) + [a] + Show(y) + [b] + Show(z), 0, o) == Done(t, [], Gen(env, t, o).value)
  {
    var t := if LeftFirst(a, b) then Bin(b, Bin(a, x, y), z) else Bin(a, x, Bin(b, y, z));
    ValidIsTheGrammar(x);
    ValidIsTheGrammar(y);
    ValidIsTheGrammar(z);
    OperatorsAreNamed(a);
    OperatorsAreNamed(b);
    OperandFits(x);
    OperandFits(y);
    OperandFits(z);
    ExprComplete(env, t, 0, [], o);
    InOneRow(Show(x), [a], Show(y), [b], Show(z));
  }

  lemma OperandFits(t: Expr)
    requires IsOperand(t)
    ensures forall p: int {:trigger Valid(t, p)} :: Valid(t, p)
  {
    OperandIsTheGrammar(t);
  }

  lemma InOneRow<T>(a: seq<T>, b: seq<T>, c: seq<T>, d: seq<T>, e: seq<T>)
    ensures a + (b + c) + (d + e) + [] == a + b + c + d + e
    ensures a + (b + (c + (d + e))) + [] == a + b + c + d + e
  {
  }

  /** The usual example: in `1 + 2 * 3` the product is the right operand of the sum. */
  lemma ProductBeforeSum(env: Env)
    ensures var one, two, three := Num("1", false), Num("2", false), Num("3", false);
            ParseExpr(env, [one, Sym(PLUS), two, Sym(STAR), three], 0, Output([], [], [])) ==
            Done(Bin(Sym(PLUS), Lit(one), Bin(Sym(STAR), Lit(two), Lit(three))), [],
                 Output([Instr(PUSH_CONST, 0, 0, 0), Instr(PUSH_CONST, 1, 0, 0), Instr(PUSH_CONST, 2, 0, 0),
                         Instr(MUL, 0, 0, 0), Instr(ADD, 0, 0, 0)], [I64(1), I64(2), I64(3)], []))
  {
    var one, two, three, o := Num("1", false), Num("2", false), Num("3", false), Output([], [], []);
    var o1 := OneLiteral(env, '1', o);
    var o2 := OneLiteral(env, '2', o1);
    var o3 := OneLiteral(env, '3', o2);
    assert Gen(env, Bin(Sym(STAR), Lit(two), Lit(three)), o1) == Some(Emit(o3, MUL, 0, 0, 0));
    TwoOperators(env, Lit(one), Sym(PLUS), Lit(two), Sym(STAR), Lit(three), o);
    assert Show(Lit(one)) + [Sym(PLUS)] + Show(Lit(two)) + [Sym(STAR)] + Show(Lit(three)) ==
           [one, Sym(PLUS), two, Sym(STAR), three];
  }

  lemma OneLiteral(env: Env, c: char, o: Output) returns (o1: Output)
    requires IsDigit(c)
    ensures Gen(env, Lit(Num([c], false)), o) == Some(o1)
    ensures o1 == Output(o.code + [Instr(PUSH_CONST, |o.pool|, 0, 0)], o.pool + [I64(c as int - '0' as int)], o.globals)
  {
    SmallLiteral(c);
    o1 := PushConst(o, I64(c as int - '0' as int));
  }

  lemma SmallLiteral(c: char)
    requires IsDigit(c)
    ensures IntegerLiteral([c]) == c as int - '0' as int
  {
    DecimalLiteral([c]);
    assert Horner([c], 1) == Horner([c], 0) * 10 + (c as int - '0' as int);
  }

  // ----- what the code of each form ends with -----

  /** The code of an operation is that of its left operand, that of its right operand, and one
      instruction, which for each of the thirteen operators is this. */
  lemma OperationCode(env: Env, op: Token, x: Expr, y: Expr, o: Output)
    requires op in OPERATORS && Gen(env, Bin(op, x, y), o).Some?
    ensures Gen(env, x, o).Some? && Gen(env, y, Gen(env, x, o).value).Some?
    ensures var before, after := Gen(env, y, Gen(env, x, o).value).value, Gen(env, Bin(op, x, y), o).value;
            && after.pool == before.pool && after.globals == before.globals
            && |after.code| == |before.code| + 1 && before.code <= after.code
            && var last := after.code[|before.code|];
               && (op == Id("or") ==> last == Instr(BOOL_OR, 0, 0, 0))
               && (op == Id("and") ==> last == Instr(BOOL_AND, 0, 0, 0))
               && (op == Sym(EQ) ==> last == Instr(COMPARE, 0, 0, 0))
               && (op == Sym(NE) ==> last == Instr(COMPARE, 1, 0, 0))
               && (op == Sym(LT) ==> last == Instr(COMPARE, 2, 0, 0))
               && (op == Sym(LE) ==> last == Instr(COMPARE, 3, 0, 0))
               && (op == Sym(GT) ==> last == Instr(COMPARE, 4, 0, 0))
               && (op == Sym(GE) ==> last == Instr(COMPARE, 5, 0, 0))
               && (op == Sym(PLUS) ==> last == Instr(ADD, 0, 0, 0))
               && (op == Sym(MINUS) ==> last == Instr(SUB, 0, 0, 0))
               && (op == Sym(STAR) ==> last == Instr(MUL, 0, 0, 0))
               && (op == Sym(SLASH) ==> last == Instr(DIV, 0, 0, 0))
               && (op == Sym(PERCENT) ==> last == Instr(MOD, 0, 0, 0))
  {
  }

  /** One instruction more, and nothing else. */
  predicate Ends(before: Output, after: Output, last: Instr) {
    after == Output(before.code + [last], before.pool, before.globals)
  }

  /** The prefixes: `-x` is 0 - x, `not x` one instruction after `x`, and parentheses emit nothing. */
  lemma PrefixCode(env: Env, x: Expr, o: Output)
    ensures Show(Neg(x)) == [Sym(MINUS)] + Show(x) && Show(Not(x)) == [Id("not")] + Show(x)
    ensures Show(Paren(x)) == [Sym(LP)] + Show(x) + [Sym(RP)]
    ensures var zero := Output(o.code + [Instr(PUSH_CONST, |o.pool|, 0, 0)], o.pool + [I64(0)], o.globals);
            match Gen(env, x, zero)
            case None => Gen(env, Neg(x), o) == None
            case Some(o1) => Gen(env, Neg(x), o).Some? && Ends(o1, Gen(env, Neg(x), o).value, Instr(SUB, 0, 0, 0))
    ensures match Gen(env, x, o)
            case None => Gen(env, Not(x), o) == None && Gen(env, Paren(x), o) == None
            case Some(o1) =>
              && Gen(env, Not(x), o).Some? && Ends(o1, Gen(env, Not(x), o).value, Instr(BOOL_NOT, 0, 0, 0))
              && Gen(env, Paren(x), o) == Some(o1)
  {
  }

  /** Lists stand in square brackets, with commas between the items and perhaps one at the end. */
  lemma ListCode(env: Env, x: Expr, y: Expr, o: Output)
    requires Gen(env, x, o).Some? && Gen(env, y, Gen(env, x, o).value).Some?
    ensures Show(ListLit([x, y], false)) == [Sym(LB)] + Show(x) + [Sym(COMMA)] + Show(y) + [Sym(RB)]
    ensures Show(ListLit([x, y], true)) == [Sym(LB)] + Show(x) + [Sym(COMMA)] + Show(y) + [Sym(COMMA), Sym(RB)]
    ensures var o1 := Gen(env, ListLit([x, y], false), o);
            o1.Some? && Ends(Gen(env, y, Gen(env, x, o).value).value, o1.value, Instr(BUILD_LIST, 2, 0, 0))
  {
    TwoItems(env, x, y, o);
    Bracketed([Sym(LB)], Show(x), Sym(COMMA), Show(y), [Sym(RB)]);
    Bracketed([Sym(LB)], Show(x), Sym(COMMA), Show(y), [Sym(COMMA), Sym(RB)]);
  }

  /** Maps stand in braces with a colon in each pair. */
  lemma MapCode(env: Env, x: Expr, y: Expr, o: Output)
    requires Gen(env, x, o).Some? && Gen(env, y, Gen(env, x, o).value).Some?
    ensures Show(MapLit([x, y], false)) == [Sym(LC)] + Show(x) + [Sym(COLON)] + Show(y) + [Sym(RC)]
    ensures var o1 := Gen(env, MapLit([x, y], false), o);
            o1.Some? && Ends(Gen(env, y, Gen(env, x, o).value).value, o1.value, Instr(BUILD_MAP, 1, 0, 0))
  {
    TwoItems(env, x, y, o);
    Bracketed([Sym(LC)], Show(x), Sym(COLON), Show(y), [Sym(RC)]);
  }

  /** Indexes stand in square brackets behind what they index. */
  lemma IndexCode(env: Env, x: Expr, y: Expr, o: Output)
    ensures Show(Index(x, y)) == Show(x) + [Sym(LB)] + Show(y) + [Sym(RB)]
    ensures Gen(env, Index(x, y), o).Some? ==>
              Gen(env, x, o).Some? && Gen(env, y, Gen(env, x, o).value).Some? &&
              Ends(Gen(env, y, Gen(env, x, o).value).value, Gen(env, Index(x, y), o).value, Instr(GETITEM, 0, 0, 0))
  {
    assert Show(x) + ([Sym(LB)] + Show(y) + [Sym(RB)]) == Show(x) + [Sym(LB)] + Show(y) + [Sym(RB)];
  }

  lemma Bracketed<T>(open: seq<T>, a: seq<T>, between: T, b: seq<T>, close: seq<T>)
    ensures open + (a + ([between] + b) + close) == open + a + [between] + b + close
  {
  }

  lemma TwoItems(env: Env, x: Expr, y: Expr, o: Output)
    requires Gen(env, x, o).Some? && Gen(env, y, Gen(env, x, o).value).Some?
    ensures GenItems(env, [x, y], 2, o) == Gen(env, y, Gen(env, x, o).value)
    ensures forall colons :: ShowFrom([x, y], colons, 0) == Show(x) + ([Separator(colons, 1)] + Show(y))
  {
    var items := [x, y];
    assert GenItems(env, items, 0, o) == Some(o) && GenItems(env, items, 1, o) == Gen(env, x, o);
    forall colons
      ensures ShowFrom(items, colons, 0) == Show(x) + ([Separator(colons, 1)] + Show(y))
    {
      assert ShowFrom(items, colons, 1) == Show(y);
    }
  }

  /** A call by name is a syscall when the name is a builtin, the last operand telling whether it
      leaves a result, which only `print` does not; otherwise the function, a script's before a
      package's, is pushed and called. */
  lemma NameCallCode(env: Env, name: string, x: Expr, y: Expr, o: Output)
    requires Gen(env, x, o).Some? && Gen(env, y, Gen(env, x, o).value).Some?
    ensures var o2, r := Gen(env, y, Gen(env, x, o).value).value, Gen(env, NameCall(name, [x, y], false), o);
            if env.builtin(name) != 0 then
              var flag := if env.builtin(name) == 1 then 0 else 1;
              r.Some? && Ends(o2, r.value, Instr(SYSCALL, env.builtin(name), 2, flag))
            else if env.function_(name).Some? then r == Some(Called(o2, env.function_(name).value, 2))
            else if env.package(name).Some? then r == Some(Called(o2, env.package(name).value, 2))
            else r == None
  {
    TwoItems(env, x, y, o);
    CallEmitted(env, name, 2, Gen(env, y, Gen(env, x, o).value).value);
  }

  function Called(o: Output, k: int, argc: int): Output {
    Output(o.code + [Instr(PUSH_CONST, k, 0, 0), Instr(CALL, argc, 0, 0)], o.pool, o.globals)
  }

  lemma CallEmitted(env: Env, name: string, argc: nat, o: Output)
    ensures env.builtin(name) == 0 ==>
              GenCall(env, name, argc, o) ==
              if env.function_(name).Some? then Some(Called(o, env.function_(name).value, argc))
              else if env.package(name).Some? then Some(Called(o, env.package(name).value, argc))
              else None
  {
    forall k: int
      ensures Emit(Emit(o, PUSH_CONST, k, 0, 0), CALL, argc, 0, 0) == Called(o, k, argc)
    {
    }
  }

  /** `get` and `call` reach builtins only, and always leave a result. */
  lemma GetCallCode(env: Env, name: string, x: Expr, y: Expr, o: Output)
    requires Gen(env, x, o).Some? && Gen(env, y, Gen(env, x, o).value).Some?
    ensures var o2 := Gen(env, y, Gen(env, x, o).value).value;
            var r := Gen(env, GetCall("get", name, true, [x, y], false), o);
            if env.builtin(name) == 0 then r == None
            else r.Some? && Ends(o2, r.value, Instr(SYSCALL, env.builtin(name), 2, 1))
  {
    TwoItems(env, x, y, o);
  }

  lemma CallTokens(name: string, x: Expr, y: Expr)
    ensures Show(NameCall(name, [x, y], false)) ==
            [Id(name), Sym(LP)] + Show(x) + [Sym(COMMA)] + Show(y) + [Sym(RP)]
    ensures Show(GetCall("get", name, true, [x, y], false)) ==
            [Id("get"), Id(name)] + ([Sym(LP)] + Show(x) + [Sym(COMMA)] + Show(y) + [Sym(RP)])
    ensures Show(GetCall("get", name, false, [], false)) == [Id("get"), Id(name)]
  {
    var items := [x, y];
    assert ShowFrom(items, false, 1) == Show(y);
    assert ShowFrom(items, false, 0) == Show(x) + ([Sym(COMMA)] + Show(y));
    Bracketed([Id(name), Sym(LP)], Show(x), Sym(COMMA), Show(y), [Sym(RP)]);
    Bracketed([Sym(LP)], Show(x), Sym(COMMA), Show(y), [Sym(RP)]);
  }

  /** What the literals stand for. */
  lemma LiteralsMean(env: Env, text: string)
    ensures Literal(env, Id("true")) == Some(Boolean(true)) && Literal(env, Id("false")) == Some(Boolean(false))
    ensures Literal(env, Id("none")) == Literal(env, Id("null")) == Some(NoneValue)
    ensures Literal(env, Str(text)) == Some(Text(text))
    ensures Literal(env, Num(text, true)) == if env.finite(text) then Some(F64(text)) else None
    ensures IsDecimal(text) && Horner(text, |text|) <= 0x7FFF_FFFF_FFFF_FFFF ==>
              Literal(env, Num(text, false)) == Some(I64(Horner(text, |text|)))
    ensures IsDecimal(text) && Horner(text, |text|) > 0x7FFF_FFFF_FFFF_FFFF ==> Literal(env, Num(text, false)) == None
  {
    if IsDecimal(text) {
      DecimalLiteral(text);
      HornerGrows(text, 0, |text|);
    }
  }
}
