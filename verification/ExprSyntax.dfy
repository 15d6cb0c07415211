/** What the native expression compiler accepts and what it emits.

    `Expr` is the concrete syntax, parentheses and trailing commas included. `Show` prints a tree
    back to tokens, `Valid` is the precedence table with left association as a condition on trees,
    and `Gen` is postorder code generation. None of the three knows how the parser works. */
module ExprSyntax {
  import opened Lexer
  import opened Options

  // ----- what is emitted -----

  datatype Const =
    | I64(n: int)
    | F64(text: string)
    | Text(s: string)
    | Boolean(b: bool)
    | NoneValue
    | FunctionRef(id: int)

  datatype Opcode =
    | PUSH_CONST | LOAD_LOCAL | GETITEM
    | ADD | SUB | MUL | DIV | MOD | COMPARE | BOOL_AND | BOOL_OR | BOOL_NOT
    | BUILD_LIST | BUILD_MAP | SYSCALL | CALL

  datatype Instr = Instr(op: Opcode, a: int, b: int, c: int)

  /** The part of the compiler's state that compiling an expression can change. */
  datatype Output = Output(code: seq<Instr>, pool: seq<Const>, globals: seq<string>)

  function Emit(o: Output, op: Opcode, a: int, b: int, c: int): Output {
    o.(code := o.code + [Instr(op, a, b, c)])
  }

  function PushConst(o: Output, value: Const): Output {
    Output(o.code + [Instr(PUSH_CONST, |o.pool|, 0, 0)], o.pool + [value], o.globals)
  }

  // ----- names -----

  const MAX_VARS := 256
  const PRINT_ID := 1

  /** The tables an expression is compiled against: syscall ids (0 is "no such builtin"), constant
      slots of script and package functions, the local scope when inside a function, and whether
      the C library reads a floating literal as a finite number. */
  datatype Env = Env(
    builtin: string -> nat,
    function_: string -> Option<nat>,
    package: string -> Option<nat>,
    locals: Option<seq<string>>,
    finite: string -> bool)

  function Find(names: seq<string>, name: string): (r: Option<nat>)
    ensures r.Some? ==> r.value < |names| && names[r.value] == name
    ensures r.None? <==> name !in names
  {
    if names == [] then None
    else if names[0] == name then Some(0)
    else
      match Find(names[1..], name)
      case None => None
      case Some(i) => Some(i + 1)
  }

  datatype Ref = Slot(slot: nat) | Function(slot: nat) | Unknown

  /** Inside a function an unknown name becomes a new global, as long as there is room. */
  function Declare(env: Env, globals: seq<string>, name: string): seq<string> {
    if env.locals.Some? && name !in env.locals.value && name !in globals && |globals| < MAX_VARS
    then globals + [name] else globals
  }

  function Resolve(env: Env, globals: seq<string>, name: string): Ref {
    if env.locals.Some? && Find(env.locals.value, name).Some? then Slot(Find(env.locals.value, name).value)
    else
      match Find(globals, name)
      case Some(i) => Slot(i)
      case None =>
        match env.function_(name)
        case Some(k) => Function(k)
        case None => Unknown
  }

  /** The function a call by name reaches once it is known not to be a builtin. */
  function Callee(env: Env, name: string): Option<nat> {
    if env.function_(name).Some? then env.function_(name) else env.package(name)
  }

  // ----- operators -----

  const AND := Id("and")
  const OR := Id("or")

  function Precedence(t: Token): (r: int)
    ensures r == -1 || 1 <= r <= 5
  {
    if t == OR then 1
    else if t == AND then 2
    else if !t.Sym? then -1
    else if t.sym in {EQ, NE, LT, LE, GT, GE} then 3
    else if t.sym in {PLUS, MINUS} then 4
    else if t.sym in {STAR, SLASH, PERCENT} then 5
    else -1
  }

  const PRIMARY := 6

  function BinaryOpcode(t: Token): (Opcode, int) {
    if t == Sym(PLUS) then (ADD, 0)
    else if t == Sym(MINUS) then (SUB, 0)
    else if t == Sym(STAR) then (MUL, 0)
    else if t == Sym(SLASH) then (DIV, 0)
    else if t == Sym(PERCENT) then (MOD, 0)
    else if t == AND then (BOOL_AND, 0)
    else if t == OR then (BOOL_OR, 0)
    else if t == Sym(EQ) then (COMPARE, 0)
    else if t == Sym(NE) then (COMPARE, 1)
    else if t == Sym(LT) then (COMPARE, 2)
    else if t == Sym(LE) then (COMPARE, 3)
    else if t == Sym(GT) then (COMPARE, 4)
    else (COMPARE, 5)
  }

  // ----- trees -----

  datatype Expr =
    | Lit(token: Token)
    | Neg(operand: Expr)
    | Not(operand: Expr)
    | Paren(inner: Expr)
    | ListLit(items: seq<Expr>, trailing: bool)
    | MapLit(items: seq<Expr>, trailing: bool)
    | GetCall(keyword: string, name: string, parens: bool, items: seq<Expr>, trailing: bool)
    | NameCall(name: string, items: seq<Expr>, trailing: bool)
    | Var(name: string)
    | Index(base: Expr, index: Expr)
    | Bin(op: Token, left: Expr, right: Expr)

  const LITERAL_WORDS := {"true", "false", "none", "null"}
  const GET_WORDS := {"get", "call"}
  const RESERVED := LITERAL_WORDS + GET_WORDS + {"not"}

  predicate IsLiteral(t: Token) {
    t.Num? || t.Str? || (t.Id? && t.text in LITERAL_WORDS)
  }

  /** The tree is one the grammar can produce at precedence level `p`: an operator stands only
      where its precedence reaches the level, its left operand may repeat that precedence and its
      right operand must bind tighter. */
  ghost predicate Valid(t: Expr, p: int)
    decreases t, 0
  {
    match t
    case Lit(tok) => IsLiteral(tok)
    case Neg(e) => Valid(e, PRIMARY)
    case Not(e) => Valid(e, PRIMARY)
    case Paren(e) => Valid(e, 0)
    case ListLit(items, trailing) => AllValid(items, |items|) && (trailing ==> items != [])
    case MapLit(items, trailing) => AllValid(items, |items|) && |items| % 2 == 0 && (trailing ==> items != [])
    case GetCall(keyword, name, parens, items, trailing) =>
      keyword in GET_WORDS && '.' in name && AllValid(items, |items|) && (trailing ==> items != []) &&
      (!parens ==> items == [])
    case NameCall(name, items, trailing) =>
      name !in RESERVED && AllValid(items, |items|) && (trailing ==> items != [])
    case Var(name) => name !in RESERVED
    case Index(base, index) => (base.Var? || base.Index?) && Valid(base, PRIMARY) && Valid(index, 0)
    case Bin(op, left, right) =>
      var q := Precedence(op);
      1 <= q && p <= q && Valid(left, q) && Valid(right, q + 1)
  }

  ghost predicate AllValid(items: seq<Expr>, n: nat)
    requires n <= |items|
    decreases items, n
  {
    n == 0 || (AllValid(items, n - 1) && Valid(items[n - 1], 0))
  }

  function Separator(colons: bool, i: nat): Token {
    if colons && i % 2 == 1 then Sym(COLON) else Sym(COMMA)
  }

  function Show(t: Expr): seq<Token>
    decreases t, 0
  {
    match t
    case Lit(tok) => [tok]
    case Neg(e) => [Sym(MINUS)] + Show(e)
    case Not(e) => [Id("not")] + Show(e)
    case Paren(e) => [Sym(LP)] + Show(e) + [Sym(RP)]
    case ListLit(items, trailing) => [Sym(LB)] + (ShowFrom(items, false, 0) + Close(trailing, Sym(RB)))
    case MapLit(items, trailing) => [Sym(LC)] + (ShowFrom(items, true, 0) + Close(trailing, Sym(RC)))
    case GetCall(keyword, name, parens, items, trailing) =>
      [Id(keyword), Id(name)] +
      (if parens then [Sym(LP)] + (ShowFrom(items, false, 0) + Close(trailing, Sym(RP))) else [])
    case NameCall(name, items, trailing) =>
      [Id(name), Sym(LP)] + (ShowFrom(items, false, 0) + Close(trailing, Sym(RP)))
    case Var(name) => [Id(name)]
    case Index(base, index) => Show(base) + ([Sym(LB)] + Show(index) + [Sym(RB)])
    case Bin(op, left, right) => Show(left) + ([op] + Show(right))
  }

  function Close(trailing: bool, closer: Token): seq<Token> {
    if trailing then [Sym(COMMA), closer] else [closer]
  }

  /** Items `i`, `i + 1`, ... with the separators between them. */
  function ShowFrom(items: seq<Expr>, colons: bool, i: nat): seq<Token>
    requires i <= |items|
    decreases items, |items| - i
  {
    if i == |items| then []
    else if i + 1 == |items| then Show(items[i])
    else Show(items[i]) + ([Separator(colons, i + 1)] + ShowFrom(items, colons, i + 1))
  }

  // ----- code generation -----

  function Literal(env: Env, t: Token): Option<Const> {
    match t
    case Num(text, isFloat) =>
      if isFloat then (if env.finite(text) then Some(F64(text)) else None)
      else if IntegerLiteral(text) == -1 then None else Some(I64(IntegerLiteral(text)))
    case Str(text) => Some(Text(text))
    case Id(text) =>
      if text == "none" || text == "null" then Some(NoneValue) else Some(Boolean(text == "true"))
    case _ => None
  }

  function GenVar(env: Env, name: string, o: Output): Option<Output> {
    var globals := Declare(env, o.globals, name);
    match Resolve(env, globals, name)
    case Slot(k) => Some(Emit(o.(globals := globals), LOAD_LOCAL, k, 0, 0))
    case Function(k) => Some(Emit(o.(globals := globals), PUSH_CONST, k, 0, 0))
    case Unknown => None
  }

  /** Only variables can be indexed; a function name cannot. */
  predicate Indexable(env: Env, base: Expr, o: Output) {
    base.Index? || (base.Var? && Resolve(env, o.globals, base.name).Slot?)
  }

  function GenCall(env: Env, name: string, argc: nat, o: Output): Option<Output> {
    var id := env.builtin(name);
    if id != 0 then Some(Emit(o, SYSCALL, id, argc, if id == PRINT_ID then 0 else 1))
    else
      match Callee(env, name)
      case None => None
      case Some(k) => Some(Emit(Emit(o, PUSH_CONST, k, 0, 0), CALL, argc, 0, 0))
  }

  /** Postorder code for a tree, appended to `o`; None when a literal is out of range or a name
      is unknown. */
  function Gen(env: Env, t: Expr, o: Output): Option<Output>
    decreases t, 0
  {
    match t
    case Lit(tok) =>
      (match Literal(env, tok)
       case None => None
       case Some(value) => Some(PushConst(o, value)))
    case Neg(e) =>
      (match Gen(env, e, PushConst(o, I64(0)))
       case None => None
       case Some(o1) => Some(Emit(o1, SUB, 0, 0, 0)))
    case Not(e) =>
      (match Gen(env, e, o)
       case None => None
       case Some(o1) => Some(Emit(o1, BOOL_NOT, 0, 0, 0)))
    case Paren(e) => Gen(env, e, o)
    case ListLit(items, _) =>
      (match GenItems(env, items, |items|, o)
       case None => None
       case Some(o1) => Some(Emit(o1, BUILD_LIST, |items|, 0, 0)))
    case MapLit(items, _) =>
      (match GenItems(env, items, |items|, o)
       case None => None
       case Some(o1) => Some(Emit(o1, BUILD_MAP, |items| / 2, 0, 0)))
    case GetCall(_, name, _, items, _) =>
      if env.builtin(name) == 0 then None else
      (match GenItems(env, items, |items|, o)
       case None => None
       case Some(o1) => Some(Emit(o1, SYSCALL, env.builtin(name), |items|, 1)))
    case NameCall(name, items, _) =>
      (match GenItems(env, items, |items|, o)
       case None => None
       case Some(o1) => GenCall(env, name, |items|, o1))
    case Var(name) => GenVar(env, name, o)
    case Index(base, index) =>
      (match Gen(env, base, o)
       case None => None
       case Some(o1) =>
         if !Indexable(env, base, o1) then None else
         match Gen(env, index, o1)
         case None => None
         case Some(o2) => Some(Emit(o2, GETITEM, 0, 0, 0)))
    case Bin(op, left, right) =>
      match Gen(env, left, o)
      case None => None
      case Some(o1) =>
        match Gen(env, right, o1)
        case None => None
        case Some(o2) => Some(Emit(o2, BinaryOpcode(op).0, BinaryOpcode(op).1, 0, 0))
  }

  /** The first `n` items, left to right. */
  function GenItems(env: Env, items: seq<Expr>, n: nat, o: Output): Option<Output>
    requires n <= |items|
    decreases items, n
  {
    if n == 0 then Some(o)
    else
      match GenItems(env, items, n - 1, o)
      case None => None
      case Some(o1) => Gen(env, items[n - 1], o1)
  }

  // ----- a list that grows at its end -----

  lemma {:induction false} ItemsExtend(env: Env, items: seq<Expr>, more: seq<Expr>, n: nat, o: Output)
    requires n <= |items|
    ensures GenItems(env, items + more, n, o) == GenItems(env, items, n, o)
    ensures AllValid(items + more, n) == AllValid(items, n)
    decreases n
  {
    if n > 0 {
      ItemsExtend(env, items, more, n - 1, o);
      assert (items + more)[n - 1] == items[n - 1];
    }
  }

  lemma ShowSnoc(items: seq<Expr>, e: Expr, colons: bool, i: nat)
    requires i <= |items|
    ensures ShowFrom(items + [e], colons, i) ==
            ShowFrom(items, colons, i) +
            (if i < |items| then [Separator(colons, |items|)] else []) + Show(e)
  {
    ShowMore(items, items + [e], colons, i);
  }

  /** `more` is `items` with one item behind it. */
  lemma {:induction false} ShowMore(items: seq<Expr>, more: seq<Expr>, colons: bool, i: nat)
    requires i <= |items| == |more| - 1 && forall k :: 0 <= k < |items| ==> more[k] == items[k]
    ensures ShowFrom(more, colons, i) ==
            ShowFrom(items, colons, i) +
            (if i < |items| then [Separator(colons, |items|)] else []) + Show(more[|items|])
    decreases |items| - i
  {
    var last := Show(more[|items|]);
    if i + 1 < |items| {
      ShowMore(items, more, colons, i + 1);
      Regroup(Show(items[i]), [Separator(colons, i + 1)], ShowFrom(items, colons, i + 1), [Separator(colons, |items|)],
              last);
    } else if i < |items| {
      assert ShowFrom(more, colons, i + 1) == last;
    }
  }

  lemma Regroup<T>(a: seq<T>, b: seq<T>, c: seq<T>, d: seq<T>, e: seq<T>)
    ensures a + (b + (c + d + e)) == a + (b + c) + d + e
  {
  }

  // ----- minimal parentheses -----

  /** A tree without written parentheses, read as an abstract syntax tree. */
  ghost predicate Bare(t: Expr)
    decreases t, 0
  {
    match t
    case Lit(tok) => IsLiteral(tok)
    case Neg(e) => Bare(e)
    case Not(e) => Bare(e)
    case Paren(e) => false
    case ListLit(items, trailing) => AllBare(items, |items|) && !trailing
    case MapLit(items, trailing) => AllBare(items, |items|) && |items| % 2 == 0 && !trailing
    case GetCall(keyword, name, parens, items, trailing) =>
      keyword in GET_WORDS && '.' in name && parens && AllBare(items, |items|) && !trailing
    case NameCall(name, items, trailing) => name !in RESERVED && AllBare(items, |items|) && !trailing
    case Var(name) => name !in RESERVED
    case Index(base, index) => (base.Var? || base.Index?) && Bare(base) && Bare(index)
    case Bin(op, left, right) => 1 <= Precedence(op) && Bare(left) && Bare(right)
  }

  ghost predicate AllBare(items: seq<Expr>, n: nat)
    requires n <= |items|
    decreases items, n
  {
    n == 0 || (AllBare(items, n - 1) && Bare(items[n - 1]))
  }

  /** Writes parentheses around an operator exactly where the level is above its precedence. */
  function Parenthesize(t: Expr, p: int): Expr
    decreases t, 0
  {
    match t
    case Lit(_) => t
    case Neg(e) => Neg(Parenthesize(e, PRIMARY))
    case Not(e) => Not(Parenthesize(e, PRIMARY))
    case Paren(e) => Paren(Parenthesize(e, 0))
    case ListLit(items, trailing) => ListLit(ParenthesizeAll(items, |items|), trailing)
    case MapLit(items, trailing) => MapLit(ParenthesizeAll(items, |items|), trailing)
    case GetCall(keyword, name, parens, items, trailing) =>
      GetCall(keyword, name, parens, ParenthesizeAll(items, |items|), trailing)
    case NameCall(name, items, trailing) => NameCall(name, ParenthesizeAll(items, |items|), trailing)
    case Var(_) => t
    case Index(base, index) => Index(Parenthesize(base, PRIMARY), Parenthesize(index, 0))
    case Bin(op, left, right) =>
      var q := Precedence(op);
      var bin := Bin(op, Parenthesize(left, q), Parenthesize(right, q + 1));
      if q < p then Paren(bin) else bin
  }

  function ParenthesizeAll(items: seq<Expr>, n: nat): (r: seq<Expr>)
    requires n <= |items|
    ensures |r| == n
    decreases items, n
  {
    if n == 0 then [] else ParenthesizeAll(items, n - 1) + [Parenthesize(items[n - 1], 0)]
  }

  /** Printing a bare tree yields a tree of the grammar, and the added parentheses change neither
      the code nor the names it declares. */
  lemma {:induction false} ParenthesizeFits(env: Env, t: Expr, p: int, o: Output)
    requires Bare(t) && p <= PRIMARY
    ensures Valid(Parenthesize(t, p), p)
    ensures Gen(env, Parenthesize(t, p), o) == Gen(env, t, o)
    decreases t, 1
  {
    match t
    case Lit(_) =>
    case Neg(e) => ParenthesizeFits(env, e, PRIMARY, PushConst(o, I64(0)));
    case Not(e) => ParenthesizeFits(env, e, PRIMARY, o);
    case ListLit(items, _) => ParenthesizeAllFits(env, items, |items|, o);
    case MapLit(items, _) => ParenthesizeAllFits(env, items, |items|, o);
    case GetCall(_, _, _, items, _) => ParenthesizeAllFits(env, items, |items|, o);
    case NameCall(_, items, _) => ParenthesizeAllFits(env, items, |items|, o);
    case Var(_) =>
    case Index(_, _) => ParenthesizeIndexFits(env, t, p, o);
    case Bin(_, _, _) => ParenthesizeBinFits(env, t, p, o);
  }

  lemma {:induction false} ParenthesizeIndexFits(env: Env, t: Expr, p: int, o: Output)
    requires t.Index? && Bare(t) && p <= PRIMARY
    ensures Valid(Parenthesize(t, p), p)
    ensures Gen(env, Parenthesize(t, p), o) == Gen(env, t, o)
    decreases t, 0
  {
    ParenthesizeFits(env, t.base, PRIMARY, o);
    var r := Gen(env, t.base, o);
    ParenthesizeFits(env, t.index, 0, if r.Some? then r.value else o);
    if t.base.Var? {
      assert Parenthesize(t.base, PRIMARY) == t.base;
    }
  }

  lemma {:induction false} ParenthesizeBinFits(env: Env, t: Expr, p: int, o: Output)
    requires t.Bin? && Bare(t) && p <= PRIMARY
    ensures Valid(Parenthesize(t, p), p)
    ensures Gen(env, Parenthesize(t, p), o) == Gen(env, t, o)
    decreases t, 0
  {
    var q := Precedence(t.op);
    ParenthesizeFits(env, t.left, q, o);
    var r := Gen(env, t.left, o);
    ParenthesizeFits(env, t.right, q + 1, if r.Some? then r.value else o);
    SameOperands(env, t.op, t.left, t.right, Parenthesize(t.left, q), Parenthesize(t.right, q + 1), p, o);
  }

  /** Operands with the same code, each valid on its side, make an operation with the same code,
      which in parentheses where the level asks for them is valid. */
  lemma SameOperands(env: Env, op: Token, left: Expr, right: Expr, left': Expr, right': Expr, p: int, o: Output)
    requires 1 <= Precedence(op) && Valid(left', Precedence(op)) && Valid(right', Precedence(op) + 1)
    requires Gen(env, left', o) == Gen(env, left, o)
    requires Gen(env, left, o).Some? ==>
               Gen(env, right', Gen(env, left, o).value) == Gen(env, right, Gen(env, left, o).value)
    ensures var bin := Bin(op, left', right');
            var r := if Precedence(op) < p then Paren(bin) else bin;
            Valid(r, p) && Gen(env, r, o) == Gen(env, Bin(op, left, right), o)
  {
  }

  lemma {:induction false} ParenthesizeAllFits(env: Env, items: seq<Expr>, n: nat, o: Output)
    requires n <= |items| && AllBare(items, n)
    ensures AllValid(ParenthesizeAll(items, n), n)
    ensures GenItems(env, ParenthesizeAll(items, n), n, o) == GenItems(env, items, n, o)
    decreases items, n
  {
    if n > 0 {
      ParenthesizeAllFits(env, items, n - 1, o);
      var before := GenItems(env, items, n - 1, o);
      ParenthesizeFits(env, items[n - 1], 0, if before.Some? then before.value else o);
      ItemsExtend(env, ParenthesizeAll(items, n - 1), [Parenthesize(items[n - 1], 0)], n - 1, o);
    }
  }

  /** No needless parentheses: a bare tree that already fits its level is printed as it is. */
  lemma {:induction false} ParenthesizeIsMinimal(t: Expr, p: int)
    requires Bare(t) && Valid(t, p)
    ensures Parenthesize(t, p) == t
    decreases t, 0
  {
    match t
    case Lit(_) =>
    case Neg(e) => ParenthesizeIsMinimal(e, PRIMARY);
    case Not(e) => ParenthesizeIsMinimal(e, PRIMARY);
    case ListLit(items, _) => ParenthesizeAllIsMinimal(items, |items|);
    case MapLit(items, _) => ParenthesizeAllIsMinimal(items, |items|);
    case GetCall(_, _, _, items, _) => ParenthesizeAllIsMinimal(items, |items|);
    case NameCall(_, items, _) => ParenthesizeAllIsMinimal(items, |items|);
    case Var(_) =>
    case Index(base, index) =>
      ParenthesizeIsMinimal(base, PRIMARY);
      ParenthesizeIsMinimal(index, 0);
    case Bin(op, left, right) =>
      ParenthesizeIsMinimal(left, Precedence(op));
      ParenthesizeIsMinimal(right, Precedence(op) + 1);
  }

  lemma {:induction false} ParenthesizeAllIsMinimal(items: seq<Expr>, n: nat)
    requires n <= |items| && AllBare(items, n) && AllValid(items, n)
    ensures ParenthesizeAll(items, n) == items[..n]
    decreases items, n
  {
    if n > 0 {
      ParenthesizeAllIsMinimal(items, n - 1);
      ParenthesizeIsMinimal(items[n - 1], 0);
    }
  }
}
