/** The expression compiler as it runs: recursive methods that move a scanner and append to a
    compiler's code and constants. Every method is tied to the function of ExprParser it performs. */
module ExprCompiler {
  import opened Lexer
  import opened ExprSyntax
  import opened ExprParser
  import opened Options

  class Compiler {
    const env: Env
    var code: seq<Instr>
    var pool: seq<Const>
    var globals: seq<string>

    constructor (env: Env, pool: seq<Const>, globals: seq<string>)
      ensures this.env == env && Out() == Output([], pool, globals)
    {
      this.env := env;
      this.code, this.pool, this.globals := [], pool, globals;
    }

    function Out(): Output
      reads this
    {
      Output(code, pool, globals)
    }

    method Emit(op: Opcode, a: int, b: int, c: int)
      modifies this`code
      ensures Out() == ExprSyntax.Emit(old(Out()), op, a, b, c)
    {
      code := code + [Instr(op, a, b, c)];
    }

    method AddConst(value: Const) returns (index: int)
      modifies this`pool
      ensures index == old(|pool|) && pool == old(pool) + [value]
    {
      index := |pool|;
      pool := pool + [value];
    }

    /** scope_find, local scope first, then globals; inside a function a new global for an unknown name. */
    method VariableSlot(name: string) returns (slot: int)
      modifies this`globals
      ensures globals == Declare(env, old(globals), name)
      ensures var r := Resolve(env, globals, name); if r.Slot? then slot == r.slot else slot == -1
    {
      slot := -1;
      if env.locals.Some? {
        var local := Find(env.locals.value, name);
        if local.Some? {
          slot := local.value;
        }
      }
      if slot < 0 {
        var known := Find(globals, name);
        if known.Some? {
          slot := known.value;
        }
      }
      if slot < 0 && env.locals.Some? && |globals| < MAX_VARS {
        FindAppended(globals, name);
        slot := |globals|;
        globals := globals + [name];
      }
    }
  }

  lemma {:induction false} FindAppended(names: seq<string>, name: string)
    requires name !in names
    ensures Find(names + [name], name) == Some(|names|)
  {
    if names != [] {
      assert (names + [name])[1..] == names[1..] + [name];
      FindAppended(names[1..], name);
    }
  }

  class Expression {
    const compiler: Compiler
    const lexer: Scanner

    constructor (compiler: Compiler, lexer: Scanner)
      ensures this.compiler == compiler && this.lexer == lexer
    {
      this.compiler, this.lexer := compiler, lexer;
    }

    method Advance()
      requires lexer.Valid() && lexer.token != Eof
      modifies lexer
      ensures lexer.Valid() && lexer.Rest() == old(lexer.Rest())[1..]
    {
      lexer.Next();
    }

    method Expect(t: Token) returns (ok: bool)
      requires lexer.Valid() && t != Eof
      modifies lexer
      ensures lexer.Valid() && ok == StartsWith(old(lexer.Rest()), t)
      ensures lexer.Rest() == if ok then old(lexer.Rest())[1..] else old(lexer.Rest())
    {
      ok := lexer.token == t;
      if ok {
        Advance();
      }
    }

    method Primary() returns (ok: bool, ghost tree: Expr)
      requires lexer.Valid()
      modifies lexer, compiler
      ensures lexer.Valid()
      ensures var r := ParsePrimary(compiler.env, old(lexer.Rest()), old(compiler.Out()));
              ok == r.Done? && (ok ==> r == Done(tree, lexer.Rest(), compiler.Out()))
      decreases |lexer.Rest()|, 0
    {
      var token := lexer.token;
      tree := Var("");
      if token.Num? || token.Str? {
        ok := Constant(token);
        tree := Lit(token);
      } else if token.Id? && token.text in LITERAL_WORDS {
        ok := Constant(token);
        tree := Lit(token);
      } else if token == Id("not") || token == Sym(MINUS) {
        ok, tree := Prefixed();
      } else if token == Sym(LP) || token == Sym(LB) || token == Sym(LC) {
        ok, tree := Bracketed();
      } else if token.Id? {
        Advance();
        if token.text in GET_WORDS {
          ok, tree := Get(token.text);
        } else {
          ok, tree := Name(token.text);
        }
      } else {
        ok := false;
      }
    }

    /** `not` and `-` take one primary; minus is compiled as a subtraction from zero. */
    method Prefixed() returns (ok: bool, ghost tree: Expr)
      requires lexer.Valid() && lexer.token in {Id("not"), Sym(MINUS)}
      modifies lexer, compiler
      ensures lexer.Valid()
      ensures var r := ParsePrimary(compiler.env, old(lexer.Rest()), old(compiler.Out()));
              ok == r.Done? && (ok ==> r == Done(tree, lexer.Rest(), compiler.Out()))
      decreases |lexer.Rest()|, 0, 0
    {
      var negative := lexer.token == Sym(MINUS);
      Advance();
      if negative {
        var zero := compiler.AddConst(I64(0));
        compiler.Emit(PUSH_CONST, zero, 0, 0);
        ok, tree := Primary();
        if ok {
          compiler.Emit(SUB, 0, 0, 0);
          tree := Neg(tree);
        }
      } else {
        ok, tree := Primary();
        if ok {
          compiler.Emit(BOOL_NOT, 0, 0, 0);
          tree := Not(tree);
        }
      }
    }

    method Bracketed() returns (ok: bool, ghost tree: Expr)
      requires lexer.Valid() && lexer.token in {Sym(LP), Sym(LB), Sym(LC)}
      modifies lexer, compiler
      ensures lexer.Valid()
      ensures var r := ParsePrimary(compiler.env, old(lexer.Rest()), old(compiler.Out()));
              ok == r.Done? && (ok ==> r == Done(tree, lexer.Rest(), compiler.Out()))
      decreases |lexer.Rest()|, 0, 0
    {
      if lexer.token == Sym(LP) {
        ok, tree := Parenthesized();
      } else if lexer.token == Sym(LB) {
        ok, tree := ListLiteral();
      } else {
        ok, tree := MapLiteral();
      }
    }

    method Parenthesized() returns (ok: bool, ghost tree: Expr)
      requires lexer.Valid() && lexer.token == Sym(LP)
      modifies lexer, compiler
      ensures lexer.Valid()
      ensures var r := ParseExpr(compiler.env, old(lexer.Rest())[1..], 0, old(compiler.Out()));
              ok == (r.Done? && StartsWith(r.toks, Sym(RP))) &&
              (ok ==> tree == Paren(r.tree) && lexer.Rest() == r.toks[1..] && compiler.Out() == r.out)
      decreases |lexer.Rest()|, 0, 0, 0
    {
      Advance();
      ok, tree := Parse(0);
      if ok {
        ok := Expect(Sym(RP));
      }
      tree := Paren(tree);
    }

    method ListLiteral() returns (ok: bool, ghost tree: Expr)
      requires lexer.Valid() && lexer.token == Sym(LB)
      modifies lexer, compiler
      ensures lexer.Valid()
      ensures var r := ParseList(compiler.env, old(lexer.Rest())[1..], Sym(RB), [], old(compiler.Out()));
              ok == r.Items? &&
              (ok ==> tree == ListLit(r.items, r.trailing) && lexer.Rest() == r.toks &&
                      compiler.Out() == ExprSyntax.Emit(r.out, BUILD_LIST, |r.items|, 0, 0))
      decreases |lexer.Rest()|, 0, 0, 0
    {
      Advance();
      var count;
      ghost var items, trailing;
      ok, count, items, trailing := List(Sym(RB));
      if ok {
        compiler.Emit(BUILD_LIST, count, 0, 0);
      }
      tree := ListLit(items, trailing);
    }

    method MapLiteral() returns (ok: bool, ghost tree: Expr)
      requires lexer.Valid() && lexer.token == Sym(LC)
      modifies lexer, compiler
      ensures lexer.Valid()
      ensures var r := ParsePairs(compiler.env, old(lexer.Rest())[1..], [], old(compiler.Out()));
              ok == r.Items? &&
              (ok ==> tree == MapLit(r.items, r.trailing) && lexer.Rest() == r.toks &&
                      compiler.Out() == ExprSyntax.Emit(r.out, BUILD_MAP, |r.items| / 2, 0, 0))
      decreases |lexer.Rest()|, 0, 0, 0
    {
      Advance();
      var count;
      ghost var items, trailing;
      ok, count, items, trailing := Pairs();
      tree := MapLit(items, trailing);
      if ok {
        compiler.Emit(BUILD_MAP, count, 0, 0);
      }
    }

    method Constant(token: Token) returns (ok: bool)
      requires lexer.Valid() && lexer.token == token && IsLiteral(token)
      modifies lexer, compiler
      ensures lexer.Valid()
      ensures var value := Literal(compiler.env, token);
              ok == value.Some? &&
              (ok ==> lexer.Rest() == old(lexer.Rest())[1..] &&
                      compiler.Out() == PushConst(old(compiler.Out()), value.value))
    {
      var value: Const;
      if token.Num? {
        if token.isFloat {
          if !compiler.env.finite(token.text) {
            return false;
          }
          value := F64(token.text);
        } else {
          var fits, n := ParseIntegerLiteral(token.text);
          if !fits {
            return false;
          }
          value := I64(n);
        }
      } else if token.Str? {
        value := Text(token.text);
      } else if token.text == "none" || token.text == "null" {
        value := NoneValue;
      } else {
        value := Boolean(token.text == "true");
      }
      var ci := compiler.AddConst(value);
      Advance();
      compiler.Emit(PUSH_CONST, ci, 0, 0);
      ok := true;
    }

    method Get(keyword: string) returns (ok: bool, ghost tree: Expr)
      requires lexer.Valid()
      modifies lexer, compiler
      ensures lexer.Valid()
      ensures var r := ParseGet(compiler.env, keyword, old(lexer.Rest()), old(compiler.Out()));
              ok == r.Done? && (ok ==> r == Done(tree, lexer.Rest(), compiler.Out()))
      decreases |lexer.Rest()|, 4
    {
      var target := lexer.token;
      tree := Var("");
      if !target.Id? || '.' !in target.text {
        return false, tree;
      }
      var id := compiler.env.builtin(target.text);
      if id == 0 {
        return false, tree;
      }
      Advance();
      var argc := 0;
      tree := GetCall(keyword, target.text, false, [], false);
      if lexer.token == Sym(LP) {
        Advance();
        ghost var items, trailing;
        ok, argc, items, trailing := List(Sym(RP));
        if !ok {
          return;
        }
        tree := GetCall(keyword, target.text, true, items, trailing);
      }
      compiler.Emit(SYSCALL, id, argc, 1);
      ok := true;
    }

    method Name(name: string) returns (ok: bool, ghost tree: Expr)
      requires lexer.Valid()
      modifies lexer, compiler
      ensures lexer.Valid()
      ensures var r := ParseName(compiler.env, name, old(lexer.Rest()), old(compiler.Out()));
              ok == r.Done? && (ok ==> r == Done(tree, lexer.Rest(), compiler.Out()))
      decreases |lexer.Rest()|, 4
    {
      var env := compiler.env;
      tree := Var(name);
      if lexer.token == Sym(LP) {
        Advance();
        var argc;
        ghost var items, trailing;
        ok, argc, items, trailing := List(Sym(RP));
        if ok {
          var id := env.builtin(name);
          tree := NameCall(name, items, trailing);
          if id != 0 {
            compiler.Emit(SYSCALL, id, argc, if id == PRINT_ID then 0 else 1);
          } else {
            var fn := Callee(env, name);
            ok := fn.Some?;
            if ok {
              compiler.Emit(PUSH_CONST, fn.value, 0, 0);
              compiler.Emit(CALL, argc, 0, 0);
            }
          }
        }
        return;
      }
      var slot := compiler.VariableSlot(name);
      if slot >= 0 {
        compiler.Emit(LOAD_LOCAL, slot, 0, 0);
        ok, tree := Indexes(Var(name));
      } else {
        var fn := env.function_(name);
        ok := fn.Some?;
        if ok {
          compiler.Emit(PUSH_CONST, fn.value, 0, 0);
        }
      }
    }

    method Indexes(ghost base: Expr) returns (ok: bool, ghost tree: Expr)
      requires lexer.Valid()
      modifies lexer, compiler
      ensures lexer.Valid()
      ensures var r := ParseIndexes(compiler.env, base, old(lexer.Rest()), old(compiler.Out()));
              ok == r.Done? && (ok ==> r == Done(tree, lexer.Rest(), compiler.Out()))
      decreases |lexer.Rest()|, 3
    {
      tree := base;
      ghost var start, out0 := lexer.Rest(), compiler.Out();
      while lexer.token == Sym(LB)
        invariant lexer.Valid() && |lexer.Rest()| <= |start|
        invariant ParseIndexes(compiler.env, tree, lexer.Rest(), compiler.Out()) ==
                  ParseIndexes(compiler.env, base, start, out0)
        decreases |lexer.Rest()|
      {
        Advance();
        ghost var index;
        ok, index := Parse(0);
        if !ok {
          return;
        }
        ok := Expect(Sym(RB));
        if !ok {
          return;
        }
        compiler.Emit(GETITEM, 0, 0, 0);
        tree := Index(tree, index);
      }
      ok := true;
    }

    /** Items up to and over `closer`; `count` is how many there were. */
    method List(closer: Token) returns (ok: bool, count: int, ghost items: seq<Expr>, ghost trailing: bool)
      requires lexer.Valid() && closer in {Sym(RB), Sym(RP)}
      modifies lexer, compiler
      ensures lexer.Valid()
      ensures var r := ParseList(compiler.env, old(lexer.Rest()), closer, [], old(compiler.Out()));
              ok == r.Items? && (ok ==> count == |items| && r == Items(items, trailing, lexer.Rest(), compiler.Out()))
      decreases |lexer.Rest()|, 2
    {
      ghost var start, out0 := lexer.Rest(), compiler.Out();
      count, items, trailing := 0, [], false;
      while lexer.token != closer && lexer.token != Eof
        invariant lexer.Valid() && |lexer.Rest()| <= |start| && count == |items|
        invariant trailing == (items != [])
        invariant ParseList(compiler.env, lexer.Rest(), closer, items, compiler.Out()) ==
                  ParseList(compiler.env, start, closer, [], out0)
        decreases |lexer.Rest()|
      {
        ghost var e;
        ok, e := Parse(0);
        if !ok {
          return;
        }
        count, items := count + 1, items + [e];
        if lexer.token != Sym(COMMA) {
          trailing := false;
          break;
        }
        trailing := true;
        Advance();
      }
      ok := Expect(closer);
    }

    method Pair() returns (ok: bool, ghost key: Expr, ghost value: Expr)
      requires lexer.Valid()
      modifies lexer, compiler
      ensures lexer.Valid()
      ensures var r := ParsePair(compiler.env, old(lexer.Rest()), old(compiler.Out()));
              ok == r.KeyValue? && (ok ==> r == KeyValue(key, value, lexer.Rest(), compiler.Out()))
      decreases |lexer.Rest()|, 2
    {
      value := Var("");
      ok, key := Parse(0);
      if ok {
        ok := Expect(Sym(COLON));
        if ok {
          ok, value := Parse(0);
        }
      }
    }

    method Pairs() returns (ok: bool, count: int, ghost items: seq<Expr>, ghost trailing: bool)
      requires lexer.Valid()
      modifies lexer, compiler
      ensures lexer.Valid()
      ensures var r := ParsePairs(compiler.env, old(lexer.Rest()), [], old(compiler.Out()));
              ok == r.Items? &&
              (ok ==> count == |items| / 2 && r == Items(items, trailing, lexer.Rest(), compiler.Out()))
      decreases |lexer.Rest()|, 3
    {
      ghost var start, out0 := lexer.Rest(), compiler.Out();
      count, items, trailing := 0, [], false;
      while lexer.token != Sym(RC) && lexer.token != Eof
        invariant lexer.Valid() && |lexer.Rest()| <= |start| && 2 * count == |items|
        invariant trailing == (items != [])
        invariant ParsePairs(compiler.env, lexer.Rest(), items, compiler.Out()) ==
                  ParsePairs(compiler.env, start, [], out0)
        decreases |lexer.Rest()|
      {
        ghost var k, v;
        ok, k, v := Pair();
        if !ok {
          return;
        }
        count, items := count + 1, items + [k, v];
        if lexer.token != Sym(COMMA) {
          trailing := false;
          break;
        }
        trailing := true;
        Advance();
      }
      ok := Expect(Sym(RC));
    }

    /** parse_expression. */
    method Parse(minPrec: int) returns (ok: bool, ghost tree: Expr)
      requires lexer.Valid() && 0 <= minPrec
      modifies lexer, compiler
      ensures lexer.Valid()
      ensures var r := ParseExpr(compiler.env, old(lexer.Rest()), minPrec, old(compiler.Out()));
              ok == r.Done? && (ok ==> r == Done(tree, lexer.Rest(), compiler.Out()))
      decreases |lexer.Rest()|, 1
    {
      ok, tree := Primary();
      if ok {
        ok, tree := Operators(tree, minPrec);
      }
    }

    /** Its operator loop. */
    method Operators(ghost left: Expr, minPrec: int) returns (ok: bool, ghost tree: Expr)
      requires lexer.Valid() && 0 <= minPrec
      modifies lexer, compiler
      ensures lexer.Valid()
      ensures var r := ParseTail(compiler.env, left, old(lexer.Rest()), minPrec, old(compiler.Out()));
              ok == r.Done? && (ok ==> r == Done(tree, lexer.Rest(), compiler.Out()))
      decreases |lexer.Rest()|, 3
    {
      ghost var start, out0 := lexer.Rest(), compiler.Out();
      tree := left;
      while true
        invariant lexer.Valid() && |lexer.Rest()| <= |start|
        invariant ParseTail(compiler.env, tree, lexer.Rest(), minPrec, compiler.Out()) ==
                  ParseTail(compiler.env, left, start, minPrec, out0)
        decreases |lexer.Rest()|
      {
        var op := lexer.token;
        var prec := Precedence(op);
        if prec < minPrec {
          break;
        }
        ghost var toks := lexer.Rest();
        Advance();
        ghost var right;
        ok, right := Parse(prec + 1);
        if !ok {
          return;
        }
        var code := BinaryOpcode(op);
        compiler.Emit(code.0, code.1, 0, 0);
        assert toks[0] == op && HeadPrecedence(toks) == prec;
        tree := Bin(op, tree, right);
      }
      ok := true;
    }
  }

  /** compile_expr: success means that some prefix of the text's tokens is the printed form of a
      valid tree, that what follows cannot continue it, and that its postorder code was appended. */
  method CompileExpr(c: Compiler, text: string) returns (ok: bool, ghost tree: Expr, ghost left: seq<Token>)
    modifies c
    ensures var r := ParseExpr(c.env, Tokens(text, 0), 0, old(c.Out()));
            ok == r.Done? && (ok ==> r == Done(tree, left, c.Out()))
    ensures ok ==> Tokens(text, 0) == Show(tree) + left && HeadPrecedence(left) < 0
    ensures ok ==> Valid(tree, 0) && Gen(c.env, tree, old(c.Out())) == Some(c.Out())
  {
    var lexer := new Scanner(text);
    lexer.Next();
    var e := new Expression(c, lexer);
    ok, tree := e.Parse(0);
    left := lexer.Rest();
    if ok {
      ExprSound(c.env, Tokens(text, 0), 0, old(c.Out()));
    }
  }

  /** Every tree that can be compiled, printed with parentheses only where the precedence table
      needs them, is consumed whole and compiles to exactly that tree's postorder code. */
  lemma {:induction false} PrintedTreeCompiles(env: Env, t: Expr, o: Output)
    requires Bare(t) && Gen(env, t, o).Some?
    ensures var printed := Parenthesize(t, 0);
            ParseExpr(env, Show(printed), 0, o) == Done(printed, [], Gen(env, t, o).value)
  {
    var printed := Parenthesize(t, 0);
    ParenthesizeFits(env, t, 0, o);
    ExprComplete(env, printed, 0, [], o);
    assert Show(printed) + [] == Show(printed);
  }

  /** A token list compiles without leftover tokens if and only if it is the printed form of a
      valid tree for which code can be generated. The tokens of a text are those in front of its
      `Stop`, which a stray character can bring forward (`EofExactly`). */
  lemma {:induction false} CompilesExactlyTheGrammar(env: Env, toks: seq<Token>, o: Output)
    ensures (ParseExpr(env, toks, 0, o).Done? && ParseExpr(env, toks, 0, o).toks == []) <==>
            (exists t :: Valid(t, 0) && Show(t) == toks && Gen(env, t, o).Some?)
  {
    var r := ParseExpr(env, toks, 0, o);
    if r.Done? && r.toks == [] {
      ExprSound(env, toks, 0, o);
      assert Show(r.tree) + [] == Show(r.tree);
      assert Valid(r.tree, 0) && Show(r.tree) == toks && Gen(env, r.tree, o).Some?;
    }
    if t :| Valid(t, 0) && Show(t) == toks && Gen(env, t, o).Some? {
      ExprComplete(env, t, 0, [], o);
      assert Show(t) + [] == Show(t);
    }
  }
}
