/** Precedence climbing straight to stack code.

    `ParsePrimary` and its companions say what the C functions do to the token stream and to the
    compiler's output; they build the tree only to be able to name what was recognised. The class
    `ExprCompiler` is the compiler itself: it advances a scanner, appends code and constants, and
    never holds a tree except as a ghost. */
module ExprParser {
  import opened Lexer
  import opened ExprSyntax
  import opened Options

  datatype Parse = Fail | Done(tree: Expr, toks: seq<Token>, out: Output)

  datatype ParseItems = FailItems | Items(items: seq<Expr>, trailing: bool, toks: seq<Token>, out: Output)

  datatype ParseKeyValue = FailPair | KeyValue(key: Expr, value: Expr, toks: seq<Token>, out: Output)

  predicate StartsWith(toks: seq<Token>, t: Token) {
    toks != [] && toks[0] == t
  }

  /** The precedence of the current token; -1 at the end. */
  function HeadPrecedence(toks: seq<Token>): int {
    if toks == [] then -1 else Precedence(toks[0])
  }

  function ParsePrimary(env: Env, toks: seq<Token>, o: Output): (r: Parse)
    ensures r.Done? ==> |r.toks| < |toks|
    decreases |toks|, 0
  {
    if toks == [] then Fail
    else
      var t, rest := toks[0], toks[1..];
      if IsLiteral(t) then
        match Literal(env, t)
        case None => Fail
        case Some(value) => Done(Lit(t), rest, PushConst(o, value))
      else if t == Id("not") then
        match ParsePrimary(env, rest, o)
        case Fail => Fail
        case Done(e, after, o1) => Done(Not(e), after, Emit(o1, BOOL_NOT, 0, 0, 0))
      else if t == Sym(MINUS) then
        match ParsePrimary(env, rest, PushConst(o, I64(0)))
        case Fail => Fail
        case Done(e, after, o1) => Done(Neg(e), after, Emit(o1, SUB, 0, 0, 0))
      else if t == Sym(LP) then
        match ParseExpr(env, rest, 0, o)
        case Fail => Fail
        case Done(e, after, o1) =>
          if StartsWith(after, Sym(RP)) then Done(Paren(e), after[1..], o1) else Fail
      else if t == Sym(LB) then
        match ParseList(env, rest, Sym(RB), [], o)
        case FailItems => Fail
        case Items(items, trailing, after, o1) =>
          Done(ListLit(items, trailing), after, Emit(o1, BUILD_LIST, |items|, 0, 0))
      else if t == Sym(LC) then
        match ParsePairs(env, rest, [], o)
        case FailItems => Fail
        case Items(items, trailing, after, o1) =>
          Done(MapLit(items, trailing), after, Emit(o1, BUILD_MAP, |items| / 2, 0, 0))
      else if t.Id? && t.text in GET_WORDS then ParseGet(env, t.text, rest, o)
      else if t.Id? then ParseName(env, t.text, rest, o)
      else Fail
  }

  /** After `get` or `call`: a dotted builtin name and optional arguments. */
  function ParseGet(env: Env, keyword: string, toks: seq<Token>, o: Output): (r: Parse)
    ensures r.Done? ==> |r.toks| < |toks|
    decreases |toks|, 4
  {
    if toks == [] || !toks[0].Id? || '.' !in toks[0].text || env.builtin(toks[0].text) == 0 then Fail
    else
      var name, rest := toks[0].text, toks[1..];
      var id := env.builtin(name);
      if StartsWith(rest, Sym(LP)) then
        match ParseList(env, rest[1..], Sym(RP), [], o)
        case FailItems => Fail
        case Items(items, trailing, after, o1) =>
          Done(GetCall(keyword, name, true, items, trailing), after, Emit(o1, SYSCALL, id, |items|, 1))
      else Done(GetCall(keyword, name, false, [], false), rest, Emit(o, SYSCALL, id, 0, 1))
  }

  /** After an ordinary name: a call, a variable with any number of indexes, or a function name. */
  function ParseName(env: Env, name: string, toks: seq<Token>, o: Output): (r: Parse)
    ensures r.Done? ==> |r.toks| <= |toks|
    decreases |toks|, 4
  {
    if StartsWith(toks, Sym(LP)) then
      match ParseList(env, toks[1..], Sym(RP), [], o)
      case FailItems => Fail
      case Items(items, trailing, after, o1) =>
        (match GenCall(env, name, |items|, o1)
         case None => Fail
         case Some(o2) => Done(NameCall(name, items, trailing), after, o2))
    else
      match GenVar(env, name, o)
      case None => Fail
      case Some(o1) =>
        if Resolve(env, o1.globals, name).Slot? then ParseIndexes(env, Var(name), toks, o1)
        else Done(Var(name), toks, o1)
  }

  function ParseIndexes(env: Env, base: Expr, toks: seq<Token>, o: Output): (r: Parse)
    ensures r.Done? ==> |r.toks| <= |toks|
    decreases |toks|, 3
  {
    if !StartsWith(toks, Sym(LB)) then Done(base, toks, o)
    else
      match ParseExpr(env, toks[1..], 0, o)
      case Fail => Fail
      case Done(e, after, o1) =>
        if !StartsWith(after, Sym(RB)) then Fail
        else ParseIndexes(env, Index(base, e), after[1..], Emit(o1, GETITEM, 0, 0, 0))
  }

  /** The comma loop of list literals and argument lists, up to and over `closer`. */
  function ParseList(env: Env, toks: seq<Token>, closer: Token, acc: seq<Expr>, o: Output): (r: ParseItems)
    ensures r.Items? ==> |r.toks| < |toks|
    decreases |toks|, 2
  {
    if StartsWith(toks, closer) then Items(acc, acc != [], toks[1..], o)
    else
      match ParseExpr(env, toks, 0, o)
      case Fail => FailItems
      case Done(e, after, o1) =>
        if StartsWith(after, Sym(COMMA)) then ParseList(env, after[1..], closer, acc + [e], o1)
        else if StartsWith(after, closer) then Items(acc + [e], false, after[1..], o1)
        else FailItems
  }

  /** A key, a colon and a value. */
  function ParsePair(env: Env, toks: seq<Token>, o: Output): (r: ParseKeyValue)
    ensures r.KeyValue? ==> |r.toks| < |toks|
    decreases |toks|, 2
  {
    match ParseExpr(env, toks, 0, o)
    case Fail => FailPair
    case Done(k, colon, o1) =>
      if !StartsWith(colon, Sym(COLON)) then FailPair
      else
        match ParseExpr(env, colon[1..], 0, o1)
        case Fail => FailPair
        case Done(v, after, o2) => KeyValue(k, v, after, o2)
  }

  /** The comma loop of map literals, two items at a time. */
  function ParsePairs(env: Env, toks: seq<Token>, acc: seq<Expr>, o: Output): (r: ParseItems)
    ensures r.Items? ==> |r.toks| < |toks|
    decreases |toks|, 3
  {
    if StartsWith(toks, Sym(RC)) then Items(acc, acc != [], toks[1..], o)
    else
      match ParsePair(env, toks, o)
      case FailPair => FailItems
      case KeyValue(k, v, after, o1) =>
        if StartsWith(after, Sym(COMMA)) then ParsePairs(env, after[1..], acc + [k, v], o1)
        else if StartsWith(after, Sym(RC)) then Items(acc + [k, v], false, after[1..], o1)
        else FailItems
  }

  function ParseExpr(env: Env, toks: seq<Token>, minPrec: int, o: Output): (r: Parse)
    requires 0 <= minPrec
    ensures r.Done? ==> |r.toks| < |toks|
    decreases |toks|, 1
  {
    match ParsePrimary(env, toks, o)
    case Fail => Fail
    case Done(e, after, o1) => ParseTail(env, e, after, minPrec, o1)
  }

  /** The operator loop, with `left` already compiled. */
  function ParseTail(env: Env, left: Expr, toks: seq<Token>, minPrec: int, o: Output): (r: Parse)
    requires 0 <= minPrec
    ensures r.Done? ==> |r.toks| <= |toks|
    decreases |toks|, 3
  {
    var prec := HeadPrecedence(toks);
    if prec < minPrec then Done(left, toks, o)
    else
      match ParseExpr(env, toks[1..], prec + 1, o)
      case Fail => Fail
      case Done(right, after, o1) =>
        ParseTail(env, Bin(toks[0], left, right), after, minPrec,
                  Emit(o1, BinaryOpcode(toks[0]).0, BinaryOpcode(toks[0]).1, 0, 0))
  }

  // ----- soundness: what is consumed is the printed form of a valid tree, and the code is its -----

  /** `t` was read from `before`, leaving `toks`, and turned `o0` into `o`. */
  ghost predicate Read(env: Env, before: seq<Token>, o0: Output, t: Expr, p: int, toks: seq<Token>, o: Output) {
    before == Show(t) + toks && Valid(t, p) && Gen(env, t, o0) == Some(o)
  }

  ghost predicate ReadItems(env: Env, o0: Output, items: seq<Expr>, o: Output) {
    AllValid(items, |items|) && GenItems(env, items, |items|, o0) == Some(o)
  }

  /** The printed items so far and the separator that must come before the next one. */
  function Lead(items: seq<Expr>, colons: bool): seq<Token> {
    ShowFrom(items, colons, 0) + if items != [] then [Separator(colons, |items|)] else []
  }

  lemma {:induction false} SnocSound(env: Env, acc: seq<Expr>, e: Expr, colons: bool, toks: seq<Token>,
                                     after: seq<Token>, o0: Output, o: Output, o1: Output)
    requires ReadItems(env, o0, acc, o) && Read(env, toks, o, e, 0, after, o1)
    ensures ReadItems(env, o0, acc + [e], o1)
    ensures Lead(acc, colons) + toks == ShowFrom(acc + [e], colons, 0) + after
  {
    ItemsExtend(env, acc, [e], |acc|, o0);
    LeadSnoc(acc, e, colons);
    Assoc(Lead(acc, colons), Show(e), after);
  }

  lemma LeadSnoc(acc: seq<Expr>, e: Expr, colons: bool)
    ensures ShowFrom(acc + [e], colons, 0) == Lead(acc, colons) + Show(e)
  {
    ShowSnoc(acc, e, colons, 0);
  }

  lemma {:induction false} ListSound(env: Env, toks: seq<Token>, closer: Token, acc: seq<Expr>, o: Output, o0: Output)
    requires ReadItems(env, o0, acc, o)
    requires ParseList(env, toks, closer, acc, o).Items?
    ensures var r := ParseList(env, toks, closer, acc, o);
            && ReadItems(env, o0, r.items, r.out)
            && (r.trailing ==> r.items != [])
            && Lead(acc, false) + toks == ShowFrom(r.items, false, 0) + (Close(r.trailing, closer) + r.toks)
    decreases |toks|, 2
  {
    if StartsWith(toks, closer) {
      CloseAfterSeparator(ShowFrom(acc, false, 0), toks, closer);
    } else {
      ExprSound(env, toks, 0, o);
      var e := ParseExpr(env, toks, 0, o);
      SnocSound(env, acc, e.tree, false, toks, e.toks, o0, o, e.out);
      var items := acc + [e.tree];
      if StartsWith(e.toks, Sym(COMMA)) {
        SplitHead(ShowFrom(items, false, 0), e.toks);
        ListSound(env, e.toks[1..], closer, items, e.out, o0);
      } else {
        assert e.toks == Close(false, closer) + e.toks[1..];
      }
    }
  }

  lemma SplitHead<T>(a: seq<T>, b: seq<T>)
    requires b != []
    ensures a + b == a + [b[0]] + b[1..]
  {
  }

  lemma CloseAfterSeparator(shown: seq<Token>, toks: seq<Token>, closer: Token)
    requires StartsWith(toks, closer)
    ensures shown + [Sym(COMMA)] + toks == shown + (Close(true, closer) + toks[1..])
    ensures shown + [] + toks == shown + (Close(false, closer) + toks[1..])
  {
  }

  lemma {:induction false} PairsSound(env: Env, toks: seq<Token>, acc: seq<Expr>, o: Output, o0: Output)
    requires ReadItems(env, o0, acc, o) && |acc| % 2 == 0
    requires ParsePairs(env, toks, acc, o).Items?
    ensures var r := ParsePairs(env, toks, acc, o);
            && ReadItems(env, o0, r.items, r.out) && |r.items| % 2 == 0
            && (r.trailing ==> r.items != [])
            && Lead(acc, true) + toks == ShowFrom(r.items, true, 0) + (Close(r.trailing, Sym(RC)) + r.toks)
    decreases |toks|, 3
  {
    if StartsWith(toks, Sym(RC)) {
      CloseAfterSeparator(ShowFrom(acc, true, 0), toks, Sym(RC));
    } else {
      PairSound(env, toks, acc, o, o0);
      var p := ParsePair(env, toks, o);
      var both := acc + [p.key, p.value];
      if StartsWith(p.toks, Sym(COMMA)) {
        SplitHead(ShowFrom(both, true, 0), p.toks);
        PairsSound(env, p.toks[1..], both, p.out, o0);
      } else {
        assert p.toks == Close(false, Sym(RC)) + p.toks[1..];
      }
    }
  }

  lemma {:induction false} PairSound(env: Env, toks: seq<Token>, acc: seq<Expr>, o: Output, o0: Output)
    requires ReadItems(env, o0, acc, o) && |acc| % 2 == 0 && ParsePair(env, toks, o).KeyValue?
    ensures var p := ParsePair(env, toks, o);
            && ReadItems(env, o0, acc + [p.key, p.value], p.out)
            && Lead(acc, true) + toks == ShowFrom(acc + [p.key, p.value], true, 0) + p.toks
    decreases |toks|, 2, 1
  {
    var p := ParsePair(env, toks, o);
    var colon, o1 := KeyValueSound(env, toks, o);
    SnocSound(env, acc, p.key, true, toks, colon, o0, o, o1);
    SnocSound(env, acc + [p.key], p.value, true, colon[1..], p.toks, o0, o1, p.out);
    assert acc + [p.key, p.value] == acc + [p.key] + [p.value];
    SplitHead(ShowFrom(acc + [p.key], true, 0), colon);
  }

  /** A pair is a key, a colon and a value. */
  lemma {:induction false} KeyValueSound(env: Env, toks: seq<Token>, o: Output) returns (colon: seq<Token>, o1: Output)
    requires ParsePair(env, toks, o).KeyValue?
    ensures var p := ParsePair(env, toks, o);
            && Read(env, toks, o, p.key, 0, colon, o1) && StartsWith(colon, Sym(COLON))
            && Read(env, colon[1..], o1, p.value, 0, p.toks, p.out)
    decreases |toks|, 2, 0
  {
    var k := ParseExpr(env, toks, 0, o);
    colon, o1 := k.toks, k.out;
    ExprSound(env, toks, 0, o);
    ExprSound(env, colon[1..], 0, o1);
  }

  /** A whole list: the items between an opening token and `closer`. */
  lemma {:induction false} WholeListSound(env: Env, toks: seq<Token>, closer: Token, o: Output)
    requires ParseList(env, toks, closer, [], o).Items?
    ensures var r := ParseList(env, toks, closer, [], o);
            && ReadItems(env, o, r.items, r.out)
            && (r.trailing ==> r.items != [])
            && toks == ShowFrom(r.items, false, 0) + Close(r.trailing, closer) + r.toks
    decreases |toks|, 3
  {
    ListSound(env, toks, closer, [], o, o);
    assert Lead([], false) + toks == toks;
    var r := ParseList(env, toks, closer, [], o);
    Assoc(ShowFrom(r.items, false, 0), Close(r.trailing, closer), r.toks);
  }

  lemma Assoc<T>(a: seq<T>, b: seq<T>, c: seq<T>)
    ensures a + b + c == a + (b + c)
  {
  }

  lemma {:induction false} WholeMapSound(env: Env, toks: seq<Token>, o: Output)
    requires ParsePairs(env, toks, [], o).Items?
    ensures var r := ParsePairs(env, toks, [], o);
            && ReadItems(env, o, r.items, r.out) && |r.items| % 2 == 0
            && (r.trailing ==> r.items != [])
            && toks == ShowFrom(r.items, true, 0) + Close(r.trailing, Sym(RC)) + r.toks
    decreases |toks|, 4
  {
    PairsSound(env, toks, [], o, o);
    assert Lead([], true) + toks == toks;
    var r := ParsePairs(env, toks, [], o);
    Assoc(ShowFrom(r.items, true, 0), Close(r.trailing, Sym(RC)), r.toks);
  }

  lemma {:induction false} PrimarySound(env: Env, toks: seq<Token>, o: Output)
    requires ParsePrimary(env, toks, o).Done?
    ensures var r := ParsePrimary(env, toks, o);
            Read(env, toks, o, r.tree, PRIMARY, r.toks, r.out) && !r.tree.Bin?
    decreases |toks|, 0
  {
    var t, rest := toks[0], toks[1..];
    assert toks == [t] + rest;
    if IsLiteral(t) {
    } else if t == Id("not") {
      PrimarySound(env, rest, o);
      Assoc([t], Show(ParsePrimary(env, rest, o).tree), ParsePrimary(env, rest, o).toks);
    } else if t == Sym(MINUS) {
      var o1 := PushConst(o, I64(0));
      PrimarySound(env, rest, o1);
      Assoc([t], Show(ParsePrimary(env, rest, o1).tree), ParsePrimary(env, rest, o1).toks);
    } else if t.Sym? {
      BracketSound(env, t, rest, o);
    } else if t.text in GET_WORDS {
      GetSound(env, t.text, rest, o);
    } else {
      NameSound(env, t.text, rest, o);
    }
  }

  lemma {:induction false} BracketSound(env: Env, t: Token, toks: seq<Token>, o: Output)
    requires t in {Sym(LP), Sym(LB), Sym(LC)} && ParsePrimary(env, [t] + toks, o).Done?
    ensures var r := ParsePrimary(env, [t] + toks, o);
            Read(env, [t] + toks, o, r.tree, PRIMARY, r.toks, r.out) && !r.tree.Bin?
    decreases |toks|, 6
  {
    assert ([t] + toks)[1..] == toks;
    if t == Sym(LP) {
      ExprSound(env, toks, 0, o);
      var inner := ParseExpr(env, toks, 0, o);
      ParenGlue(Show(inner.tree), inner.toks);
    } else if t == Sym(LB) {
      ListLitSound(env, toks, o);
    } else {
      MapLitSound(env, toks, o);
    }
  }

  lemma ParenGlue(shown: seq<Token>, after: seq<Token>)
    requires StartsWith(after, Sym(RP))
    ensures [Sym(LP)] + (shown + after) == [Sym(LP)] + shown + [Sym(RP)] + after[1..]
  {
  }

  lemma {:induction false} ListLitSound(env: Env, toks: seq<Token>, o: Output)
    requires ParseList(env, toks, Sym(RB), [], o).Items?
    ensures var r := ParseList(env, toks, Sym(RB), [], o);
            Read(env, [Sym(LB)] + toks, o, ListLit(r.items, r.trailing), PRIMARY, r.toks,
                 Emit(r.out, BUILD_LIST, |r.items|, 0, 0))
    decreases |toks|, 5
  {
    WholeListSound(env, toks, Sym(RB), o);
    var r := ParseList(env, toks, Sym(RB), [], o);
    Assoc([Sym(LB)], ShowFrom(r.items, false, 0) + Close(r.trailing, Sym(RB)), r.toks);
  }

  lemma {:induction false} MapLitSound(env: Env, toks: seq<Token>, o: Output)
    requires ParsePairs(env, toks, [], o).Items?
    ensures var r := ParsePairs(env, toks, [], o);
            Read(env, [Sym(LC)] + toks, o, MapLit(r.items, r.trailing), PRIMARY, r.toks,
                 Emit(r.out, BUILD_MAP, |r.items| / 2, 0, 0))
    decreases |toks|, 5
  {
    WholeMapSound(env, toks, o);
    var r := ParsePairs(env, toks, [], o);
    Assoc([Sym(LC)], ShowFrom(r.items, true, 0) + Close(r.trailing, Sym(RC)), r.toks);
  }

  lemma {:induction false} GetSound(env: Env, keyword: string, toks: seq<Token>, o: Output)
    requires keyword in GET_WORDS && ParseGet(env, keyword, toks, o).Done?
    ensures var r := ParseGet(env, keyword, toks, o);
            Read(env, [Id(keyword)] + toks, o, r.tree, PRIMARY, r.toks, r.out) && !r.tree.Bin?
    decreases |toks|, 6
  {
    var name, rest := toks[0].text, toks[1..];
    if StartsWith(rest, Sym(LP)) {
      GetArgumentsSound(env, keyword, name, rest[1..], o);
      assert toks == [Id(name)] + ([Sym(LP)] + rest[1..]);
    } else {
      assert [Id(keyword)] + toks == [Id(keyword), Id(name)] + [] + rest;
    }
  }

  lemma {:induction false} GetArgumentsSound(env: Env, keyword: string, name: string, toks: seq<Token>, o: Output)
    requires keyword in GET_WORDS && '.' in name && env.builtin(name) != 0
    requires ParseList(env, toks, Sym(RP), [], o).Items?
    ensures var r := ParseList(env, toks, Sym(RP), [], o);
            Read(env, [Id(keyword)] + ([Id(name)] + ([Sym(LP)] + toks)), o,
                 GetCall(keyword, name, true, r.items, r.trailing),
                 PRIMARY, r.toks, Emit(r.out, SYSCALL, env.builtin(name), |r.items|, 1))
    decreases |toks|, 5
  {
    WholeListSound(env, toks, Sym(RP), o);
    var r := ParseList(env, toks, Sym(RP), [], o);
    GetShown(GetCall(keyword, name, true, r.items, r.trailing), r.toks, toks);
  }

  lemma GetShown(t: Expr, after: seq<Token>, toks: seq<Token>)
    requires t.GetCall? && t.parens && toks == ShowFrom(t.items, false, 0) + Close(t.trailing, Sym(RP)) + after
    ensures [Id(t.keyword)] + ([Id(t.name)] + ([Sym(LP)] + toks)) == Show(t) + after
  {
    WordsGlue([Id(t.keyword)], [Id(t.name)], [Sym(LP)], ShowFrom(t.items, false, 0) + Close(t.trailing, Sym(RP)),
              after);
  }

  lemma WordsGlue<T>(a: seq<T>, b: seq<T>, c: seq<T>, d: seq<T>, e: seq<T>)
    ensures a + (b + (c + (d + e))) == a + b + (c + d) + e
  {
  }

  lemma {:induction false} NameSound(env: Env, name: string, toks: seq<Token>, o: Output)
    requires name !in RESERVED && ParseName(env, name, toks, o).Done?
    ensures var r := ParseName(env, name, toks, o);
            Read(env, [Id(name)] + toks, o, r.tree, PRIMARY, r.toks, r.out) && !r.tree.Bin?
    decreases |toks|, 5
  {
    if StartsWith(toks, Sym(LP)) {
      CallSound(env, name, toks, o);
    } else {
      var o1 := GenVar(env, name, o).value;
      if Resolve(env, o1.globals, name).Slot? {
        IndexesSound(env, Var(name), toks, o1, [Id(name)] + toks, o);
      }
    }
  }

  lemma {:induction false} CallSound(env: Env, name: string, toks: seq<Token>, o: Output)
    requires name !in RESERVED && StartsWith(toks, Sym(LP)) && ParseName(env, name, toks, o).Done?
    ensures var r := ParseName(env, name, toks, o);
            Read(env, [Id(name)] + toks, o, r.tree, PRIMARY, r.toks, r.out) && !r.tree.Bin?
    decreases |toks|, 4
  {
    WholeListSound(env, toks[1..], Sym(RP), o);
    var r := ParseList(env, toks[1..], Sym(RP), [], o);
    CallGlue(name, toks, ShowFrom(r.items, false, 0) + Close(r.trailing, Sym(RP)), r.toks);
  }

  lemma CallGlue(name: string, toks: seq<Token>, shown: seq<Token>, after: seq<Token>)
    requires StartsWith(toks, Sym(LP)) && toks[1..] == shown + after
    ensures [Id(name)] + toks == [Id(name), Sym(LP)] + shown + after
  {
    assert toks == [Sym(LP)] + (shown + after);
  }

  lemma {:induction false} IndexesSound(env: Env, base: Expr, toks: seq<Token>, o: Output, before: seq<Token>,
                                        o0: Output)
    requires base.Var? || base.Index?
    requires Read(env, before, o0, base, PRIMARY, toks, o)
    requires Indexable(env, base, o)
    requires ParseIndexes(env, base, toks, o).Done?
    ensures var r := ParseIndexes(env, base, toks, o);
            Read(env, before, o0, r.tree, PRIMARY, r.toks, r.out) && !r.tree.Bin?
    decreases |toks|, 3
  {
    if StartsWith(toks, Sym(LB)) {
      ExprSound(env, toks[1..], 0, o);
      var inner := ParseExpr(env, toks[1..], 0, o);
      IndexRead(env, base, inner.tree, toks, inner.toks, o, inner.out, before, o0);
      IndexesSound(env, Index(base, inner.tree), inner.toks[1..], Emit(inner.out, GETITEM, 0, 0, 0), before, o0);
    }
  }

  /** A base, then an index in brackets. */
  lemma IndexRead(env: Env, base: Expr, index: Expr, toks: seq<Token>, after: seq<Token>, o: Output, o1: Output,
                  before: seq<Token>, o0: Output)
    requires (base.Var? || base.Index?) && Indexable(env, base, o)
    requires StartsWith(toks, Sym(LB)) && StartsWith(after, Sym(RB))
    requires Read(env, before, o0, base, PRIMARY, toks, o) && Read(env, toks[1..], o, index, 0, after, o1)
    ensures Read(env, before, o0, Index(base, index), PRIMARY, after[1..], Emit(o1, GETITEM, 0, 0, 0))
  {
    IndexGlue(Show(base), Show(index), toks, after);
  }

  lemma IndexGlue(base: seq<Token>, index: seq<Token>, toks: seq<Token>, after: seq<Token>)
    requires StartsWith(toks, Sym(LB)) && toks[1..] == index + after && StartsWith(after, Sym(RB))
    ensures base + toks == base + ([Sym(LB)] + index + [Sym(RB)]) + after[1..]
  {
    assert toks == [Sym(LB)] + (index + after);
    assert after == [Sym(RB)] + after[1..];
  }

  /** What parse_expression consumes is the printed form of a tree that is valid at its level, the
      code it appends is that tree's postorder code, and it stops only before a token that cannot
      continue the expression at this level. */
  lemma {:induction false} ExprSound(env: Env, toks: seq<Token>, minPrec: int, o: Output)
    requires 0 <= minPrec <= PRIMARY && ParseExpr(env, toks, minPrec, o).Done?
    ensures var r := ParseExpr(env, toks, minPrec, o);
            Read(env, toks, o, r.tree, minPrec, r.toks, r.out) && HeadPrecedence(r.toks) < minPrec
    decreases |toks|, 1
  {
    PrimarySound(env, toks, o);
    var r := ParsePrimary(env, toks, o);
    TailSound(env, r.tree, r.toks, minPrec, r.out, toks, o);
  }

  lemma {:induction false} TailSound(env: Env, left: Expr, toks: seq<Token>, minPrec: int, o: Output,
                                     before: seq<Token>, o0: Output)
    requires 0 <= minPrec <= PRIMARY
    requires Read(env, before, o0, left, minPrec, toks, o)
    requires left.Bin? ==> HeadPrecedence(toks) <= Precedence(left.op)
    requires ParseTail(env, left, toks, minPrec, o).Done?
    ensures var r := ParseTail(env, left, toks, minPrec, o);
            Read(env, before, o0, r.tree, minPrec, r.toks, r.out) && HeadPrecedence(r.toks) < minPrec
    decreases |toks|, 3
  {
    var prec := HeadPrecedence(toks);
    if prec >= minPrec {
      ExprSound(env, toks[1..], prec + 1, o);
      var right := ParseExpr(env, toks[1..], prec + 1, o);
      var bin := Bin(toks[0], left, right.tree);
      OperatorRead(env, left, right.tree, toks, right.toks, minPrec, o, right.out, before, o0);
      TailSound(env, bin, right.toks, minPrec,
                Emit(right.out, BinaryOpcode(toks[0]).0, BinaryOpcode(toks[0]).1, 0, 0), before, o0);
    }
  }

  /** A left operand, an operator and a right operand that binds tighter. */
  lemma OperatorRead(env: Env, left: Expr, right: Expr, toks: seq<Token>, after: seq<Token>, minPrec: int,
                     o: Output, o1: Output, before: seq<Token>, o0: Output)
    requires 0 <= minPrec <= HeadPrecedence(toks)
    requires Read(env, before, o0, left, minPrec, toks, o)
    requires left.Bin? ==> HeadPrecedence(toks) <= Precedence(left.op)
    requires Read(env, toks[1..], o, right, HeadPrecedence(toks) + 1, after, o1)
    ensures Read(env, before, o0, Bin(toks[0], left, right), minPrec, after,
                 Emit(o1, BinaryOpcode(toks[0]).0, BinaryOpcode(toks[0]).1, 0, 0))
  {
    OperatorGlue(Show(left), Show(right), toks, after);
    AtLevel(left, minPrec, HeadPrecedence(toks));
  }

  /** A tree fits every level up to its own operator's. */
  lemma AtLevel(t: Expr, p: int, q: int)
    requires Valid(t, p) && (t.Bin? ==> q <= Precedence(t.op))
    ensures Valid(t, q)
  {
  }

  lemma OperatorGlue(left: seq<Token>, right: seq<Token>, toks: seq<Token>, after: seq<Token>)
    requires toks != [] && toks[1..] == right + after
    ensures left + toks == left + ([toks[0]] + right) + after
  {
    assert toks == [toks[0]] + (right + after);
  }

  // ----- completeness: every compilable valid tree is recognised as itself -----

  /** What may come after a printed tree without being drawn into it. */
  ghost predicate CanFollow(t: Expr, toks: seq<Token>) {
    !StartsWith(toks, Sym(LP)) && !StartsWith(toks, Sym(LB)) &&
    (t.Bin? ==> HeadPrecedence(toks) <= Precedence(t.op))
  }

  lemma {:induction false} ShowHead(t: Expr, p: int)
    requires Valid(t, p)
    ensures Show(t) != [] && Show(t)[0] !in {Sym(RP), Sym(RB), Sym(RC), Sym(COMMA), Sym(COLON)}
  {
    if t.Bin? {
      ShowHead(t.left, Precedence(t.op));
    } else if t.Index? {
      ShowHead(t.base, PRIMARY);
    }
  }

  lemma FirstToken(t: Expr, after: seq<Token>)
    requires Valid(t, 0)
    ensures var toks := Show(t) + after; toks != [] && toks[0] !in {Sym(RP), Sym(RB), Sym(RC)}
  {
    ShowHead(t, 0);
  }

  /** The operator loop is reached with exactly this tree as its left operand. */
  lemma {:induction false} ExprReaches(env: Env, t: Expr, p: int, rest: seq<Token>, o: Output)
    requires 0 <= p <= PRIMARY && Valid(t, p) && CanFollow(t, rest)
    requires Gen(env, t, o).Some?
    ensures ParseExpr(env, Show(t) + rest, p, o) == ParseTail(env, t, rest, p, Gen(env, t, o).value)
    decreases t, 3
  {
    if t.Bin? {
      var q := Precedence(t.op);
      var after := [t.op] + (Show(t.right) + rest);
      AssocSeparator(Show(t.left), t.op, Show(t.right), rest);
      ExprReaches(env, t.left, p, after, o);
      var o1 := Gen(env, t.left, o).value;
      ExprComplete(env, t.right, q + 1, rest, o1);
      OperatorStep(env, t.left, t.op, Show(t.right) + rest, t.right, rest, p, o1, Gen(env, t.right, o1).value);
    } else {
      PrimaryComplete(env, t, rest, o);
    }
  }

  /** One turn of the operator loop. */
  lemma OperatorStep(env: Env, left: Expr, op: Token, toks: seq<Token>, right: Expr, rest: seq<Token>, p: int,
                     o: Output, o1: Output)
    requires 0 <= p <= Precedence(op)
    requires ParseExpr(env, toks, Precedence(op) + 1, o) == Done(right, rest, o1)
    ensures ParseTail(env, left, [op] + toks, p, o) ==
            ParseTail(env, Bin(op, left, right), rest, p, Emit(o1, BinaryOpcode(op).0, BinaryOpcode(op).1, 0, 0))
  {
    assert ([op] + toks)[1..] == toks;
  }

  lemma {:induction false} ExprComplete(env: Env, t: Expr, p: int, rest: seq<Token>, o: Output)
    requires 0 <= p <= PRIMARY && Valid(t, p)
    requires !StartsWith(rest, Sym(LP)) && !StartsWith(rest, Sym(LB)) && HeadPrecedence(rest) < p
    requires Gen(env, t, o).Some?
    ensures ParseExpr(env, Show(t) + rest, p, o) == Done(t, rest, Gen(env, t, o).value)
    decreases t, 4
  {
    ExprReaches(env, t, p, rest, o);
  }

  lemma {:induction false} PrimaryComplete(env: Env, t: Expr, rest: seq<Token>, o: Output)
    requires Valid(t, PRIMARY) && !t.Bin? && CanFollow(t, rest) && Gen(env, t, o).Some?
    ensures ParsePrimary(env, Show(t) + rest, o) == Done(t, rest, Gen(env, t, o).value)
    decreases t, 2
  {
    match t
    case Lit(_) => UnaryComplete(env, t, rest, o);
    case Neg(_) => UnaryComplete(env, t, rest, o);
    case Not(_) => UnaryComplete(env, t, rest, o);
    case Paren(_) => ParenComplete(env, t, rest, o);
    case ListLit(_, _) => ListLitComplete(env, t, rest, o);
    case MapLit(_, _) => MapLitComplete(env, t, rest, o);
    case GetCall(_, _, _, _, _) => WordComplete(env, t, rest, o);
    case NameCall(_, _, _) => WordComplete(env, t, rest, o);
    case Var(_) => WordComplete(env, t, rest, o);
    case Index(_, _) => IndexReaches(env, t, rest, o);
  }

  lemma {:induction false} UnaryComplete(env: Env, t: Expr, rest: seq<Token>, o: Output)
    requires (t.Lit? || t.Neg? || t.Not?) && Valid(t, PRIMARY) && CanFollow(t, rest) && Gen(env, t, o).Some?
    ensures ParsePrimary(env, Show(t) + rest, o) == Done(t, rest, Gen(env, t, o).value)
    decreases t, 0
  {
    var toks := Show(t) + rest;
    if t.Lit? {
      assert toks[1..] == rest;
    } else if t.Neg? {
      assert toks[1..] == Show(t.operand) + rest;
      PrimaryComplete(env, t.operand, rest, PushConst(o, I64(0)));
    } else {
      assert toks[1..] == Show(t.operand) + rest;
      PrimaryComplete(env, t.operand, rest, o);
    }
  }

  lemma {:induction false} WordComplete(env: Env, t: Expr, rest: seq<Token>, o: Output)
    requires (t.GetCall? || t.NameCall? || t.Var?) && Valid(t, PRIMARY) && CanFollow(t, rest) && Gen(env, t, o).Some?
    ensures ParsePrimary(env, Show(t) + rest, o) == Done(t, rest, Gen(env, t, o).value)
    decreases t, 1
  {
    var after := (Show(t) + rest)[1..];
    if t.GetCall? {
      assert Show(t) + rest == [Id(t.keyword)] + after;
      GetComplete(env, t, rest, o);
      WordStep(env, t.keyword, after, o);
    } else {
      assert Show(t) + rest == [Id(t.name)] + after;
      WordStep(env, t.name, after, o);
      if t.NameCall? {
        CallComplete(env, t, rest, o);
      } else {
        assert after == rest;
        assert ParseName(env, t.name, rest, o) == Done(t, rest, GenVar(env, t.name, o).value);
      }
    }
  }

  lemma {:induction false} WordStep(env: Env, word: string, after: seq<Token>, o: Output)
    requires word !in LITERAL_WORDS && word != "not"
    ensures ParsePrimary(env, [Id(word)] + after, o) ==
            if word in GET_WORDS then ParseGet(env, word, after, o) else ParseName(env, word, after, o)
  {
    assert ([Id(word)] + after)[1..] == after;
  }

  lemma {:induction false} ParenComplete(env: Env, t: Expr, rest: seq<Token>, o: Output)
    requires t.Paren? && Valid(t, PRIMARY) && Gen(env, t, o).Some?
    ensures ParsePrimary(env, Show(t) + rest, o) == Done(t, rest, Gen(env, t, o).value)
    decreases t, 0
  {
    var close := [Sym(RP)] + rest;
    ExprComplete(env, t.inner, 0, close, o);
    ParenStep(env, Show(t.inner) + close, t.inner, rest, o, Gen(env, t.inner, o).value);
    ParenShown(Show(t.inner), rest);
  }

  lemma ParenShown(shown: seq<Token>, rest: seq<Token>)
    ensures [Sym(LP)] + shown + [Sym(RP)] + rest == [Sym(LP)] + (shown + ([Sym(RP)] + rest))
  {
  }

  lemma ParenStep(env: Env, toks: seq<Token>, inner: Expr, rest: seq<Token>, o: Output, o1: Output)
    requires ParseExpr(env, toks, 0, o) == Done(inner, [Sym(RP)] + rest, o1)
    ensures ParsePrimary(env, [Sym(LP)] + toks, o) == Done(Paren(inner), rest, o1)
  {
    assert ([Sym(LP)] + toks)[1..] == toks && ([Sym(RP)] + rest)[1..] == rest;
  }

  lemma {:induction false} ListLitComplete(env: Env, t: Expr, rest: seq<Token>, o: Output)
    requires t.ListLit? && Valid(t, PRIMARY) && Gen(env, t, o).Some?
    ensures ParsePrimary(env, Show(t) + rest, o) == Done(t, rest, Gen(env, t, o).value)
    decreases t, 0
  {
    var items := ShowFrom(t.items, false, 0) + (Close(t.trailing, Sym(RB)) + rest);
    assert Show(t) + rest == [Sym(LB)] + items;
    ListLitStep(env, items, o);
    WholeListComplete(env, t.items, Sym(RB), t.trailing, rest, o);
  }

  lemma {:induction false} ListLitStep(env: Env, after: seq<Token>, o: Output)
    ensures ParsePrimary(env, [Sym(LB)] + after, o) ==
            match ParseList(env, after, Sym(RB), [], o)
            case FailItems => Fail
            case Items(items, trailing, rest, o1) =>
              Done(ListLit(items, trailing), rest, Emit(o1, BUILD_LIST, |items|, 0, 0))
  {
    assert ([Sym(LB)] + after)[1..] == after;
  }

  lemma {:induction false} MapLitComplete(env: Env, t: Expr, rest: seq<Token>, o: Output)
    requires t.MapLit? && Valid(t, PRIMARY) && Gen(env, t, o).Some?
    ensures ParsePrimary(env, Show(t) + rest, o) == Done(t, rest, Gen(env, t, o).value)
    decreases t, 0
  {
    var items := ShowFrom(t.items, true, 0) + (Close(t.trailing, Sym(RC)) + rest);
    assert Show(t) + rest == [Sym(LC)] + items;
    MapLitStep(env, items, o);
    WholeMapComplete(env, t.items, t.trailing, rest, o);
  }

  lemma {:induction false} MapLitStep(env: Env, after: seq<Token>, o: Output)
    ensures ParsePrimary(env, [Sym(LC)] + after, o) ==
            match ParsePairs(env, after, [], o)
            case FailItems => Fail
            case Items(items, trailing, rest, o1) =>
              Done(MapLit(items, trailing), rest, Emit(o1, BUILD_MAP, |items| / 2, 0, 0))
  {
    assert ([Sym(LC)] + after)[1..] == after;
  }

  lemma {:induction false} CallComplete(env: Env, t: Expr, rest: seq<Token>, o: Output)
    requires t.NameCall? && Valid(t, PRIMARY) && Gen(env, t, o).Some?
    ensures ParseName(env, t.name, (Show(t) + rest)[1..], o) == Done(t, rest, Gen(env, t, o).value)
    decreases t, 0
  {
    var args := ShowFrom(t.items, false, 0) + (Close(t.trailing, Sym(RP)) + rest);
    assert (Show(t) + rest)[1..] == [Sym(LP)] + args;
    assert ([Sym(LP)] + args)[1..] == args;
    WholeListComplete(env, t.items, Sym(RP), t.trailing, rest, o);
  }

  lemma {:induction false} GetComplete(env: Env, t: Expr, rest: seq<Token>, o: Output)
    requires t.GetCall? && Valid(t, PRIMARY) && CanFollow(t, rest) && Gen(env, t, o).Some?
    ensures ParseGet(env, t.keyword, (Show(t) + rest)[1..], o) == Done(t, rest, Gen(env, t, o).value)
    decreases t, 0
  {
    var toks := (Show(t) + rest)[1..];
    var items := t.items;
    assert toks[0] == Id(t.name);
    if t.parens {
      var args := ShowFrom(items, false, 0) + (Close(t.trailing, Sym(RP)) + rest);
      assert toks[1..] == [Sym(LP)] + args;
      assert ([Sym(LP)] + args)[1..] == args;
      WholeListComplete(env, items, Sym(RP), t.trailing, rest, o);
    } else {
      assert toks[1..] == rest;
    }
  }

  lemma {:induction false} IndexReaches(env: Env, t: Expr, rest: seq<Token>, o: Output)
    requires (t.Var? || t.Index?) && Valid(t, PRIMARY) && !StartsWith(rest, Sym(LP))
    requires Gen(env, t, o).Some? && Indexable(env, t, Gen(env, t, o).value)
    ensures ParsePrimary(env, Show(t) + rest, o) == ParseIndexes(env, t, rest, Gen(env, t, o).value)
    decreases t, 0
  {
    if t.Var? {
      VarReaches(env, t, rest, o);
    } else {
      var close := [Sym(RB)] + rest;
      var after := [Sym(LB)] + (Show(t.index) + close);
      IndexShown(Show(t.base), Show(t.index), rest);
      IndexReaches(env, t.base, after, o);
      var o1 := Gen(env, t.base, o).value;
      ExprComplete(env, t.index, 0, close, o1);
      IndexTurn(env, t.base, t.index, Show(t.index), rest, o1, Gen(env, t.index, o1).value);
    }
  }

  lemma {:induction false} VarReaches(env: Env, t: Expr, rest: seq<Token>, o: Output)
    requires t.Var? && Valid(t, PRIMARY) && !StartsWith(rest, Sym(LP))
    requires Gen(env, t, o).Some? && Indexable(env, t, Gen(env, t, o).value)
    ensures ParsePrimary(env, Show(t) + rest, o) == ParseIndexes(env, t, rest, Gen(env, t, o).value)
  {
    WordStep(env, t.name, rest, o);
  }

  lemma IndexShown(base: seq<Token>, index: seq<Token>, rest: seq<Token>)
    ensures base + ([Sym(LB)] + index + [Sym(RB)]) + rest == base + ([Sym(LB)] + (index + ([Sym(RB)] + rest)))
  {
  }

  lemma IndexTurn(env: Env, base: Expr, index: Expr, shown: seq<Token>, rest: seq<Token>, o: Output, o1: Output)
    requires ParseExpr(env, shown + ([Sym(RB)] + rest), 0, o) == Done(index, [Sym(RB)] + rest, o1)
    ensures ParseIndexes(env, base, [Sym(LB)] + (shown + ([Sym(RB)] + rest)), o) ==
            ParseIndexes(env, Index(base, index), rest, Emit(o1, GETITEM, 0, 0, 0))
  {
    var after := shown + ([Sym(RB)] + rest);
    assert ([Sym(LB)] + after)[1..] == after && ([Sym(RB)] + rest)[1..] == rest;
  }

  lemma {:induction false} ItemsBefore(env: Env, items: seq<Expr>, n: nat, m: nat, o: Output)
    requires n <= m <= |items| && GenItems(env, items, m, o).Some?
    ensures GenItems(env, items, n, o).Some?
    ensures AllValid(items, m) ==> AllValid(items, n)
    decreases m
  {
    if n < m {
      ItemsBefore(env, items, n, m - 1, o);
    }
  }

  /** Each item of a valid list is valid, and its code is appended to that of the items before it. */
  lemma {:induction false} ItemFacts(env: Env, items: seq<Expr>, i: nat, o: Output)
    requires i < |items| && AllValid(items, |items|) && GenItems(env, items, |items|, o).Some?
    ensures Valid(items[i], 0)
    ensures GenItems(env, items, i, o).Some? && GenItems(env, items, i + 1, o).Some?
    ensures Gen(env, items[i], GenItems(env, items, i, o).value) == GenItems(env, items, i + 1, o)
  {
    ItemsBefore(env, items, i + 1, |items|, o);
  }

  predicate EndsItem(toks: seq<Token>) {
    toks != [] && toks[0] in {Sym(COMMA), Sym(COLON), Sym(RP), Sym(RB), Sym(RC)}
  }

  /** An item is read back in front of whatever can end an item. */
  lemma {:induction false} ItemComplete(env: Env, items: seq<Expr>, i: nat, toks: seq<Token>, after: seq<Token>,
                                        o: Output, o1: Output)
    requires i < |items| && Valid(items[i], 0) && Gen(env, items[i], o) == Some(o1)
    requires EndsItem(after) && toks == Show(items[i]) + after
    ensures ParseExpr(env, toks, 0, o) == Done(items[i], after, o1)
    ensures toks != [] && toks[0] !in {Sym(RP), Sym(RB), Sym(RC)}
    decreases items, 0
  {
    FirstToken(items[i], after);
    ExprComplete(env, items[i], 0, after, o);
  }

  /** One turn of the list loop on the printed form of item `i` and its successors. */
  lemma {:induction false} ListTurn(env: Env, items: seq<Expr>, i: nat, after: seq<Token>, closer: Token,
                                    toks: seq<Token>, o: Output, o1: Output)
    requires i < |items| && Valid(items[i], 0) && Gen(env, items[i], o) == Some(o1) && closer in {Sym(RB), Sym(RP)}
    requires StartsWith(after, Sym(COMMA)) || StartsWith(after, closer)
    requires toks == Show(items[i]) + after
    ensures ParseList(env, toks, closer, items[..i], o) ==
            if StartsWith(after, closer) then Items(items[..i + 1], false, after[1..], o1)
            else ParseList(env, after[1..], closer, items[..i + 1], o1)
    decreases items, |items| - i, 0
  {
    ItemComplete(env, items, i, toks, after, o, o1);
    ListStep(env, toks, closer, items[..i], items[i], after, o, o1);
    assert items[..i] + [items[i]] == items[..i + 1];
  }

  lemma ListStep(env: Env, toks: seq<Token>, closer: Token, acc: seq<Expr>, e: Expr, after: seq<Token>, o: Output,
                 o1: Output)
    requires !StartsWith(toks, closer) && closer != Sym(COMMA) && ParseExpr(env, toks, 0, o) == Done(e, after, o1)
    requires StartsWith(after, Sym(COMMA)) || StartsWith(after, closer)
    ensures ParseList(env, toks, closer, acc, o) ==
            if StartsWith(after, closer) then Items(acc + [e], false, after[1..], o1)
            else ParseList(env, after[1..], closer, acc + [e], o1)
  {
  }

  lemma {:induction false} ListComplete(env: Env, items: seq<Expr>, i: nat, closer: Token, trailing: bool,
                                        rest: seq<Token>, o0: Output, o: Output)
    requires i < |items| && AllValid(items, |items|) && closer in {Sym(RB), Sym(RP)}
    requires GenItems(env, items, |items|, o0).Some? && GenItems(env, items, i, o0) == Some(o)
    ensures ParseList(env, ShowFrom(items, false, i) + (Close(trailing, closer) + rest), closer, items[..i], o)
            == Items(items, trailing, rest, GenItems(env, items, |items|, o0).value)
    decreases items, |items| - i, 2
  {
    if i + 1 < |items| {
      ListMore(env, items, i, closer, Close(trailing, closer) + rest, o0, o);
      ListComplete(env, items, i + 1, closer, trailing, rest, o0, GenItems(env, items, i + 1, o0).value);
    } else {
      ListEnd(env, items, i, closer, trailing, rest, o0, o);
    }
  }

  lemma {:induction false} ListEnd(env: Env, items: seq<Expr>, i: nat, closer: Token, trailing: bool,
                                   rest: seq<Token>, o0: Output, o: Output)
    requires i + 1 == |items| && AllValid(items, |items|) && closer in {Sym(RB), Sym(RP)}
    requires GenItems(env, items, |items|, o0).Some? && GenItems(env, items, i, o0) == Some(o)
    ensures ParseList(env, ShowFrom(items, false, i) + (Close(trailing, closer) + rest), closer, items[..i], o)
            == Items(items, trailing, rest, GenItems(env, items, |items|, o0).value)
    decreases items, |items| - i, 1, 2
  {
    ItemFacts(env, items, i, o0);
    ListLast(env, items, i, Show(items[i]) + (Close(trailing, closer) + rest), closer, trailing, rest, o,
             GenItems(env, items, |items|, o0).value);
  }

  lemma {:induction false} ListMore(env: Env, items: seq<Expr>, i: nat, closer: Token, closing: seq<Token>,
                                    o0: Output, o: Output)
    requires i + 1 < |items| && AllValid(items, |items|) && closer in {Sym(RB), Sym(RP)}
    requires GenItems(env, items, |items|, o0).Some? && GenItems(env, items, i, o0) == Some(o)
    ensures GenItems(env, items, i + 1, o0).Some?
    ensures ParseList(env, ShowFrom(items, false, i) + closing, closer, items[..i], o) ==
            ParseList(env, ShowFrom(items, false, i + 1) + closing, closer, items[..i + 1],
                      GenItems(env, items, i + 1, o0).value)
    decreases items, |items| - i, 1
  {
    ItemFacts(env, items, i, o0);
    var shown := ShowFrom(items, false, i + 1);
    AssocSeparator(Show(items[i]), Sym(COMMA), shown, closing);
    ListTurn(env, items, i, [Sym(COMMA)] + (shown + closing), closer, ShowFrom(items, false, i) + closing, o,
             GenItems(env, items, i + 1, o0).value);
  }

  /** The last item, with or without a comma after it. */
  lemma {:induction false} ListLast(env: Env, items: seq<Expr>, i: nat, toks: seq<Token>, closer: Token, trailing: bool,
                                    rest: seq<Token>, o: Output, o1: Output)
    requires i + 1 == |items| && Valid(items[i], 0) && Gen(env, items[i], o) == Some(o1) && closer in {Sym(RB), Sym(RP)}
    requires toks == Show(items[i]) + (Close(trailing, closer) + rest)
    ensures ParseList(env, toks, closer, items[..i], o) == Items(items, trailing, rest, o1)
    decreases items, 1, 1, 0
  {
    var closing := Close(trailing, closer) + rest;
    ListTurn(env, items, i, closing, closer, toks, o, o1);
    assert items[..i + 1] == items;
    if trailing {
      assert closing[1..] == [closer] + rest;
      ListCloses(env, items, closer, rest, o1);
    } else {
      assert closing[1..] == rest;
    }
  }

  lemma ListCloses(env: Env, items: seq<Expr>, closer: Token, rest: seq<Token>, o: Output)
    ensures ParseList(env, [closer] + rest, closer, items, o) == Items(items, items != [], rest, o)
  {
    assert ([closer] + rest)[1..] == rest;
  }

  /** A whole list, empty or not, after its opening token. */
  lemma {:induction false} WholeListComplete(env: Env, items: seq<Expr>, closer: Token, trailing: bool,
                                             rest: seq<Token>, o: Output)
    requires AllValid(items, |items|) && closer in {Sym(RB), Sym(RP)} && (trailing ==> items != [])
    requires GenItems(env, items, |items|, o).Some?
    ensures ParseList(env, ShowFrom(items, false, 0) + (Close(trailing, closer) + rest), closer, [], o)
            == Items(items, trailing, rest, GenItems(env, items, |items|, o).value)
    decreases items, |items|, 3
  {
    if items == [] {
      ListCloses(env, [], closer, rest, o);
      assert [] + ([closer] + rest) == [closer] + rest;
    } else {
      ListComplete(env, items, 0, closer, trailing, rest, o, o);
      assert items[..0] == [];
    }
  }

  lemma AssocSeparator(a: seq<Token>, sep: Token, b: seq<Token>, c: seq<Token>)
    ensures a + ([sep] + b) + c == a + ([sep] + (b + c))
    ensures ([sep] + (b + c))[1..] == b + c
  {
  }

  lemma {:induction false} PairFacts(env: Env, items: seq<Expr>, i: nat, o: Output)
    requires i + 2 <= |items| && AllValid(items, |items|) && GenItems(env, items, |items|, o).Some?
    ensures Valid(items[i], 0) && Valid(items[i + 1], 0)
    ensures GenItems(env, items, i, o).Some? && GenItems(env, items, i + 1, o).Some? &&
            GenItems(env, items, i + 2, o).Some?
    ensures Gen(env, items[i], GenItems(env, items, i, o).value) == GenItems(env, items, i + 1, o)
    ensures Gen(env, items[i + 1], GenItems(env, items, i + 1, o).value) == GenItems(env, items, i + 2, o)
  {
    ItemFacts(env, items, i, o);
    ItemFacts(env, items, i + 1, o);
  }

  /** Items `i` and `i + 1` are read back as a key and a value. */
  lemma {:induction false} PairRead(env: Env, items: seq<Expr>, i: nat, toks: seq<Token>, after: seq<Token>,
                                    o: Output, o1: Output, o2: Output)
    requires i + 2 <= |items| && Valid(items[i], 0) && Valid(items[i + 1], 0)
    requires Gen(env, items[i], o) == Some(o1) && Gen(env, items[i + 1], o1) == Some(o2)
    requires StartsWith(after, Sym(COMMA)) || StartsWith(after, Sym(RC))
    requires toks == Show(items[i]) + ([Sym(COLON)] + (Show(items[i + 1]) + after))
    ensures toks != [] && toks[0] != Sym(RC)
    ensures ParsePair(env, toks, o) == KeyValue(items[i], items[i + 1], after, o2)
    decreases items, |items| - i, 0
  {
    var k, v := items[i], items[i + 1];
    var fromV := Show(v) + after;
    ItemComplete(env, items, i, toks, [Sym(COLON)] + fromV, o, o1);
    ItemComplete(env, items, i + 1, fromV, after, o1, o2);
    KeyValueStep(env, toks, k, v, fromV, after, o, o1, o2);
  }

  lemma KeyValueStep(env: Env, toks: seq<Token>, k: Expr, v: Expr, fromV: seq<Token>, after: seq<Token>,
                     o: Output, o1: Output, o2: Output)
    requires ParseExpr(env, toks, 0, o) == Done(k, [Sym(COLON)] + fromV, o1)
    requires ParseExpr(env, fromV, 0, o1) == Done(v, after, o2)
    ensures ParsePair(env, toks, o) == KeyValue(k, v, after, o2)
  {
    assert ([Sym(COLON)] + fromV)[1..] == fromV;
  }

  lemma {:induction false} PairTokens(items: seq<Expr>, i: nat, after: seq<Token>, closing: seq<Token>)
    requires i + 2 <= |items| && i % 2 == 0
    requires after == if i + 2 < |items| then [Sym(COMMA)] + (ShowFrom(items, true, i + 2) + closing) else closing
    ensures ShowFrom(items, true, i) + closing == Show(items[i]) + ([Sym(COLON)] + (Show(items[i + 1]) + after))
  {
    var v := Show(items[i + 1]);
    assert ShowFrom(items, true, i + 1) + closing == v + after by {
      if i + 2 < |items| {
        AssocSeparator(v, Sym(COMMA), ShowFrom(items, true, i + 2), closing);
      }
    }
    AssocSeparator(Show(items[i]), Sym(COLON), ShowFrom(items, true, i + 1), closing);
  }

  lemma {:induction false} PairTurn(env: Env, items: seq<Expr>, i: nat, after: seq<Token>, closing: seq<Token>,
                                    o: Output)
    requires i + 2 <= |items| && AllValid(items, |items|) && i % 2 == 0
    requires GenItems(env, items, |items|, o).Some?
    requires StartsWith(after, Sym(COMMA)) || StartsWith(after, Sym(RC))
    requires after == if i + 2 < |items| then [Sym(COMMA)] + (ShowFrom(items, true, i + 2) + closing) else closing
    ensures GenItems(env, items, i, o).Some? && GenItems(env, items, i + 2, o).Some?
    ensures var toks := ShowFrom(items, true, i) + closing;
            && toks != [] && toks[0] != Sym(RC)
            && ParsePair(env, toks, GenItems(env, items, i, o).value) ==
               KeyValue(items[i], items[i + 1], after, GenItems(env, items, i + 2, o).value)
    decreases items, |items| - i, 1, 0
  {
    PairFacts(env, items, i, o);
    var oi, o1, o2 := GenItems(env, items, i, o).value, GenItems(env, items, i + 1, o).value,
        GenItems(env, items, i + 2, o).value;
    PairTokens(items, i, after, closing);
    PairRead(env, items, i, ShowFrom(items, true, i) + closing, after, oi, o1, o2);
  }

  lemma {:induction false} PairStep(env: Env, toks: seq<Token>, items: seq<Expr>, i: nat, after: seq<Token>, o: Output,
                                    o2: Output)
    requires i + 2 <= |items| && toks != [] && toks[0] != Sym(RC)
    requires ParsePair(env, toks, o) == KeyValue(items[i], items[i + 1], after, o2)
    requires StartsWith(after, Sym(COMMA)) || StartsWith(after, Sym(RC))
    ensures ParsePairs(env, toks, items[..i], o) ==
            if StartsWith(after, Sym(RC)) then Items(items[..i + 2], false, after[1..], o2)
            else ParsePairs(env, after[1..], items[..i + 2], o2)
  {
    assert items[..i] + [items[i], items[i + 1]] == items[..i + 2];
  }

  lemma {:induction false} PairsComplete(env: Env, items: seq<Expr>, i: nat, trailing: bool, rest: seq<Token>,
                                         o0: Output, o: Output)
    requires i < |items| && AllValid(items, |items|) && |items| % 2 == 0 && i % 2 == 0
    requires GenItems(env, items, |items|, o0).Some? && GenItems(env, items, i, o0) == Some(o)
    ensures ParsePairs(env, ShowFrom(items, true, i) + (Close(trailing, Sym(RC)) + rest), items[..i], o)
            == Items(items, trailing, rest, GenItems(env, items, |items|, o0).value)
    decreases items, |items| - i, 2
  {
    var closing := Close(trailing, Sym(RC)) + rest;
    if i + 2 < |items| {
      PairsMore(env, items, i, closing, o0, o);
      PairsComplete(env, items, i + 2, trailing, rest, o0, GenItems(env, items, i + 2, o0).value);
    } else {
      PairsEnd(env, items, i, trailing, rest, o0, o);
    }
  }

  lemma {:induction false} PairsEnd(env: Env, items: seq<Expr>, i: nat, trailing: bool, rest: seq<Token>, o0: Output,
                                    o: Output)
    requires i + 2 == |items| && AllValid(items, |items|) && i % 2 == 0
    requires GenItems(env, items, |items|, o0).Some? && GenItems(env, items, i, o0) == Some(o)
    ensures ParsePairs(env, ShowFrom(items, true, i) + (Close(trailing, Sym(RC)) + rest), items[..i], o)
            == Items(items, trailing, rest, GenItems(env, items, |items|, o0).value)
    decreases items, |items| - i, 1, 1
  {
    var closing := Close(trailing, Sym(RC)) + rest;
    PairTurn(env, items, i, closing, closing, o0);
    PairsLast(env, items, i, ShowFrom(items, true, i) + closing, trailing, rest, o,
              GenItems(env, items, |items|, o0).value);
  }

  lemma {:induction false} PairsMore(env: Env, items: seq<Expr>, i: nat, closing: seq<Token>, o0: Output, o: Output)
    requires i + 2 < |items| && AllValid(items, |items|) && i % 2 == 0
    requires GenItems(env, items, |items|, o0).Some? && GenItems(env, items, i, o0) == Some(o)
    ensures GenItems(env, items, i + 2, o0).Some?
    ensures ParsePairs(env, ShowFrom(items, true, i) + closing, items[..i], o) ==
            ParsePairs(env, ShowFrom(items, true, i + 2) + closing, items[..i + 2],
                       GenItems(env, items, i + 2, o0).value)
    decreases items, |items| - i, 1, 1
  {
    var next := ShowFrom(items, true, i + 2) + closing;
    var after := [Sym(COMMA)] + next;
    PairTurn(env, items, i, after, closing, o0);
    PairStep(env, ShowFrom(items, true, i) + closing, items, i, after, o, GenItems(env, items, i + 2, o0).value);
    assert after[1..] == next;
  }

  /** The last pair, with or without a comma after it. */
  lemma {:induction false} PairsLast(env: Env, items: seq<Expr>, i: nat, toks: seq<Token>, trailing: bool,
                                     rest: seq<Token>, o: Output, o2: Output)
    requires i + 2 == |items| && toks != [] && toks[0] != Sym(RC)
    requires ParsePair(env, toks, o) == KeyValue(items[i], items[i + 1], Close(trailing, Sym(RC)) + rest, o2)
    ensures ParsePairs(env, toks, items[..i], o) == Items(items, trailing, rest, o2)
  {
    var closing := Close(trailing, Sym(RC)) + rest;
    PairStep(env, toks, items, i, closing, o, o2);
    assert items[..i + 2] == items;
    if trailing {
      var closer := [Sym(RC)] + rest;
      assert closing[1..] == closer && closer[1..] == rest;
      assert ParsePairs(env, closer, items, o2) == Items(items, true, rest, o2);
    } else {
      assert closing[1..] == rest;
    }
  }

  lemma {:induction false} WholeMapComplete(env: Env, items: seq<Expr>, trailing: bool, rest: seq<Token>, o: Output)
    requires AllValid(items, |items|) && |items| % 2 == 0 && (trailing ==> items != [])
    requires GenItems(env, items, |items|, o).Some?
    ensures ParsePairs(env, ShowFrom(items, true, 0) + (Close(trailing, Sym(RC)) + rest), [], o)
            == Items(items, trailing, rest, GenItems(env, items, |items|, o).value)
    decreases items, |items|, 3
  {
    if items == [] {
      var last := [Sym(RC)] + rest;
      assert last[1..] == rest && [] + last == last;
      assert ParsePairs(env, last, [], o) == Items([], false, rest, o);
    } else {
      PairsComplete(env, items, 0, trailing, rest, o, o);
      assert items[..0] == [];
    }
  }
}
