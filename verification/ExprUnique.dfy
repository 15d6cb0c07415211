/** The grammar is unambiguous.

    The parser decides it for trees that compile. Any two trees become such when their number
    literals, which alone may be out of range, are rewritten to strings and their names are put in
    scope; neither loses what told the trees apart. */
module ExprUnique {
  import opened Lexer
  import opened ExprSyntax
  import opened ExprParser
  import opened ExprVariables
  import opened Options

  // ----- numbers as strings -----

  function Mask(tok: Token): Token {
    match tok
    case Num(text, isFloat) => Str([if isFloat then 'f' else 'i'] + text)
    case Str(text) => Str(['s'] + text)
    case _ => tok
  }

  function Unmask(tok: Token): Token {
    match tok
    case Str(text) =>
      if text == "" then tok
      else if text[0] == 's' then Str(text[1..])
      else Num(text[1..], text[0] == 'f')
    case _ => tok
  }

  function MaskAll(toks: seq<Token>): (r: seq<Token>)
    ensures |r| == |toks| && forall k :: 0 <= k < |toks| ==> r[k] == Mask(toks[k])
  {
    seq(|toks|, k requires 0 <= k < |toks| => Mask(toks[k]))
  }

  /** A tree with other literals. */
  function Map(f: Token -> Token, t: Expr): Expr
    decreases t, 0
  {
    match t
    case Lit(tok) => Lit(f(tok))
    case Neg(e) => Neg(Map(f, e))
    case Not(e) => Not(Map(f, e))
    case Paren(e) => Paren(Map(f, e))
    case ListLit(items, trailing) => ListLit(MapItems(f, items, |items|), trailing)
    case MapLit(items, trailing) => MapLit(MapItems(f, items, |items|), trailing)
    case GetCall(keyword, name, parens, items, trailing) =>
      GetCall(keyword, name, parens, MapItems(f, items, |items|), trailing)
    case NameCall(name, items, trailing) => NameCall(name, MapItems(f, items, |items|), trailing)
    case Var(_) => t
    case Index(base, index) => Index(Map(f, base), Map(f, index))
    case Bin(op, left, right) => Bin(op, Map(f, left), Map(f, right))
  }

  function MapItems(f: Token -> Token, items: seq<Expr>, n: nat): (r: seq<Expr>)
    requires n <= |items|
    ensures |r| == n && forall k :: 0 <= k < n ==> r[k] == Map(f, items[k])
    decreases items, n
  {
    if n == 0 then [] else MapItems(f, items, n - 1) + [Map(f, items[n - 1])]
  }

  lemma UnmaskMask(tok: Token)
    ensures Unmask(Mask(tok)) == tok
  {
  }

  /** The literals can be put back. */
  lemma {:induction false} MapBack(t: Expr)
    ensures Map(Unmask, Map(Mask, t)) == t
    decreases t, 0
  {
    match t
    case Lit(tok) => UnmaskMask(tok);
    case Neg(e) => MapBack(e);
    case Not(e) => MapBack(e);
    case Paren(e) => MapBack(e);
    case ListLit(items, _) => ItemsBack(items);
    case MapLit(items, _) => ItemsBack(items);
    case GetCall(_, _, _, items, _) => ItemsBack(items);
    case NameCall(_, items, _) => ItemsBack(items);
    case Var(_) =>
    case Index(base, index) =>
      MapBack(base);
      MapBack(index);
    case Bin(_, left, right) =>
      MapBack(left);
      MapBack(right);
  }

  lemma {:induction false} ItemsBack(items: seq<Expr>)
    ensures MapItems(Unmask, MapItems(Mask, items, |items|), |items|) == items
    decreases items, 1
  {
    forall k | 0 <= k < |items|
      ensures Map(Unmask, Map(Mask, items[k])) == items[k]
    {
      MapBack(items[k]);
    }
  }

  // ----- what masking keeps -----

  /** Tokens that are no literals stay as they are. */
  predicate Kept(toks: seq<Token>) {
    forall k :: 0 <= k < |toks| ==> !toks[k].Num? && !toks[k].Str?
  }

  lemma MaskGroup(a: seq<Token>, b: seq<Token>, c: seq<Token>)
    requires Kept(a) && Kept(c)
    ensures MaskAll(a + b + c) == a + MaskAll(b) + c && MaskAll(a + (b + c)) == a + (MaskAll(b) + c)
  {
  }

  lemma MaskTwo(a: seq<Token>, op: Token, b: seq<Token>)
    requires Kept([op])
    ensures MaskAll(a + ([op] + b)) == MaskAll(a) + ([op] + MaskAll(b))
  {
  }

  lemma {:induction false} MaskedValid(t: Expr, p: int)
    requires Valid(t, p)
    ensures Valid(Map(Mask, t), p)
    decreases t, 0
  {
    match t
    case Lit(_) =>
    case Neg(e) => MaskedValid(e, PRIMARY);
    case Not(e) => MaskedValid(e, PRIMARY);
    case Paren(e) => MaskedValid(e, 0);
    case ListLit(items, _) => MaskedItemsValid(items, |items|);
    case MapLit(items, _) => MaskedItemsValid(items, |items|);
    case GetCall(_, _, _, items, _) => MaskedItemsValid(items, |items|);
    case NameCall(_, items, _) => MaskedItemsValid(items, |items|);
    case Var(_) =>
    case Index(base, index) =>
      MaskedValid(base, PRIMARY);
      MaskedValid(index, 0);
    case Bin(op, left, right) =>
      MaskedValid(left, Precedence(op));
      MaskedValid(right, Precedence(op) + 1);
  }

  lemma {:induction false} MaskedItemsValid(items: seq<Expr>, n: nat)
    requires n <= |items| && AllValid(items, n)
    ensures AllValid(MapItems(Mask, items, |items|), n)
    decreases items, n
  {
    if n > 0 {
      MaskedItemsValid(items, n - 1);
      MaskedValid(items[n - 1], 0);
    }
  }

  /** A tree with masked literals prints to its masked tokens. */
  lemma {:induction false} MaskedShow(t: Expr, p: int)
    requires Valid(t, p)
    ensures Show(Map(Mask, t)) == MaskAll(Show(t))
    decreases t, 1
  {
    match t
    case Lit(_) =>
    case Neg(e) =>
      MaskedShow(e, PRIMARY);
      MaskTwo([], Sym(MINUS), Show(e));
    case Not(e) =>
      MaskedShow(e, PRIMARY);
      MaskTwo([], Id("not"), Show(e));
    case Paren(e) =>
      MaskedShow(e, 0);
      MaskGroup([Sym(LP)], Show(e), [Sym(RP)]);
    case Var(_) =>
    case Index(base, index) =>
      MaskedShow(base, PRIMARY);
      MaskedShow(index, 0);
      MaskedIndex(Show(base), Show(index));
    case Bin(op, left, right) =>
      MaskedShow(left, Precedence(op));
      MaskedShow(right, Precedence(op) + 1);
      MaskTwo(Show(left), op, Show(right));
    case _ => MaskedCollection(t, p);
  }

  lemma MaskedIndex(base: seq<Token>, index: seq<Token>)
    ensures MaskAll(base + ([Sym(LB)] + index + [Sym(RB)])) == MaskAll(base) + ([Sym(LB)] + MaskAll(index) + [Sym(RB)])
  {
    MaskGroup([Sym(LB)], index, [Sym(RB)]);
  }

  lemma {:induction false} MaskedCollection(t: Expr, p: int)
    requires (t.ListLit? || t.MapLit? || t.GetCall? || t.NameCall?) && Valid(t, p)
    ensures Show(Map(Mask, t)) == MaskAll(Show(t))
    decreases t, 0
  {
    var colons := t.MapLit?;
    MaskedFrom(t.items, colons, 0);
    var shown := ShowFrom(t.items, colons, 0);
    match t
    case ListLit(_, trailing) => MaskGroup([Sym(LB)], shown, Close(trailing, Sym(RB)));
    case MapLit(_, trailing) => MaskGroup([Sym(LC)], shown, Close(trailing, Sym(RC)));
    case GetCall(keyword, name, _, _, trailing) => MaskedGet(Id(keyword), Id(name), shown, Close(trailing, Sym(RP)));
    case NameCall(name, _, trailing) => MaskGroup([Id(name), Sym(LP)], shown, Close(trailing, Sym(RP)));
  }

  lemma MaskedGet(keyword: Token, name: Token, shown: seq<Token>, close: seq<Token>)
    requires Kept([keyword, name]) && Kept(close)
    ensures MaskAll([keyword, name] + ([Sym(LP)] + (shown + close))) ==
            [keyword, name] + ([Sym(LP)] + (MaskAll(shown) + close))
    ensures MaskAll([keyword, name] + []) == [keyword, name] + []
  {
    MaskGroup([Sym(LP)], shown, close);
  }

  lemma {:induction false} MaskedFrom(items: seq<Expr>, colons: bool, i: nat)
    requires i <= |items| && AllValid(items, |items|)
    ensures ShowFrom(MapItems(Mask, items, |items|), colons, i) == MaskAll(ShowFrom(items, colons, i))
    decreases items, |items| - i
  {
    if i < |items| {
      ItemIsValid(items, |items|, i);
      MaskedShow(items[i], 0);
      if i + 1 < |items| {
        MaskedFrom(items, colons, i + 1);
        MaskTwo(Show(items[i]), Separator(colons, i + 1), ShowFrom(items, colons, i + 1));
      }
    }
  }

  lemma {:induction false} ItemIsValid(items: seq<Expr>, n: nat, i: nat)
    requires i < n <= |items| && AllValid(items, n)
    ensures Valid(items[i], 0)
    decreases n
  {
    if i < n - 1 {
      ItemIsValid(items, n - 1, i);
    }
  }

  // ----- a scope in which everything compiles -----

  /** Every name is a local and every call reaches a builtin. */
  function AllKnown(names: seq<string>): Env {
    Env((name: string) => 2, (name: string) => None, (name: string) => None, Some(names), (text: string) => true)
  }

  lemma {:induction false} MaskedCompiles(names: seq<string>, t: Expr, p: int, o: Output)
    requires Valid(t, p) && forall name :: name in Reads(t) ==> name in names
    ensures Gen(AllKnown(names), Map(Mask, t), o).Some?
    decreases t, 0
  {
    var env := AllKnown(names);
    match t
    case Lit(_) =>
    case Neg(e) => MaskedCompiles(names, e, PRIMARY, PushConst(o, I64(0)));
    case Not(e) => MaskedCompiles(names, e, PRIMARY, o);
    case Paren(e) => MaskedCompiles(names, e, 0, o);
    case ListLit(items, _) => MaskedItemsCompile(names, items, |items|, o);
    case MapLit(items, _) => MaskedItemsCompile(names, items, |items|, o);
    case GetCall(_, _, _, items, _) => MaskedItemsCompile(names, items, |items|, o);
    case NameCall(_, items, _) => MaskedItemsCompile(names, items, |items|, o);
    case Var(_) =>
    case Index(base, index) =>
      MaskedCompiles(names, base, PRIMARY, o);
      MaskedCompiles(names, index, 0, Gen(env, Map(Mask, base), o).value);
    case Bin(op, left, right) =>
      MaskedCompiles(names, left, Precedence(op), o);
      MaskedCompiles(names, right, Precedence(op) + 1, Gen(env, Map(Mask, left), o).value);
  }

  lemma {:induction false} MaskedItemsCompile(names: seq<string>, items: seq<Expr>, n: nat, o: Output)
    requires n <= |items| && AllValid(items, n) && forall name :: name in ReadsIn(items, n) ==> name in names
    ensures GenItems(AllKnown(names), MapItems(Mask, items, |items|), n, o).Some?
    decreases items, n
  {
    if n > 0 {
      MaskedItemsCompile(names, items, n - 1, o);
      MaskedCompiles(names, items[n - 1], 0, GenItems(AllKnown(names), MapItems(Mask, items, |items|), n - 1, o).value);
    }
  }

  lemma {:induction false} Listed(names: set<string>) returns (list: seq<string>)
    ensures forall name :: name in names ==> name in list
  {
    list := [];
    if names != {} {
      var name :| name in names;
      var rest := Listed(names - {name});
      list := [name] + rest;
    }
  }

  /** Two trees that compile in one scope and print alike are parsed to one tree. */
  lemma CompiledTreeIsUnique(env: Env, t: Expr, u: Expr, o: Output)
    requires Valid(t, 0) && Valid(u, 0) && Show(t) == Show(u)
    requires Gen(env, t, o).Some? && Gen(env, u, o).Some?
    ensures t == u
  {
    ExprComplete(env, t, 0, [], o);
    ExprComplete(env, u, 0, [], o);
  }

  lemma MaskedTreesAreEqual(t: Expr, u: Expr)
    requires Valid(t, 0) && Valid(u, 0) && Show(t) == Show(u)
    ensures Map(Mask, t) == Map(Mask, u)
  {
    var names := Listed(Reads(t) + Reads(u));
    var o := Output([], [], []);
    MaskedValid(t, 0);
    MaskedValid(u, 0);
    MaskedShow(t, 0);
    MaskedShow(u, 0);
    MaskedCompiles(names, t, 0, o);
    MaskedCompiles(names, u, 0, o);
    CompiledTreeIsUnique(AllKnown(names), Map(Mask, t), Map(Mask, u), o);
  }

  /** Two trees of the grammar that print alike are the same tree: a token list has one tree only. */
  lemma PrintedTreeIsUnique(t: Expr, u: Expr)
    requires Valid(t, 0) && Valid(u, 0) && Show(t) == Show(u)
    ensures t == u
  {
    MaskedTreesAreEqual(t, u);
    MapBack(t);
    MapBack(u);
  }
}
