/** MathCore.calculate: infix to postfix with an operator stack, then postfix evaluation with a
    value stack. Numbers are exact reals. */
module MathCore {
  import opened Options

  datatype BinOp = Plus | Minus | Times | Over

  /** A token after variable substitution. `Skip` is any token that is neither a number, an
      operator nor a parenthesis, such as an unknown name: both loops ignore it. */
  datatype Token = Num(value: real) | Op(op: BinOp) | Open | Close | Skip

  function Prec(op: BinOp): int {
    match op
    case Plus => 1 case Minus => 1
    case Times => 2 case Over => 2
  }

  function Apply(op: BinOp, a: real, b: real): real {
    match op
    case Plus => a + b
    case Minus => a - b
    case Times => a * b
    case Over => if b != 0.0 then a / b else 0.0
  }

  // ----- what the two loops do, on any token list -----

  datatype State = State(output: seq<Token>, stack: seq<Token>)

  predicate Pops(t: Token, p: int) {
    t.Op? && Prec(t.op) >= p
  }

  /** Moves operators of at least precedence `p` from the stack to the output. */
  function PopOperators(s: State, p: int): State
    decreases |s.stack|
  {
    var n := |s.stack|;
    if n > 0 && Pops(s.stack[n - 1], p)
    then PopOperators(State(s.output + [s.stack[n - 1]], s.stack[..n - 1]), p)
    else s
  }

  /** Moves everything above the innermost open parenthesis to the output. */
  function PopToOpen(s: State): State
    decreases |s.stack|
  {
    var n := |s.stack|;
    if n > 0 && s.stack[n - 1] != Open
    then PopToOpen(State(s.output + [s.stack[n - 1]], s.stack[..n - 1]))
    else s
  }

  function Convert(s: State, t: Token): State {
    match t
    case Num(_) => s.(output := s.output + [t])
    case Op(op) =>
      var s1 := PopOperators(s, Prec(op));
      s1.(stack := s1.stack + [t])
    case Open => s.(stack := s.stack + [t])
    case Close =>
      var s1 := PopToOpen(s);
      if s1.stack != [] then s1.(stack := s1.stack[..|s1.stack| - 1]) else s1
    case Skip => s
  }

  function ConvertAll(s: State, toks: seq<Token>): State
    decreases |toks|
  {
    if toks == [] then s else ConvertAll(Convert(s, toks[0]), toks[1..])
  }

  /** The final loop empties the stack, parentheses included. */
  function Drain(s: State): seq<Token>
    decreases |s.stack|
  {
    var n := |s.stack|;
    if n == 0 then s.output else Drain(State(s.output + [s.stack[n - 1]], s.stack[..n - 1]))
  }

  function Postfix(toks: seq<Token>): seq<Token> {
    Drain(ConvertAll(State([], []), toks))
  }

  function Execute(values: seq<real>, t: Token): seq<real> {
    var n := |values|;
    if t.Num? then values + [t.value]
    else if n < 2 then values
    else if t.Op? then values[..n - 2] + [Apply(t.op, values[n - 2], values[n - 1])]
    else values[..n - 2]
  }

  function ExecuteAll(values: seq<real>, code: seq<Token>): seq<real>
    decreases |code|
  {
    if code == [] then values else ExecuteAll(Execute(values, code[0]), code[1..])
  }

  function Calculation(toks: seq<Token>): real {
    var values := ExecuteAll([], Postfix(toks));
    if values == [] then 0.0 else values[0]
  }

  method Calculate(toks: seq<Token>) returns (result: real, ghost values: seq<real>)
    ensures values == ExecuteAll([], Postfix(toks))
    ensures result == Calculation(toks)
  {
    var output: seq<Token>, stack: seq<Token> := [], [];
    for i := 0 to |toks|
      invariant ConvertAll(State(output, stack), toks[i..]) == ConvertAll(State([], []), toks)
    {
      var t := toks[i];
      ghost var before := State(output, stack);
      assert toks[i..][0] == t && toks[i..][1..] == toks[i + 1..];
      if t.Num? {
        output := output + [t];
      } else if t.Op? {
        while |stack| > 0 && Pops(stack[|stack| - 1], Prec(t.op))
          invariant PopOperators(State(output, stack), Prec(t.op)) == PopOperators(before, Prec(t.op))
          decreases |stack|
        {
          output, stack := output + [stack[|stack| - 1]], stack[..|stack| - 1];
        }
        stack := stack + [t];
      } else if t == Open {
        stack := stack + [t];
      } else if t == Close {
        while |stack| > 0 && stack[|stack| - 1] != Open
          invariant PopToOpen(State(output, stack)) == PopToOpen(before)
          decreases |stack|
        {
          output, stack := output + [stack[|stack| - 1]], stack[..|stack| - 1];
        }
        if |stack| > 0 {
          stack := stack[..|stack| - 1];
        }
      }
      assert State(output, stack) == Convert(before, t);
    }
    while |stack| > 0
      invariant Drain(State(output, stack)) == Postfix(toks)
      decreases |stack|
    {
      output, stack := output + [stack[|stack| - 1]], stack[..|stack| - 1];
    }
    var res: seq<real> := [];
    for i := 0 to |output|
      invariant ExecuteAll(res, output[i..]) == ExecuteAll([], Postfix(toks))
    {
      var t := output[i];
      assert output[i..][0] == t && output[i..][1..] == output[i + 1..];
      if t.Num? {
        res := res + [t.value];
      } else if |res| >= 2 {
        var b, a := res[|res| - 1], res[|res| - 2];
        res := res[..|res| - 2];
        if t.Op? {
          res := res + [Apply(t.op, a, b)];
        }
      }
    }
    values := res;
    result := if |res| > 0 then res[0] else 0.0;
  }

  // ----- well-formed infix lists and their trees -----

  /** An operand: a number, or a parenthesised chain. */
  datatype Operand = Number(value: real) | Group(chain: Chain)

  /** Operands with operators between them; no precedence yet. */
  datatype Chain = One(operand: Operand) | More(init: Chain, op: BinOp, operand: Operand)

  function ShowOperand(a: Operand): seq<Token> {
    match a
    case Number(v) => [Num(v)]
    case Group(c) => [Open] + Show(c) + [Close]
  }

  function Show(c: Chain): seq<Token> {
    match c
    case One(a) => ShowOperand(a)
    case More(init, op, a) => Show(init) + ([Op(op)] + ShowOperand(a))
  }

  datatype Tree = Leaf(value: real) | Paren(inner: Tree) | Bin(op: BinOp, left: Tree, right: Tree)

  function OperandTree(a: Operand): Tree {
    match a
    case Number(v) => Leaf(v)
    case Group(c) => Paren(TreeOf(c))
  }

  /** Appending an operand on the right: a tight operator takes only the last operand of a loose
      one, every other operator takes everything so far. */
  function Attach(t: Tree, op: BinOp, a: Tree): Tree {
    if Prec(op) == 2 && t.Bin? && Prec(t.op) == 1 then Bin(t.op, t.left, Bin(op, t.right, a)) else Bin(op, t, a)
  }

  /** The two-level, left-associative tree of a chain. */
  function TreeOf(c: Chain): Tree {
    match c
    case One(a) => OperandTree(a)
    case More(init, op, a) => Attach(TreeOf(init), op, OperandTree(a))
  }

  function Eval(t: Tree): real {
    match t
    case Leaf(v) => v
    case Paren(e) => Eval(e)
    case Bin(op, l, r) => Apply(op, Eval(l), Eval(r))
  }

  /** The usual grammar: sums (level 1) of products (level 2) of factors (level 3), leaning left. */
  ghost predicate Fits(t: Tree, level: int) {
    match t
    case Leaf(_) => true
    case Paren(e) => Fits(e, 1)
    case Bin(op, l, r) => level <= Prec(op) && Fits(l, Prec(op)) && Fits(r, Prec(op) + 1)
  }

  function Tokens(t: Tree): seq<Token> {
    match t
    case Leaf(v) => [Num(v)]
    case Paren(e) => [Open] + Tokens(e) + [Close]
    case Bin(op, l, r) => Tokens(l) + ([Op(op)] + Tokens(r))
  }

  /** The tree of a chain is one of the grammar and has the chain's tokens. */
  lemma {:induction false} TreeFitsGrammar(c: Chain)
    ensures Fits(TreeOf(c), 1) && Tokens(TreeOf(c)) == Show(c)
  {
    match c
    case One(a) => OperandFitsGrammar(a);
    case More(init, op, a) =>
      TreeFitsGrammar(init);
      OperandFitsGrammar(a);
      var t := TreeOf(init);
      if Prec(op) == 2 && t.Bin? && Prec(t.op) == 1 {
        var x, y, z := Tokens(t.left), Tokens(t.right), ShowOperand(a);
        assert x + ([Op(t.op)] + (y + ([Op(op)] + z))) == x + ([Op(t.op)] + y) + ([Op(op)] + z);
      }
  }

  lemma {:induction false} OperandFitsGrammar(a: Operand)
    ensures Fits(OperandTree(a), 3) && Tokens(OperandTree(a)) == ShowOperand(a)
  {
    if a.Group? {
      TreeFitsGrammar(a.chain);
    }
  }

  // ----- the converter computes the tree's postorder -----

  function Post(t: Tree): seq<Token> {
    match t
    case Leaf(v) => [Num(v)]
    case Paren(e) => Post(e)
    case Bin(op, l, r) => Post(l) + Post(r) + [Op(op)]
  }

  /** What of a tree's postorder is still on the operator stack: the operators on its right edge. */
  function Pending(t: Tree): seq<Token> {
    if t.Bin? then [Op(t.op)] + Pending(t.right) else []
  }

  /** What has already been output. */
  function Emitted(t: Tree): seq<Token> {
    if t.Bin? then Post(t.left) + Emitted(t.right) else Post(t)
  }

  function Reversed(s: seq<Token>): seq<Token> {
    if s == [] then [] else Reversed(s[1..]) + [s[0]]
  }

  lemma {:induction false} EmittedThenPending(t: Tree)
    ensures Emitted(t) + Reversed(Pending(t)) == Post(t)
  {
    if t.Bin? {
      EmittedThenPending(t.right);
      var pending := Pending(t);
      assert pending[1..] == Pending(t.right);
      var l, e, r := Post(t.left), Emitted(t.right), Reversed(Pending(t.right));
      assert l + e + (r + [Op(t.op)]) == l + (e + r) + [Op(t.op)];
    }
  }

  /** Nothing on the stack below the current chain can be popped by it. */
  ghost predicate Fenced(stack: seq<Token>) {
    stack == [] || stack[|stack| - 1] == Open
  }

  /** The state in which the operators of `t` that are not yet output lie above `below`. */
  function Reading(out: seq<Token>, below: seq<Token>, t: Tree): State {
    State(out + Emitted(t), below + Pending(t))
  }

  lemma {:induction false} ConvertAppend(s: State, a: seq<Token>, b: seq<Token>)
    ensures ConvertAll(s, a + b) == ConvertAll(ConvertAll(s, a), b)
    decreases |a|
  {
    if a == [] {
      assert a + b == b;
    } else {
      assert (a + b)[1..] == a[1..] + b;
      ConvertAppend(Convert(s, a[0]), a[1..], b);
    }
  }

  lemma {:induction false} PopPending(out: seq<Token>, below: seq<Token>, pending: seq<Token>, p: int)
    requires forall k :: 0 <= k < |pending| ==> Pops(pending[k], p)
    ensures PopOperators(State(out, below + pending), p) == PopOperators(State(out + Reversed(pending), below), p)
    decreases |pending|
  {
    var n := |pending|;
    if n == 0 {
      assert below + pending == below && out + [] == out;
    } else {
      var last, init := pending[n - 1], pending[..n - 1];
      assert (below + pending)[..|below| + n - 1] == below + init;
      PopPending(out + [last], below, init, p);
      ReversedSnoc(init, last);
      assert init + [last] == pending;
      assert out + [last] + Reversed(init) == out + ([last] + Reversed(init));
    }
  }

  lemma {:induction false} ReversedSnoc(s: seq<Token>, x: Token)
    ensures Reversed(s + [x]) == [x] + Reversed(s)
  {
    if s != [] {
      assert (s + [x])[1..] == s[1..] + [x];
      ReversedSnoc(s[1..], x);
    }
  }

  /** On the right edge of a sum at most one loose operator and one tight one are waiting. */
  lemma {:induction false} PendingOfSum(t: Tree)
    requires Fits(t, 1)
    ensures Pending(t) == if t.Bin? then (if t.right.Bin? then [Op(t.op), Op(t.right.op)] else [Op(t.op)]) else []
    ensures t.Bin? && t.right.Bin? ==> Prec(t.op) == 1 && Prec(t.right.op) == 2 && !t.right.right.Bin?
  {
    if t.Bin? && t.right.Bin? {
      assert Fits(t.right, Prec(t.op) + 1);
      assert Fits(t.right.right, Prec(t.right.op) + 1);
      assert !t.right.right.Bin?;
      assert Pending(t.right) == [Op(t.right.op)] + [];
    }
  }

  /** Reading an operator after the tree `t` of what came before leaves the right operators waiting. */
  lemma {:induction false} ConvertOperator(out: seq<Token>, below: seq<Token>, t: Tree, op: BinOp)
    requires Fits(t, 1) && Fenced(below)
    ensures var s := Convert(Reading(out, below, t), Op(op));
            s == if Prec(op) == 2 && t.Bin? && Prec(t.op) == 1
                 then State(out + (Post(t.left) + Post(t.right)), below + [Op(t.op), Op(op)])
                 else State(out + Post(t), below + [Op(op)])
  {
    PendingOfSum(t);
    if Prec(op) == 2 && t.Bin? && Prec(t.op) == 1 {
      KeepLoose(out, below, t, op);
    } else {
      PopPending(out + Emitted(t), below, Pending(t), Prec(op));
      EmittedThenPending(t);
      Assoc(out, Emitted(t), Reversed(Pending(t)));
      assert PopOperators(State(out + Post(t), below), Prec(op)) == State(out + Post(t), below);
    }
  }

  lemma Assoc<T>(a: seq<T>, b: seq<T>, c: seq<T>)
    ensures a + b + c == a + (b + c)
  {
  }

  lemma {:induction false} KeepLoose(out: seq<Token>, below: seq<Token>, t: Tree, op: BinOp)
    requires Fits(t, 1) && t.Bin? && Prec(t.op) == 1 && Prec(op) == 2
    ensures Convert(Reading(out, below, t), Op(op)) ==
            State(out + (Post(t.left) + Post(t.right)), below + [Op(t.op), Op(op)])
  {
    PendingOfSum(t);
    var rest := Pending(t.right);
    var kept := below + [Op(t.op)];
    assert below + Pending(t) == kept + rest;
    PopPending(out + Emitted(t), kept, rest, 2);
    EmittedThenPending(t.right);
    assert out + Emitted(t) + Reversed(rest) == out + (Post(t.left) + Post(t.right));
    assert PopOperators(State(out + (Post(t.left) + Post(t.right)), kept), 2) ==
           State(out + (Post(t.left) + Post(t.right)), kept);
    assert kept + [Op(op)] == below + [Op(t.op), Op(op)];
  }

  /** Reading a whole operand outputs its postorder and leaves the stack alone. */
  lemma {:induction false} ConvertOperand(out: seq<Token>, stack: seq<Token>, a: Operand)
    ensures ConvertAll(State(out, stack), ShowOperand(a)) == State(out + Post(OperandTree(a)), stack)
    decreases a
  {
    match a
    case Number(v) =>
    case Group(c) =>
      var inner, t := Show(c), TreeOf(c);
      var start := State(out, stack + [Open]);
      assert [Open] + inner + [Close] == [Open] + (inner + [Close]);
      assert ([Open] + (inner + [Close]))[1..] == inner + [Close];
      ConvertAppend(start, inner, [Close]);
      ConvertChain(out, stack + [Open], c);
      CloseGroup(out, stack, t);
  }

  lemma {:induction false} CloseGroup(out: seq<Token>, stack: seq<Token>, t: Tree)
    ensures ConvertAll(Reading(out, stack + [Open], t), [Close]) == State(out + Post(t), stack)
  {
    PendingAreOperators(t);
    PopPendingToOpen(out + Emitted(t), stack + [Open], Pending(t));
    EmittedThenPending(t);
    assert out + Emitted(t) + Reversed(Pending(t)) == out + Post(t);
    assert (stack + [Open])[..|stack|] == stack;
    var s := Reading(out, stack + [Open], t);
    assert ConvertAll(s, [Close]) == ConvertAll(Convert(s, Close), []);
  }

  lemma {:induction false} PopPendingToOpen(out: seq<Token>, below: seq<Token>, pending: seq<Token>)
    requires forall k :: 0 <= k < |pending| ==> pending[k] != Open
    requires below != [] && below[|below| - 1] == Open
    ensures PopToOpen(State(out, below + pending)) == State(out + Reversed(pending), below)
    decreases |pending|
  {
    var n := |pending|;
    if n == 0 {
      assert below + pending == below && out + [] == out;
    } else {
      var last, init := pending[n - 1], pending[..n - 1];
      assert (below + pending)[..|below| + n - 1] == below + init;
      PopPendingToOpen(out + [last], below, init);
      ReversedSnoc(init, last);
      assert init + [last] == pending;
      assert out + [last] + Reversed(init) == out + ([last] + Reversed(init));
    }
  }

  lemma {:induction false} PendingAreOperators(t: Tree)
    ensures forall k :: 0 <= k < |Pending(t)| ==> Pending(t)[k].Op?
  {
    if t.Bin? {
      PendingAreOperators(t.right);
    }
  }

  /** Reading a chain above a parenthesis or the bottom of the stack: what is output and what is
      waiting together are the postorder of the chain's tree. */
  lemma {:induction false} ConvertChain(out: seq<Token>, below: seq<Token>, c: Chain)
    requires Fenced(below)
    ensures ConvertAll(State(out, below), Show(c)) == Reading(out, below, TreeOf(c))
    decreases c
  {
    match c
    case One(a) =>
      ConvertOperand(out, below, a);
      assert below + [] == below;
    case More(init, op, a) =>
      var t, x := TreeOf(init), OperandTree(a);
      ConvertAppend(State(out, below), Show(init), [Op(op)] + ShowOperand(a));
      ConvertChain(out, below, init);
      TreeFitsGrammar(init);
      ConvertOperator(out, below, t, op);
      var s := Convert(Reading(out, below, t), Op(op));
      assert ([Op(op)] + ShowOperand(a))[1..] == ShowOperand(a);
      ConvertOperand(s.output, s.stack, a);
      OperandFitsGrammar(a);
      AttachedReading(out, below, t, op, x);
  }

  lemma {:induction false} AttachedReading(out: seq<Token>, below: seq<Token>, t: Tree, op: BinOp, x: Tree)
    requires Fits(x, 3)
    ensures Reading(out, below, Attach(t, op, x)) ==
            if Prec(op) == 2 && t.Bin? && Prec(t.op) == 1
            then State(out + (Post(t.left) + Post(t.right)) + Post(x), below + [Op(t.op), Op(op)])
            else State(out + Post(t) + Post(x), below + [Op(op)])
  {
    assert Pending(x) == [] && Emitted(x) == Post(x);
    var y := Attach(t, op, x);
    if Prec(op) == 2 && t.Bin? && Prec(t.op) == 1 {
      var tight := Bin(op, t.right, x);
      assert Pending(tight) == [Op(op)] + [] && Emitted(tight) == Post(t.right) + Post(x);
      assert Pending(y) == [Op(t.op)] + Pending(tight) && Emitted(y) == Post(t.left) + Emitted(tight);
      assert out + (Post(t.left) + (Post(t.right) + Post(x))) == out + (Post(t.left) + Post(t.right)) + Post(x);
    } else {
      assert Pending(y) == [Op(op)] + [] && Emitted(y) == Post(t) + Post(x);
      assert out + (Post(t) + Post(x)) == out + Post(t) + Post(x);
    }
  }

  lemma {:induction false} DrainPending(out: seq<Token>, pending: seq<Token>)
    ensures Drain(State(out, pending)) == out + Reversed(pending)
    decreases |pending|
  {
    var n := |pending|;
    if n > 0 {
      var last, init := pending[n - 1], pending[..n - 1];
      DrainPending(out + [last], init);
      ReversedSnoc(init, last);
      assert init + [last] == pending;
    }
  }

  lemma {:induction false} PostfixOfChain(c: Chain)
    ensures Postfix(Show(c)) == Post(TreeOf(c))
  {
    var t := TreeOf(c);
    ConvertChain([], [], c);
    DrainPending([] + Emitted(t), [] + Pending(t));
    EmittedThenPending(t);
    assert [] + Pending(t) == Pending(t) && [] + Emitted(t) == Emitted(t);
  }

  // ----- the evaluator -----

  lemma {:induction false} ExecuteAppend(values: seq<real>, a: seq<Token>, b: seq<Token>)
    ensures ExecuteAll(values, a + b) == ExecuteAll(ExecuteAll(values, a), b)
    decreases |a|
  {
    if a == [] {
      assert a + b == b;
    } else {
      assert (a + b)[1..] == a[1..] + b;
      ExecuteAppend(Execute(values, a[0]), a[1..], b);
    }
  }

  lemma {:induction false} ExecutePost(values: seq<real>, t: Tree)
    ensures ExecuteAll(values, Post(t)) == values + [Eval(t)]
    decreases t
  {
    match t
    case Leaf(_) =>
    case Paren(e) => ExecutePost(values, e);
    case Bin(op, l, r) =>
      ExecuteAppend(values, Post(l) + Post(r), [Op(op)]);
      ExecuteAppend(values, Post(l), Post(r));
      ExecutePost(values, l);
      ExecutePost(values + [Eval(l)], r);
      var s := values + [Eval(l)] + [Eval(r)];
      assert s[..|s| - 2] == values;
      assert ExecuteAll(s, [Op(op)]) == ExecuteAll(Execute(s, Op(op)), []);
  }

  /** For every well-formed infix list, `calculate` ends with exactly one value on its stack, the
      value of the two-level left-associative tree, with x / 0 taken as 0. */
  lemma {:induction false} CalculateIsTreeValue(c: Chain)
    ensures ExecuteAll([], Postfix(Show(c))) == [Eval(TreeOf(c))]
    ensures Calculation(Show(c)) == Eval(TreeOf(c))
  {
    PostfixOfChain(c);
    ExecutePost([], TreeOf(c));
    assert [] + [Eval(TreeOf(c))] == [Eval(TreeOf(c))];
  }

  // ----- every tree of the grammar -----

  /** A chain, an operator, and another chain after it. */
  function Join(c: Chain, op: BinOp, d: Chain): Chain {
    match d
    case One(a) => More(c, op, a)
    case More(init, op1, a) => More(Join(c, op, init), op1, a)
  }

  /** A tree with its precedence forgotten. */
  function ChainOf(t: Tree): Chain {
    match t
    case Leaf(v) => One(Number(v))
    case Paren(e) => One(Group(ChainOf(e)))
    case Bin(op, l, r) => Join(ChainOf(l), op, ChainOf(r))
  }

  lemma {:induction false} JoinShows(c: Chain, op: BinOp, d: Chain)
    ensures Show(Join(c, op, d)) == Show(c) + ([Op(op)] + Show(d))
  {
    if d.More? {
      JoinShows(c, op, d.init);
      var tail := [Op(d.op)] + ShowOperand(d.operand);
      assert Show(c) + ([Op(op)] + Show(d.init)) + tail == Show(c) + ([Op(op)] + (Show(d.init) + tail));
    }
  }

  /** Joining chains joins their trees, where the operands reach the operator's level. */
  lemma {:induction false} JoinJoinsTrees(c: Chain, op: BinOp, d: Chain)
    requires Fits(TreeOf(c), Prec(op)) && Fits(TreeOf(d), Prec(op) + 1)
    ensures TreeOf(Join(c, op, d)) == Bin(op, TreeOf(c), TreeOf(d))
    decreases d
  {
    if d.More? {
      var t := TreeOf(d.init);
      assert !(t.Bin? && Prec(t.op) == 1);
      assert TreeOf(d) == Bin(d.op, t, OperandTree(d.operand));
      JoinJoinsTrees(c, op, d.init);
    }
  }

  lemma {:induction false} FitsBelow(t: Tree, level: int, lower: int)
    requires Fits(t, level) && lower <= level
    ensures Fits(t, lower)
  {
  }

  lemma {:induction false} ChainOfTree(t: Tree)
    requires Fits(t, 1)
    ensures TreeOf(ChainOf(t)) == t && Show(ChainOf(t)) == Tokens(t)
  {
    match t
    case Leaf(_) =>
    case Paren(e) => ChainOfTree(e);
    case Bin(op, l, r) =>
      FitsBelow(l, Prec(op), 1);
      FitsBelow(r, Prec(op) + 1, 1);
      ChainOfTree(l);
      ChainOfTree(r);
      JoinJoinsTrees(ChainOf(l), op, ChainOf(r));
      JoinShows(ChainOf(l), op, ChainOf(r));
  }

  /** For every tree of the usual grammar: its text is calculated to its value, and nothing else is
      left on the value stack. */
  lemma CalculateEvaluatesTrees(t: Tree)
    requires Fits(t, 1)
    ensures ExecuteAll([], Postfix(Tokens(t))) == [Eval(t)] && Calculation(Tokens(t)) == Eval(t)
  {
    ChainOfTree(t);
    CalculateIsTreeValue(ChainOf(t));
  }

  /** Reads one operand off a list. */
  ghost function ReadOperand(toks: seq<Token>): (r: Option<(Operand, seq<Token>)>)
    ensures r.Some? ==> |r.value.1| < |toks|
    decreases |toks|, 0
  {
    if toks == [] then None
    else if toks[0].Num? then Some((Number(toks[0].value), toks[1..]))
    else if toks[0] != Open then None
    else
      match ReadChain(toks[1..])
      case None => None
      case Some((c, rest)) => if rest == [] || rest[0] != Close then None else Some((Group(c), rest[1..]))
  }

  ghost function ReadChain(toks: seq<Token>): (r: Option<(Chain, seq<Token>)>)
    ensures r.Some? ==> |r.value.1| < |toks|
    decreases |toks|, 1
  {
    match ReadOperand(toks)
    case None => None
    case Some((a, rest)) => ReadSteps(One(a), rest)
  }

  /** Goes on as long as an operator follows. */
  ghost function ReadSteps(c: Chain, toks: seq<Token>): (r: Option<(Chain, seq<Token>)>)
    ensures r.Some? ==> |r.value.1| <= |toks|
    decreases |toks|, 0
  {
    if toks == [] || !toks[0].Op? then Some((c, toks))
    else
      match ReadOperand(toks[1..])
      case None => None
      case Some((a, rest)) => ReadSteps(More(c, toks[0].op, a), rest)
  }

  lemma {:induction false} OperandIsRead(a: Operand, rest: seq<Token>)
    ensures ReadOperand(ShowOperand(a) + rest) == Some((a, rest))
    decreases a
  {
    match a
    case Number(v) => assert ([Num(v)] + rest)[1..] == rest;
    case Group(c) =>
      var close := [Close] + rest;
      assert (ShowOperand(a) + rest)[1..] == Show(c) + close && close[1..] == rest;
      ChainIsReadOn(c, close);
  }

  /** Reading a printed chain, whatever follows, gets as far as the chain itself. */
  lemma {:induction false} ChainIsReadOn(c: Chain, rest: seq<Token>)
    ensures ReadChain(Show(c) + rest) == ReadSteps(c, rest)
    decreases c
  {
    match c
    case One(a) => OperandIsRead(a, rest);
    case More(init, op, a) =>
      var step := [Op(op)] + (ShowOperand(a) + rest);
      assert Show(c) + rest == Show(init) + step;
      ChainIsReadOn(init, step);
      assert step[1..] == ShowOperand(a) + rest;
      OperandIsRead(a, rest);
  }

  lemma {:induction false} ChainIsRead(c: Chain)
    ensures ReadChain(Show(c)) == Some((c, []))
  {
    assert Show(c) + [] == Show(c);
    ChainIsReadOn(c, []);
  }

  /** The grammar is unambiguous: a text has one tree only. */
  lemma TreeIsUnique(s: Tree, t: Tree)
    requires Fits(s, 1) && Fits(t, 1) && Tokens(s) == Tokens(t)
    ensures s == t
  {
    ChainOfTree(s);
    ChainOfTree(t);
    ChainIsRead(ChainOf(s));
    ChainIsRead(ChainOf(t));
  }

  // ----- which lists are well formed -----

  /** A check by one scan: the nesting depth, and whether an operand must come next. */
  predicate WellFormed(toks: seq<Token>, depth: nat, wantsOperand: bool) {
    if toks == [] then depth == 0 && !wantsOperand
    else
      match toks[0]
      case Num(_) => wantsOperand && WellFormed(toks[1..], depth, false)
      case Op(_) => !wantsOperand && WellFormed(toks[1..], depth, true)
      case Open => wantsOperand && WellFormed(toks[1..], depth + 1, true)
      case Close => !wantsOperand && depth > 0 && WellFormed(toks[1..], depth - 1, false)
      case Skip => false
  }

  lemma {:induction false} OperandPasses(a: Operand, rest: seq<Token>, depth: nat)
    ensures WellFormed(ShowOperand(a) + rest, depth, true) == WellFormed(rest, depth, false)
    decreases a
  {
    if a.Number? {
      assert (ShowOperand(a) + rest)[1..] == rest;
    } else {
      var after := [Close] + rest;
      assert (ShowOperand(a) + rest)[1..] == Show(a.chain) + after;
      ChainPasses(a.chain, after, depth + 1);
      assert after[1..] == rest;
    }
  }

  lemma {:induction false} ChainPasses(c: Chain, rest: seq<Token>, depth: nat)
    ensures WellFormed(Show(c) + rest, depth, true) == WellFormed(rest, depth, false)
    decreases c
  {
    match c
    case One(a) => OperandPasses(a, rest, depth);
    case More(init, op, a) =>
      var after := [Op(op)] + (ShowOperand(a) + rest);
      assert Show(c) + rest == Show(init) + after;
      ChainPasses(init, after, depth);
      assert after[1..] == ShowOperand(a) + rest;
      OperandPasses(a, rest, depth);
  }

  /** Reads one operand off a well-formed list. */
  lemma {:induction false} TakeOperand(toks: seq<Token>, depth: nat) returns (a: Operand, rest: seq<Token>)
    requires WellFormed(toks, depth, true)
    ensures toks == ShowOperand(a) + rest && WellFormed(rest, depth, false)
    decreases |toks|, 0
  {
    if toks[0].Num? {
      a, rest := Number(toks[0].value), toks[1..];
    } else {
      var c, after := TakeChain(toks[1..], depth + 1);
      a, rest := Group(c), after[1..];
      assert toks == [Open] + (Show(c) + ([Close] + rest));
    }
  }

  /** Reads a chain up to the end or the parenthesis that closes it. */
  lemma {:induction false} TakeChain(toks: seq<Token>, depth: nat) returns (c: Chain, rest: seq<Token>)
    requires WellFormed(toks, depth, true)
    ensures toks == Show(c) + rest && WellFormed(rest, depth, false)
    ensures rest == [] || rest[0] == Close
    decreases |toks|, 1
  {
    var a;
    a, rest := TakeOperand(toks, depth);
    c := One(a);
    while rest != [] && rest[0] != Close
      invariant toks == Show(c) + rest && WellFormed(rest, depth, false) && |rest| < |toks|
      decreases |rest|
    {
      var op := rest[0].op;
      var b, after := TakeOperand(rest[1..], depth);
      assert rest == [Op(op)] + (ShowOperand(b) + after);
      assert Show(c) + rest == Show(More(c, op, b)) + after;
      c, rest := More(c, op, b), after;
    }
  }

  /** The lists the one-scan check accepts are exactly the printed chains. */
  lemma {:induction false} WellFormedIsChain(toks: seq<Token>)
    ensures WellFormed(toks, 0, true) <==> exists c :: Show(c) == toks
  {
    if WellFormed(toks, 0, true) {
      var c, rest := TakeChain(toks, 0);
      assert rest == [];
      assert Show(c) == toks;
    }
    if c :| Show(c) == toks {
      ChainPasses(c, [], 0);
      assert Show(c) + [] == Show(c);
    }
  }

  // ----- the four operations, said with the real numbers' own -----

  /** Each operation on any two numbers; a quotient is what times the divisor is the dividend, and 0
      when the divisor is 0. */
  lemma OneOperation(a: real, b: real)
    ensures Calculation([Num(a), Op(Plus), Num(b)]) == a + b
    ensures Calculation([Num(a), Op(Minus), Num(b)]) == a - b
    ensures Calculation([Num(a), Op(Times), Num(b)]) == a * b
    ensures b != 0.0 ==> Calculation([Num(a), Op(Over), Num(b)]) * b == a
    ensures b == 0.0 ==> Calculation([Num(a), Op(Over), Num(b)]) == 0.0
  {
    TwoNumbers(a, Plus, b);
    TwoNumbers(a, Minus, b);
    TwoNumbers(a, Times, b);
    TwoNumbers(a, Over, b);
  }

  lemma ValueOf(op: BinOp, l: Tree, r: Tree)
    ensures Eval(Bin(op, l, r)) == Apply(op, Eval(l), Eval(r))
  {
  }

  lemma LeavesValue(op: BinOp, a: real, b: real)
    ensures Eval(Bin(op, Leaf(a), Leaf(b))) == Apply(op, a, b)
  {
    assert Eval(Leaf(a)) == a && Eval(Leaf(b)) == b;
    ValueOf(op, Leaf(a), Leaf(b));
  }

  lemma TwoNumbers(a: real, op: BinOp, b: real)
    ensures Calculation([Num(a), Op(op), Num(b)]) == Apply(op, a, b)
  {
    var t := Bin(op, Leaf(a), Leaf(b));
    CalculateEvaluatesTrees(t);
    assert Tokens(t) == [Num(a), Op(op), Num(b)];
  }

  lemma ThreeNumbers(a: real, op: BinOp, b: real, next: BinOp, c: real)
    requires Prec(next) <= Prec(op)
    ensures Calculation([Num(a), Op(op), Num(b), Op(next), Num(c)]) == Apply(next, Apply(op, a, b), c)
  {
    var first := Bin(op, Leaf(a), Leaf(b));
    var t := Bin(next, first, Leaf(c));
    assert Tokens(first) == [Num(a), Op(op), Num(b)] && Eval(Leaf(c)) == c;
    LeavesValue(op, a, b);
    ValueOf(next, first, Leaf(c));
    CalculateEvaluatesTrees(t);
    assert Tokens(t) == [Num(a), Op(op), Num(b), Op(next), Num(c)];
  }

  lemma ThreeNumbersTight(a: real, op: BinOp, b: real, next: BinOp, c: real)
    requires Prec(op) < Prec(next)
    ensures Calculation([Num(a), Op(op), Num(b), Op(next), Num(c)]) == Apply(op, a, Apply(next, b, c))
  {
    var last := Bin(next, Leaf(b), Leaf(c));
    var t := Bin(op, Leaf(a), last);
    assert Fits(Leaf(b), Prec(next)) && Fits(Leaf(c), Prec(next) + 1) && Fits(last, Prec(next));
    assert Tokens(last) == [Num(b), Op(next), Num(c)] && Eval(Leaf(a)) == a;
    LeavesValue(next, b, c);
    ValueOf(op, Leaf(a), last);
    CalculateEvaluatesTrees(t);
    assert Tokens(t) == [Num(a), Op(op), Num(b), Op(next), Num(c)];
  }

  /** Sums and differences are read from the left, and so are products and quotients. */
  lemma FromTheLeft(a: real, b: real, c: real)
    ensures Calculation([Num(a), Op(Minus), Num(b), Op(Minus), Num(c)]) == (a - b) - c
    ensures Calculation([Num(a), Op(Minus), Num(b), Op(Plus), Num(c)]) == (a - b) + c
    ensures Calculation([Num(a), Op(Plus), Num(b), Op(Minus), Num(c)]) == (a + b) - c
    ensures Calculation([Num(a), Op(Times), Num(b), Op(Over), Num(c)]) == if c == 0.0 then 0.0 else (a * b) / c
    ensures b != 0.0 ==> Calculation([Num(a), Op(Over), Num(b), Op(Times), Num(c)]) == (a / b) * c
    ensures b != 0.0 && c != 0.0 ==> Calculation([Num(a), Op(Over), Num(b), Op(Over), Num(c)]) == (a / b) / c
    ensures b == 0.0 || c == 0.0 ==> Calculation([Num(a), Op(Over), Num(b), Op(Over), Num(c)]) == 0.0
  {
    ThreeNumbers(a, Minus, b, Minus, c);
    ThreeNumbers(a, Minus, b, Plus, c);
    ThreeNumbers(a, Plus, b, Minus, c);
    ThreeNumbers(a, Times, b, Over, c);
    ThreeNumbers(a, Over, b, Times, c);
    ThreeNumbers(a, Over, b, Over, c);
  }

  /** Products and quotients bind tighter than sums and differences, on either side. */
  lemma ProductsFirst(a: real, b: real, c: real)
    ensures Calculation([Num(a), Op(Plus), Num(b), Op(Times), Num(c)]) == a + b * c
    ensures Calculation([Num(a), Op(Minus), Num(b), Op(Times), Num(c)]) == a - b * c
    ensures Calculation([Num(a), Op(Times), Num(b), Op(Plus), Num(c)]) == a * b + c
    ensures Calculation([Num(a), Op(Times), Num(b), Op(Minus), Num(c)]) == a * b - c
    ensures c != 0.0 ==> Calculation([Num(a), Op(Plus), Num(b), Op(Over), Num(c)]) == a + b / c
    ensures b != 0.0 ==> Calculation([Num(a), Op(Over), Num(b), Op(Minus), Num(c)]) == a / b - c
  {
    ThreeNumbersTight(a, Plus, b, Times, c);
    ThreeNumbersTight(a, Minus, b, Times, c);
    ThreeNumbers(a, Times, b, Plus, c);
    ThreeNumbers(a, Times, b, Minus, c);
    ThreeNumbersTight(a, Plus, b, Over, c);
    ThreeNumbers(a, Over, b, Minus, c);
  }

  /** Parentheses come first. */
  lemma ParenthesesFirst(a: real, b: real, c: real)
    ensures Calculation([Open, Num(a), Op(Plus), Num(b), Close, Op(Times), Num(c)]) == (a + b) * c
    ensures Calculation([Num(a), Op(Minus), Open, Num(b), Op(Minus), Num(c), Close]) == a - (b - c)
  {
    GroupOnTheLeft(a, Plus, b, Times, c);
    GroupOnTheRight(a, Minus, b, Minus, c);
  }

  lemma GroupOnTheLeft(a: real, op: BinOp, b: real, next: BinOp, c: real)
    ensures Calculation([Open, Num(a), Op(op), Num(b), Close, Op(next), Num(c)]) == Apply(next, Apply(op, a, b), c)
  {
    var group := Grouped(a, op, b, Prec(next));
    var t := Bin(next, group, Leaf(c));
    assert Tokens(t) == [Open, Num(a), Op(op), Num(b), Close, Op(next), Num(c)];
    assert Eval(Leaf(c)) == c && Fits(Leaf(c), Prec(next) + 1);
    ValueOf(next, group, Leaf(c));
    CalculateEvaluatesTrees(t);
  }

  lemma GroupOnTheRight(a: real, op: BinOp, b: real, next: BinOp, c: real)
    ensures Calculation([Num(a), Op(op), Open, Num(b), Op(next), Num(c), Close]) == Apply(op, a, Apply(next, b, c))
  {
    var group := Grouped(b, next, c, Prec(op) + 1);
    var t := Bin(op, Leaf(a), group);
    assert Tokens(t) == [Num(a), Op(op), Open, Num(b), Op(next), Num(c), Close];
    assert Eval(Leaf(a)) == a && Fits(Leaf(a), Prec(op));
    ValueOf(op, Leaf(a), group);
    CalculateEvaluatesTrees(t);
  }

  lemma Grouped(a: real, op: BinOp, b: real, level: int) returns (t: Tree)
    ensures t == Paren(Bin(op, Leaf(a), Leaf(b)))
    ensures Tokens(t) == [Open, Num(a), Op(op), Num(b), Close] && Fits(t, level) && Eval(t) == Apply(op, a, b)
  {
    var inner := Bin(op, Leaf(a), Leaf(b));
    assert Tokens(inner) == [Num(a), Op(op), Num(b)];
    LeavesValue(op, a, b);
    assert Fits(Leaf(a), Prec(op));
    assert Fits(Leaf(b), Prec(op) + 1);
    assert Fits(inner, 1);
    t := Paren(inner);
  }

  /** Lists that are no expressions still have a result: what no operand or operator is, is passed over,
      an operator without two values does nothing, and of several values the first is returned. */
  lemma OtherLists(a: real, b: real)
    ensures Calculation([]) == 0.0 && Calculation([Skip]) == 0.0
    ensures Calculation([Op(Minus), Num(a)]) == a
    ensures Calculation([Num(a), Skip, Num(b)]) == a
  {
    assert [Skip][1..] == [];
    MinusAlone(a);
    NumbersApart(a, b);
  }

  lemma MinusAlone(a: real)
    ensures Calculation([Op(Minus), Num(a)]) == a
  {
    TwoTokens(Op(Minus), Num(a));
    var s := State([Num(a)], [Op(Minus)]);
    assert Convert(State([], []), Op(Minus)) == State([], [Op(Minus)]);
    assert Convert(State([], [Op(Minus)]), Num(a)) == s;
    assert [Num(a)] + [Op(Minus)] == [Num(a), Op(Minus)];
    assert Drain(State([Num(a), Op(Minus)], [])) == [Num(a), Op(Minus)];
    assert Drain(s) == [Num(a), Op(Minus)];
    TwoExecuted(Num(a), Op(Minus));
  }

  lemma TwoTokens(x: Token, y: Token)
    ensures ConvertAll(State([], []), [x, y]) == Convert(Convert(State([], []), x), y)
  {
    var s := Convert(State([], []), x);
    assert [x, y][1..] == [y] && [y][1..] == [];
    assert ConvertAll(s, [y]) == Convert(s, y);
  }

  lemma TwoExecuted(x: Token, y: Token)
    ensures ExecuteAll([], [x, y]) == Execute(Execute([], x), y)
  {
    var values := Execute([], x);
    assert [x, y][1..] == [y] && [y][1..] == [];
    assert ExecuteAll(values, [y]) == Execute(values, y);
  }

  lemma NumbersApart(a: real, b: real)
    ensures Calculation([Num(a), Skip, Num(b)]) == a
  {
    var toks, s := [Num(a), Skip, Num(b)], State([Num(a)], []);
    assert toks[1..] == [Skip, Num(b)] && [Skip, Num(b)][1..] == [Num(b)];
    assert Convert(State([], []), Num(a)) == s && Convert(s, Skip) == s;
    assert [Num(b)][1..] == [] && [Num(a)] + [Num(b)] == [Num(a), Num(b)];
    assert ConvertAll(s, [Num(b)]) == Convert(s, Num(b)) == State([Num(a), Num(b)], []);
    assert ConvertAll(s, [Skip, Num(b)]) == State([Num(a), Num(b)], []);
    assert Postfix(toks) == [Num(a), Num(b)];
    TwoExecuted(Num(a), Num(b));
  }
}
