/** Expressions as text: tokens written with blanks between them are scanned back, so every tree can
    be written as a text that compiles to it. */
module ExprText {
  import opened Lexer
  import opened ExprSyntax
  import opened ExprParser
  import opened ExprCompiler
  import opened Options

  function SymText(s: Sym): (r: string)
    ensures r != ""
  {
    match s
    case LP => "(" case RP => ")" case LB => "[" case RB => "]" case LC => "{" case RC => "}"
    case COMMA => "," case COLON => ":" case PLUS => "+" case MINUS => "-" case STAR => "*"
    case SLASH => "/" case PERCENT => "%"
    case EQ => "==" case NE => "!=" case LT => "<" case LE => "<=" case GT => ">" case GE => ">="
  }

  /** Contents that a literal between these quotes ends after. */
  predicate Quotable(text: string, quote: char) {
    StringEnd(text + [quote], 0, quote) == |text|
  }

  function Lexeme(t: Token): string {
    match t
    case Num(text, _) => text
    case Id(text) => text
    case Str(text) => if Quotable(text, '"') then ['"'] + text + ['"'] else ['\''] + text + ['\'']
    case Sym(s) => SymText(s)
    case Eof => ""
  }

  /** Tokens that have a spelling: whole numbers, whole names, strings that fit between quotes. */
  predicate Writable(t: Token) {
    match t
    case Num(text, isFloat) =>
      text != "" && IsDigit(text[0]) && NumberEnd(text, 0) == |text| &&
      isFloat == ('.' in text || 'e' in text || 'E' in text)
    case Id(text) => text != "" && IsIdentStart(text[0]) && IdentEnd(text, 1) == |text|
    case Str(text) => Quotable(text, '"') || Quotable(text, '\'')
    case Sym(_) => true
    case Eof => false
  }

  function Lexemes(ts: seq<Token>): seq<string> {
    seq(|ts|, k requires 0 <= k < |ts| => Lexeme(ts[k]))
  }

  /** Words with a blank after each. */
  function Joined(words: seq<string>): string {
    if words == [] then "" else words[0] + [' '] + Joined(words[1..])
  }

  function Written(ts: seq<Token>): string {
    Joined(Lexemes(ts))
  }

  // ----- scanning looks no further than the blank -----

  /** `s` stands at `i` with a blank after it. */
  ghost predicate Stands(t: string, i: nat, s: string) {
    i + |s| < |t| && t[i + |s|] == ' ' && forall k {:trigger s[k]} :: 0 <= k < |s| ==> t[i + k] == s[k]
  }

  lemma {:induction false} DigitsStand(t: string, i: nat, s: string, k: nat)
    requires Stands(t, i, s) && k <= |s|
    ensures DigitsEnd(t, i + k) == i + DigitsEnd(s, k)
    decreases |s| - k
  {
    if k < |s| && IsDigit(s[k]) {
      DigitsStand(t, i, s, k + 1);
    }
  }

  lemma {:induction false} HexStands(t: string, i: nat, s: string, k: nat)
    requires Stands(t, i, s) && k <= |s|
    ensures HexEnd(t, i + k) == i + HexEnd(s, k)
    decreases |s| - k
  {
    if k < |s| && IsHex(s[k]) {
      HexStands(t, i, s, k + 1);
    }
  }

  lemma {:induction false} NameStands(t: string, i: nat, s: string, k: nat)
    requires Stands(t, i, s) && k <= |s|
    ensures IdentEnd(t, i + k) == i + IdentEnd(s, k)
    decreases |s| - k
  {
    if k < |s| && IsIdentPart(s[k]) {
      NameStands(t, i, s, k + 1);
    }
  }

  lemma ExponentStands(t: string, i: nat, s: string, k: nat, lower: char, upper: char)
    requires Stands(t, i, s) && k <= |s| && lower !in {'\0', ' '} && upper !in {'\0', ' '}
    ensures ExponentEnd(t, i + k, lower, upper) == i + ExponentEnd(s, k, lower, upper)
  {
    if k < |s| && (s[k] == lower || s[k] == upper) {
      var j := if At(s, k + 1) == '+' || At(s, k + 1) == '-' then k + 2 else k + 1;
      assert At(t, i + k + 1) == if k + 1 < |s| then s[k + 1] else ' ';
      if j < |s| {
        DigitsStand(t, i, s, j);
      } else {
        assert j == |s| && !IsDigit(At(t, i + j));
      }
    }
  }

  /** In `t` stand the characters of `s`, and then a blank. */
  lemma AtStands(t: string, i: nat, s: string, k: nat)
    requires Stands(t, i, s) && k <= |s|
    ensures At(t, i + k) == if k < |s| then At(s, k) else ' '
  {
  }

  lemma IsHexNumber(t: string, i: nat, s: string)
    requires Stands(t, i, s) && s != "" && IsDigit(s[0])
    ensures HexPrefix(t, i) <==> HexPrefix(s, 0)
  {
    AtStands(t, i, s, 0);
    AtStands(t, i, s, 1);
    if |s| >= 2 {
      AtStands(t, i, s, 2);
    }
    if |s| >= 3 {
      AtStands(t, i, s, 3);
    }
  }

  lemma AfterPointStands(t: string, i: nat, s: string, m: nat)
    requires Stands(t, i, s) && m <= |s|
    ensures AfterPoint(t, i + m) == i + AfterPoint(s, m)
  {
    AtStands(t, i, s, m);
    if At(s, m) == '.' {
      DigitsStand(t, i, s, m + 1);
    }
  }

  lemma AfterHexPointStands(t: string, i: nat, s: string, m: nat)
    requires Stands(t, i, s) && m <= |s|
    ensures AfterHexPoint(t, i + m) == i + AfterHexPoint(s, m)
  {
    AtStands(t, i, s, m);
    if At(s, m) == '.' {
      HexStands(t, i, s, m + 1);
    }
  }

  lemma DecimalStands(t: string, i: nat, s: string)
    requires Stands(t, i, s) && s != ""
    ensures ExponentEnd(t, AfterPoint(t, DigitsEnd(t, i + 1)), 'e', 'E') ==
            i + ExponentEnd(s, AfterPoint(s, DigitsEnd(s, 1)), 'e', 'E')
  {
    DigitsStand(t, i, s, 1);
    AfterPointStands(t, i, s, DigitsEnd(s, 1));
    ExponentStands(t, i, s, AfterPoint(s, DigitsEnd(s, 1)), 'e', 'E');
  }

  lemma HexNumberStands(t: string, i: nat, s: string)
    requires Stands(t, i, s) && |s| >= 2
    ensures ExponentEnd(t, AfterHexPoint(t, HexEnd(t, i + 2)), 'p', 'P') ==
            i + ExponentEnd(s, AfterHexPoint(s, HexEnd(s, 2)), 'p', 'P')
  {
    HexStands(t, i, s, 2);
    AfterHexPointStands(t, i, s, HexEnd(s, 2));
    ExponentStands(t, i, s, AfterHexPoint(s, HexEnd(s, 2)), 'p', 'P');
  }

  lemma NumberStands(t: string, i: nat, s: string)
    requires Stands(t, i, s) && s != "" && IsDigit(s[0])
    ensures NumberEnd(t, i) == i + NumberEnd(s, 0)
  {
    IsHexNumber(t, i, s);
    AtStands(t, i, s, 0);
    if HexPrefix(s, 0) {
      HexNumberStands(t, i, s);
    } else {
      DecimalStands(t, i, s);
    }
  }

  /** The contents of a literal end where they end on their own. */
  lemma {:induction false} StringStands(t: string, i: nat, s: string, k: nat, quote: char)
    requires Stands(t, i, s) && k < |s| && s[|s| - 1] == quote != '\0'
    requires StringEnd(s, k, quote) == |s| - 1
    ensures StringEnd(t, i + k, quote) == i + |s| - 1
    decreases |s| - k
  {
    assert t[i + k] == s[k];
    if s[k] != quote {
      assert k + 1 < |s| && t[i + k + 1] == s[k + 1];
      if s[k] == '\\' && s[k + 1] != '\0' {
        StringStands(t, i, s, k + 2, quote);
      } else {
        StringStands(t, i, s, k + 1, quote);
      }
    }
  }

  // ----- one token, then all of them -----

  predicate StartsSymbol(c: char) {
    !IsBlank(c) && !AtEnd(c) && !IsDigit(c) && !IsIdentStart(c) && c != '"' && c != '\''
  }

  /** One character that has a meaning alone, or two of which the second is `=`. */
  lemma SymbolShape(s: Sym)
    ensures var text := SymText(s);
            && StartsSymbol(text[0])
            && (|text| == 1 ==> Sym(s) == if IsDoubled(text[0]) then Doubled(text[0]).1 else OneChar(text[0]))
            && (|text| != 1 ==> |text| == 2 && text[1] == '=' && IsDoubled(text[0]) && Doubled(text[0]).0 == Sym(s))
  {
  }

  lemma LexSymbol(t: string, i: nat)
    requires i < |t| && StartsSymbol(t[i])
    ensures Lex(t, i) ==
            if !IsDoubled(t[i]) then (OneChar(t[i]), i + 1)
            else if At(t, i + 1) == '=' then (Doubled(t[i]).0, i + 2) else (Doubled(t[i]).1, i + 1)
  {
    assert SkipBlanks(t, i) == i;
  }

  lemma SymbolScanned(t: string, i: nat, s: Sym)
    requires Stands(t, i, SymText(s))
    ensures Lex(t, i) == (Sym(s), i + |SymText(s)|)
  {
    SymbolShape(s);
    AtStands(t, i, SymText(s), 0);
    AtStands(t, i, SymText(s), 1);
    LexSymbol(t, i);
  }

  lemma StringScanned(t: string, i: nat, text: string, quote: char)
    requires quote in {'"', '\''} && Quotable(text, quote) && Stands(t, i, [quote] + text + [quote])
    ensures Lex(t, i) == (Str(text), i + |text| + 2)
  {
    InnerStands(t, i, text, quote);
    StringStands(t, i + 1, text + [quote], 0, quote);
    LexString(t, i, |text|);
  }

  /** Behind the opening quote stand the contents and the closing quote. */
  lemma InnerStands(t: string, i: nat, text: string, quote: char)
    requires Stands(t, i, [quote] + text + [quote])
    ensures t[i] == quote && Stands(t, i + 1, text + [quote])
    ensures t[i + 1..i + 1 + |text|] == text && t[i + 1 + |text|] == quote
  {
    var all := [quote] + text + [quote];
    assert t[i] == all[0];
    forall k | 0 <= k < |text| + 1
      ensures t[i + 1 + k] == (text + [quote])[k]
    {
      assert t[i + (1 + k)] == all[1 + k];
    }
    assert forall k :: 0 <= k < |text| ==> t[i + 1 + k] == (text + [quote])[k] == text[k];
    assert t[i + 1 + |text|] == (text + [quote])[|text|];
  }

  lemma LexString(t: string, i: nat, n: nat)
    requires i + n + 1 < |t| && t[i] in {'"', '\''} && StringEnd(t, i + 1, t[i]) == i + 1 + n && t[i + 1 + n] == t[i]
    ensures Lex(t, i) == (Str(t[i + 1..i + 1 + n]), i + n + 2)
  {
    assert SkipBlanks(t, i) == i;
  }

  lemma StandsSlice(t: string, i: nat, s: string)
    requires Stands(t, i, s)
    ensures t[i..i + |s|] == s
  {
  }

  lemma NumberScanned(t: string, i: nat, tok: Token)
    requires tok.Num? && Writable(tok) && Stands(t, i, tok.text)
    ensures Lex(t, i) == (tok, i + |tok.text|)
  {
    AtStands(t, i, tok.text, 0);
    StandsSlice(t, i, tok.text);
    NumberStands(t, i, tok.text);
    LexNumber(t, i);
  }

  lemma LexNumber(t: string, i: nat)
    requires i < |t| && IsDigit(t[i])
    ensures var e := NumberEnd(t, i);
            var text := t[i..e];
            Lex(t, i) == (Num(text, '.' in text || 'e' in text || 'E' in text), e)
  {
    assert SkipBlanks(t, i) == i;
  }

  lemma NameScanned(t: string, i: nat, tok: Token)
    requires tok.Id? && Writable(tok) && Stands(t, i, tok.text)
    ensures Lex(t, i) == (tok, i + |tok.text|)
  {
    AtStands(t, i, tok.text, 0);
    StandsSlice(t, i, tok.text);
    NameStands(t, i, tok.text, 1);
    LexName(t, i);
  }

  lemma LexName(t: string, i: nat)
    requires i < |t| && IsIdentStart(t[i])
    ensures var e := IdentEnd(t, i + 1); Lex(t, i) == (Id(t[i..e]), e)
  {
    assert SkipBlanks(t, i) == i;
  }

  lemma TokenScanned(t: string, i: nat, tok: Token)
    requires Writable(tok) && Stands(t, i, Lexeme(tok))
    ensures Lex(t, i) == (tok, i + |Lexeme(tok)|)
  {
    if tok.Sym? {
      SymbolScanned(t, i, tok.sym);
    } else if tok.Str? {
      QuotedScanned(t, i, tok.text);
    } else if tok.Num? {
      NumberScanned(t, i, tok);
    } else {
      NameScanned(t, i, tok);
    }
  }

  lemma QuotedScanned(t: string, i: nat, text: string)
    requires Writable(Str(text)) && Stands(t, i, Lexeme(Str(text)))
    ensures Lex(t, i) == (Str(text), i + |Lexeme(Str(text))|)
  {
    if Quotable(text, '"') {
      StringScanned(t, i, text, '"');
    } else {
      StringScanned(t, i, text, '\'');
    }
  }

  predicate AllWritable(ts: seq<Token>) {
    ts == [] || (Writable(ts[0]) && AllWritable(ts[1..]))
  }

  /** From `i` on the text is these words, each with its blank. */
  ghost predicate WrittenAt(t: string, i: nat, words: seq<string>)
    decreases |words|
  {
    if words == [] then i == |t| else Stands(t, i, words[0]) && WrittenAt(t, i + |words[0]| + 1, words[1..])
  }

  lemma {:induction false} WrittenStands(t: string, i: nat, words: seq<string>)
    requires i <= |t| && t[i..] == Joined(words)
    ensures WrittenAt(t, i, words)
    decreases |words|
  {
    if words != [] {
      HeadStands(t, i, words[0], Joined(words[1..]));
      WrittenStands(t, i + |words[0]| + 1, words[1..]);
    }
  }

  /** From `i` on the scanner finds these tokens, each with a blank behind it, and then the end. */
  ghost predicate ScannedAt(t: string, i: nat, ts: seq<Token>)
    requires i <= |t|
    decreases |ts|
  {
    if ts == [] then i == |t|
    else
      var (tok, next) := Lex(t, i);
      tok == ts[0] != Eof && next < |t| && t[next] == ' ' && ScannedAt(t, next + 1, ts[1..])
  }

  /** The first token of a text that is written so is scanned, and the rest is written behind it. */
  lemma FirstStands(t: string, i: nat, ts: seq<Token>) returns (next: nat)
    requires ts != [] && AllWritable(ts) && WrittenAt(t, i, Lexemes(ts))
    ensures Writable(ts[0]) && AllWritable(ts[1..])
    ensures Stands(t, i, Lexeme(ts[0])) && next == i + |Lexeme(ts[0])| && WrittenAt(t, next + 1, Lexemes(ts[1..]))
  {
    next := i + |Lexeme(ts[0])|;
    assert Lexemes(ts)[1..] == Lexemes(ts[1..]);
  }

  lemma TokenEnds(t: string, i: nat, tok: Token, next: nat)
    requires Writable(tok) && Stands(t, i, Lexeme(tok)) && next == i + |Lexeme(tok)|
    ensures tok != Eof && next < |t| && t[next] == ' ' && Lex(t, i) == (tok, next)
  {
    TokenScanned(t, i, tok);
  }

  lemma ScannedFirst(t: string, i: nat, n: nat, ts: seq<Token>)
    requires ts != [] && ts[0] != Eof && i <= |t| && Lex(t, i) == (ts[0], n)
    requires n < |t| && t[n] == ' ' && ScannedAt(t, n + 1, ts[1..])
    ensures ScannedAt(t, i, ts)
  {
  }

  /** What stands is scanned token by token. */
  lemma {:induction false} WrittenTokens(t: string, i: nat, ts: seq<Token>)
    requires AllWritable(ts) && i <= |t| && WrittenAt(t, i, Lexemes(ts))
    ensures ScannedAt(t, i, ts)
    decreases |ts|
  {
    if ts != [] {
      var next := FirstStands(t, i, ts);
      TokenEnds(t, i, ts[0], next);
      WrittenTokens(t, next + 1, ts[1..]);
      ScannedFirst(t, i, next, ts);
    }
  }

  /** The blank behind a token is skipped before the next. */
  lemma {:induction false} ScannedAreTokens(t: string, pos: nat, i: nat, ts: seq<Token>)
    requires i <= |t| && ScannedAt(t, i, ts)
    requires pos == i || (pos == i - 1 && t[pos] == ' ')
    ensures Tokens(t, pos) == ts
    decreases |ts|
  {
    BlankIgnored(t, pos, i);
    if ts == [] {
      assert Lex(t, pos).0 == Eof;
    } else {
      var next := Lex(t, i).1;
      ScannedAreTokens(t, next, next + 1, ts[1..]);
      OneToken(t, pos, next, ts);
    }
  }

  /** The tokens of a written text are the tokens that were written. */
  lemma WrittenIsScanned(ts: seq<Token>)
    requires AllWritable(ts)
    ensures Tokens(Written(ts), 0) == ts
  {
    assert Written(ts)[0..] == Written(ts);
    WrittenStands(Written(ts), 0, Lexemes(ts));
    WrittenTokens(Written(ts), 0, ts);
    ScannedAreTokens(Written(ts), 0, 0, ts);
  }

  lemma HeadStands(t: string, i: nat, s: string, rest: string)
    requires i <= |t| && t[i..] == s + [' '] + rest
    ensures Stands(t, i, s) && t[i + |s| + 1..] == rest
  {
    var u := t[i..];
    assert u[|s|] == ' ' && u[..|s|] == s && u[|s| + 1..] == rest;
    forall k | 0 <= k < |s|
      ensures t[i + k] == s[k]
    {
      assert t[i + k] == u[k] == u[..|s|][k];
    }
    assert t[i + |s|] == u[|s|];
    assert t[i + |s| + 1..] == u[|s| + 1..];
  }

  lemma OneToken(t: string, pos: nat, next: nat, ts: seq<Token>)
    requires ts != [] && pos <= |t| && next <= |t| && Lex(t, pos) == (ts[0], next) && ts[0] != Eof &&
             Tokens(t, next) == ts[1..]
    ensures Tokens(t, pos) == ts
  {
    assert [ts[0]] + ts[1..] == ts;
  }

  lemma BlankIgnored(t: string, pos: nat, i: nat)
    requires i <= |t| && (pos == i || (pos == i - 1 && t[pos] == ' '))
    ensures Lex(t, pos) == Lex(t, i)
  {
  }

  /** Every compilable tree has a text: written with parentheses only where the precedence table
      needs them, it is read whole and compiles to exactly that tree's postorder code. */
  lemma PrintedTextCompiles(env: Env, t: Expr, o: Output)
    requires Bare(t) && Gen(env, t, o).Some?
    requires AllWritable(Show(Parenthesize(t, 0)))
    ensures var printed := Parenthesize(t, 0);
            ParseExpr(env, Tokens(Written(Show(printed)), 0), 0, o) == Done(printed, [], Gen(env, t, o).value)
  {
    var ts := Show(Parenthesize(t, 0));
    WrittenIsScanned(ts);
    PrintedTreeCompiles(env, t, o);
  }
}
