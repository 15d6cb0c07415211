/** The hand-written scanner of the native expression compiler.

    Text is a NUL-terminated C string: reading at or past its length yields NUL,
    and a NUL inside it ends it. `Lex` says what one scan step returns, the class
    `Scanner` performs that step in place. */
module Lexer {

  datatype Sym =
    | LP | RP | LB | RB | LC | RC | COMMA | COLON
    | PLUS | MINUS | STAR | SLASH | PERCENT
    | EQ | NE | LT | LE | GT | GE

  datatype Token =
    | Eof
    | Num(text: string, isFloat: bool)
    | Str(text: string)
    | Id(text: string)
    | Sym(sym: Sym)

  function At(t: string, i: nat): char {
    if i < |t| then t[i] else '\0'
  }

  predicate IsBlank(c: char) { c == ' ' || c == '\t' }

  predicate IsDigit(c: char) { '0' <= c <= '9' }

  predicate IsHex(c: char) { IsDigit(c) || 'a' <= c <= 'f' || 'A' <= c <= 'F' }

  predicate IsAlpha(c: char) { 'a' <= c <= 'z' || 'A' <= c <= 'Z' }

  predicate IsIdentStart(c: char) { IsAlpha(c) || c == '_' }

  predicate IsIdentPart(c: char) { IsAlpha(c) || IsDigit(c) || c == '_' || c == '.' }

  /** The first position from `i` on that is not a space or tab. */
  function SkipBlanks(t: string, i: nat): (r: nat)
    requires i <= |t|
    ensures i <= r <= |t| && !IsBlank(At(t, r))
    decreases |t| - i
  {
    if IsBlank(At(t, i)) then SkipBlanks(t, i + 1) else i
  }

  function IdentEnd(t: string, i: nat): (r: nat)
    requires i <= |t|
    ensures i <= r <= |t| && !IsIdentPart(At(t, r))
    decreases |t| - i
  {
    if IsIdentPart(At(t, i)) then IdentEnd(t, i + 1) else i
  }

  /** Exactly blanks are skipped, and a name is made of name characters. */
  lemma {:induction false} BlanksSkipped(t: string, i: nat, k: nat)
    requires i <= |t| && i <= k < SkipBlanks(t, i)
    ensures IsBlank(t[k])
    decreases k - i
  {
    if i < k {
      BlanksSkipped(t, i + 1, k);
    }
  }

  lemma {:induction false} NameParts(t: string, i: nat, k: nat)
    requires i <= |t| && i <= k < IdentEnd(t, i)
    ensures IsIdentPart(t[k])
    decreases k - i
  {
    if i < k {
      NameParts(t, i + 1, k);
    }
  }

  /** Where a string literal's contents end: a backslash protects the next character. */
  function StringEnd(t: string, i: nat, quote: char): (r: nat)
    requires i <= |t|
    ensures i <= r <= |t| && At(t, r) in {'\0', quote}
    decreases |t| - i
  {
    if At(t, i) == '\0' || At(t, i) == quote then i
    else if At(t, i) == '\\' && At(t, i + 1) != '\0' then StringEnd(t, i + 2, quote)
    else StringEnd(t, i + 1, quote)
  }

  // The subject sequence of strtod (section 7.22.1.3 of the C11 standard, C locale) for a text
  // that starts with a digit: a decimal number, or a hexadecimal one after 0x.

  function DigitsEnd(t: string, i: nat): (r: nat)
    requires i <= |t|
    ensures i <= r <= |t| && !IsDigit(At(t, r))
    decreases |t| - i
  {
    if IsDigit(At(t, i)) then DigitsEnd(t, i + 1) else i
  }

  lemma {:induction false} DigitsUpTo(t: string, i: nat, k: nat)
    requires i <= |t| && i <= k < DigitsEnd(t, i)
    ensures IsDigit(t[k])
    decreases k - i
  {
    if i < k {
      DigitsUpTo(t, i + 1, k);
    }
  }

  function HexEnd(t: string, i: nat): (r: nat)
    requires i <= |t|
    ensures i <= r <= |t|
    decreases |t| - i
  {
    if IsHex(At(t, i)) then HexEnd(t, i + 1) else i
  }

  function ExponentEnd(t: string, i: nat, lower: char, upper: char): (r: nat)
    requires i <= |t| && lower != '\0' && upper != '\0'
    ensures i <= r <= |t|
  {
    if At(t, i) != lower && At(t, i) != upper then i
    else
      var j := if At(t, i + 1) == '+' || At(t, i + 1) == '-' then i + 2 else i + 1;
      if IsDigit(At(t, j)) then DigitsEnd(t, j) else i
  }

  /** The number at `i` is hexadecimal: 0x and a hexadecimal digit, perhaps after a point. */
  predicate HexPrefix(t: string, i: nat) {
    At(t, i) == '0' && At(t, i + 1) in {'x', 'X'} &&
    (IsHex(At(t, i + 2)) || (At(t, i + 2) == '.' && IsHex(At(t, i + 3))))
  }

  /** The end of an optional point with digits. */
  function AfterPoint(t: string, m: nat): (f: nat)
    requires m <= |t|
    ensures m <= f <= |t|
  {
    if At(t, m) == '.' then DigitsEnd(t, m + 1) else m
  }

  function AfterHexPoint(t: string, m: nat): (f: nat)
    requires m <= |t|
    ensures m <= f <= |t|
  {
    if At(t, m) == '.' then HexEnd(t, m + 1) else m
  }

  function NumberEnd(t: string, i: nat): (r: nat)
    requires i < |t| && IsDigit(t[i])
    ensures i < r <= |t|
  {
    if HexPrefix(t, i) then ExponentEnd(t, AfterHexPoint(t, HexEnd(t, i + 2)), 'p', 'P')
    else ExponentEnd(t, AfterPoint(t, DigitsEnd(t, i + 1)), 'e', 'E')
  }

  function OneChar(c: char): Token {
    match c
    case '(' => Sym(LP) case ')' => Sym(RP) case '[' => Sym(LB) case ']' => Sym(RB)
    case '{' => Sym(LC) case '}' => Sym(RC) case ',' => Sym(COMMA) case ':' => Sym(COLON)
    case '+' => Sym(PLUS) case '-' => Sym(MINUS) case '*' => Sym(STAR)
    case '/' => Sym(SLASH) case '%' => Sym(PERCENT)
    case _ => Eof
  }

  /** A character that a following `=` turns into a two-character token: what it means
      with the `=` and what it means alone (`=` and `!` alone mean nothing). */
  function Doubled(c: char): (Token, Token) {
    match c
    case '=' => (Sym(EQ), Eof)
    case '!' => (Sym(NE), Eof)
    case '<' => (Sym(LE), Sym(LT))
    case '>' => (Sym(GE), Sym(GT))
    case _ => (Eof, Eof)
  }

  predicate IsDoubled(c: char) { c in {'=', '!', '<', '>'} }

  /** Whether the scanner has run out of text: end of string, or a comment. */
  predicate AtEnd(c: char) { c == '\0' || c == '#' }

  /** One call of lex_next at `cur`: the token found and the new position. Only at the end of
      the text or at a comment does it not move past the first character it looks at, and every
      token but `Eof` moves it forward. */
  function Lex(t: string, cur: nat): (r: (Token, nat))
    requires cur <= |t|
    ensures SkipBlanks(t, cur) <= r.1 <= |t|
    ensures r.1 == SkipBlanks(t, cur) <==> AtEnd(At(t, SkipBlanks(t, cur)))
    ensures AtEnd(At(t, SkipBlanks(t, cur))) ==> r.0 == Eof
  {
    var i := SkipBlanks(t, cur);
    var c := At(t, i);
    if AtEnd(c) then (Eof, i)
    else if IsDigit(c) then
      var e := NumberEnd(t, i);
      var text := t[i..e];
      (Num(text, '.' in text || 'e' in text || 'E' in text), e)
    else if IsIdentStart(c) then
      var e := IdentEnd(t, i + 1);
      (Id(t[i..e]), e)
    else if c == '"' || c == '\'' then
      var e := StringEnd(t, i + 1, c);
      (Str(t[i + 1..e]), if At(t, e) == c then e + 1 else e)
    else if IsDoubled(c) then
      if At(t, i + 1) == '=' then (Doubled(c).0, i + 2) else (Doubled(c).1, i + 1)
    else (OneChar(c), i + 1)
  }

  /** The tokens a caller that stops at the first `Eof` can see from `cur` on. */
  function Tokens(t: string, cur: nat): (r: seq<Token>)
    requires cur <= |t|
    ensures forall k :: 0 <= k < |r| ==> r[k] != Eof
    decreases |t| - cur
  {
    var (tok, next) := Lex(t, cur);
    if tok == Eof then [] else [tok] + Tokens(t, next)
  }

  /** A name token is the longest name behind the blanks. */
  lemma NameTokenIsLongest(t: string, cur: nat)
    requires cur <= |t| && Lex(t, cur).0.Id?
    ensures var i, (tok, e) := SkipBlanks(t, cur), Lex(t, cur);
            && i < e <= |t| && tok.text == t[i..e]
            && (forall k :: cur <= k < i ==> IsBlank(t[k]))
            && IsIdentStart(t[i]) && (forall k :: i < k < e ==> IsIdentPart(t[k])) && !IsIdentPart(At(t, e))
  {
    var i, e := SkipBlanks(t, cur), Lex(t, cur).1;
    NotASymbol(At(t, i));
    forall k | cur <= k < i
      ensures IsBlank(t[k])
    {
      BlanksSkipped(t, cur, k);
    }
    forall k | i < k < e
      ensures IsIdentPart(t[k])
    {
      NameParts(t, i + 1, k);
    }
  }

  lemma NotASymbol(c: char)
    ensures !OneChar(c).Id? && !Doubled(c).0.Id? && !Doubled(c).1.Id?
  {
  }

  // ----- where the scan stops -----

  /** A character of the text that starts no token: the scanner then hands out `Eof` although
      text is left. */
  predicate Stray(t: string, i: nat) {
    var c := At(t, i);
    !AtEnd(c) && !IsDigit(c) && !IsIdentStart(c) && c !in "\"'()[]{},:+-*/%<>" &&
    (c in "=!" ==> At(t, i + 1) != '=')
  }

  /** `Eof` does not mean that the text has ended: it is handed out at the end or a comment, and
      at a stray character. */
  lemma {:induction false} EofExactly(t: string, cur: nat)
    requires cur <= |t|
    ensures var i := SkipBlanks(t, cur);
            Lex(t, cur).0 == Eof <==> AtEnd(At(t, i)) || Stray(t, i)
  {
    var i := SkipBlanks(t, cur);
    var c := At(t, i);
    if !AtEnd(c) && !IsDigit(c) && !IsIdentStart(c) && c != '"' && c != '\'' {
      SymbolExactly(c);
    }
  }

  lemma SymbolExactly(c: char)
    ensures !IsDoubled(c) ==> (OneChar(c) != Eof <==> c in "()[]{},:+-*/%")
    ensures IsDoubled(c) ==> (Doubled(c).1 != Eof <==> c in "<>") && Doubled(c).0 != Eof
  {
  }

  /** The position at which a caller that stops at the first `Eof` has stopped: the end of the
      text, a comment, or the first stray character. */
  function Stop(t: string, cur: nat): (r: nat)
    requires cur <= |t|
    ensures cur <= r <= |t| && (AtEnd(At(t, r)) || Stray(t, r))
    decreases |t| - cur
  {
    EofExactly(t, cur);
    var (tok, next) := Lex(t, cur);
    if tok == Eof then SkipBlanks(t, cur) else Stop(t, next)
  }

  /** A stray character hides what follows it: this text has the tokens of "1". */
  lemma StrayHidesTheRest()
    ensures Tokens("1 $ )", 0) == [Num("1", false)] && Stray("1 $ )", 2)
  {
    var s := "1 $ )";
    assert NumberEnd(s, 0) == 1;
    assert s[0..1] == "1";
    assert Lex(s, 0) == (Num("1", false), 1);
    EofExactly(s, 1);
    assert SkipBlanks(s, 1) == 2;
    assert Tokens(s, 1) == [];
  }

  /** Blanks are spaces and tabs but no line ends; names go on with letters, digits, `_` and `.`. */
  lemma NamesScanned()
    ensures Lex("\t _Z.9-", 0) == (Id("_Z.9"), 6)
    ensures Lex("\na", 0) == (Eof, 1)
    ensures Lex("#a", 0) == (Eof, 0) && Lex("", 0) == (Eof, 0)
  {
    var s := "\t _Z.9-";
    assert SkipBlanks(s, 0) == SkipBlanks(s, 1) == 2;
    assert IdentEnd(s, 6) == 6 && IdentEnd(s, 5) == 6 && IdentEnd(s, 4) == 6 && IdentEnd(s, 3) == 6;
    assert s[2..6] == "_Z.9";
  }

  /** Numbers have a fraction and an exponent if digits follow its sign; with either they are floats. */
  lemma NumbersScanned()
    ensures Lex("1.5E-2x", 0) == (Num("1.5E-2", true), 6)
    ensures Lex("12e+", 0) == (Num("12", false), 2)
  {
    var s, t := "1.5E-2x", "12e+";
    assert DigitsEnd(s, 1) == 1 && DigitsEnd(s, 2) == 3 && DigitsEnd(s, 5) == 6 && NumberEnd(s, 0) == 6;
    assert s[0..6] == "1.5E-2" && "1.5E-2"[1] == '.';
    assert DigitsEnd(t, 2) == 2 && DigitsEnd(t, 1) == 2 && NumberEnd(t, 0) == 2;
    assert t[0..2] == "12";
  }

  /** A string ends at its own quote unless a backslash stands in front of it, or at the end of the
      text; its token keeps what stands between the quotes. */
  lemma StringsScanned()
    ensures Lex("'a\\'b' c", 0) == (Str("a\\'b"), 6)
    ensures Lex("\"x'", 0) == (Str("x'"), 3)
  {
    var s, t := "'a\\'b' c", "\"x'";
    assert StringEnd(s, 5, '\'') == 5 && StringEnd(s, 4, '\'') == 5 && StringEnd(s, 2, '\'') == 5;
    assert StringEnd(s, 1, '\'') == 5 && s[1..5] == "a\\'b";
    assert StringEnd(t, 3, '"') == 3 && StringEnd(t, 2, '"') == 3 && StringEnd(t, 1, '"') == 3;
    assert t[1..3] == "x'";
  }

  class Scanner {
    const text: string
    var cur: nat
    var token: Token

    ghost predicate Valid()
      reads this
    {
      cur <= |text|
    }

    /** The current token and everything after it, up to the first `Eof`. */
    ghost function Rest(): (r: seq<Token>)
      requires Valid()
      reads this
      ensures |r| <= 1 + |Tokens(text, cur)|
    {
      if token == Eof then [] else [token] + Tokens(text, cur)
    }

    constructor (text: string)
      ensures this.text == text && cur == 0 && token == Eof && Valid()
    {
      this.text := text;
      cur := 0;
      token := Eof;
    }

    method SkipSpaces()
      requires Valid()
      modifies this`cur
      ensures Valid() && cur == SkipBlanks(text, old(cur))
    {
      while IsBlank(At(text, cur))
        invariant cur <= |text| && SkipBlanks(text, cur) == SkipBlanks(text, old(cur))
        decreases |text| - cur
      {
        cur := cur + 1;
      }
    }

    method ScanName()
      requires Valid()
      modifies this`cur
      ensures Valid() && cur == IdentEnd(text, old(cur))
    {
      while IsIdentPart(At(text, cur))
        invariant cur <= |text| && IdentEnd(text, cur) == IdentEnd(text, old(cur))
        decreases |text| - cur
      {
        cur := cur + 1;
      }
    }

    method ScanString(quote: char)
      requires Valid()
      modifies this`cur
      ensures Valid() && cur == StringEnd(text, old(cur), quote)
    {
      while At(text, cur) != '\0' && At(text, cur) != quote
        invariant cur <= |text| && StringEnd(text, cur, quote) == StringEnd(text, old(cur), quote)
        decreases |text| - cur
      {
        if At(text, cur) == '\\' && At(text, cur + 1) != '\0' {
          cur := cur + 2;
        } else {
          cur := cur + 1;
        }
      }
    }

    method Next()
      requires Valid()
      modifies this
      ensures Valid()
      ensures (token, cur) == Lex(text, old(cur))
    {
      SkipSpaces();
      var start := cur;
      var c := At(text, start);
      token := Eof;
      if AtEnd(c) {
        return;
      }
      if IsDigit(c) {
        var end := NumberEnd(text, start);
        var lexeme := text[start..end];
        token := Num(lexeme, '.' in lexeme || 'e' in lexeme || 'E' in lexeme);
        cur := end;
        return;
      }
      if IsIdentStart(c) {
        cur := cur + 1;
        ScanName();
        token := Id(text[start..cur]);
        return;
      }
      if c == '"' || c == '\'' {
        cur := cur + 1;
        ScanString(c);
        token := Str(text[start + 1..cur]);
        if At(text, cur) == c {
          cur := cur + 1;
        }
        return;
      }
      ScanSymbol(c);
    }

    /** What is left: one character, or two of which the second is `=`. */
    method ScanSymbol(c: char)
      requires Valid() && cur < |text| && c == text[cur]
      modifies this`cur, this`token
      ensures Valid()
      ensures (token, cur) ==
              if !IsDoubled(c) then (OneChar(c), old(cur) + 1)
              else if At(text, old(cur) + 1) == '=' then (Doubled(c).0, old(cur) + 2)
              else (Doubled(c).1, old(cur) + 1)
    {
      cur := cur + 1;
      if IsDoubled(c) {
        if At(text, cur) == '=' {
          cur := cur + 1;
          token := Doubled(c).0;
        } else {
          token := Doubled(c).1;
        }
      } else {
        token := OneChar(c);
      }
    }
  }

  // ----- integer literals -----

  const INT64_MAX: int := 0x7FFF_FFFF_FFFF_FFFF
  const U64: int := 0x1_0000_0000_0000_0000

  /** A character minus '0' as an unsigned 64-bit number. */
  function DigitOf(c: char): (d: int)
    ensures 0 <= d < U64
  {
    (c as int - '0' as int) % U64
  }

  /** The exact value of the first `n` characters read as decimal digits. */
  function Horner(s: string, n: nat): int
    requires n <= |s|
  {
    if n == 0 then 0 else Horner(s, n - 1) * 10 + (s[n - 1] as int - '0' as int)
  }

  predicate IsDecimal(s: string) {
    forall k :: 0 <= k < |s| ==> IsDigit(s[k])
  }

  /** What the loop of parse_integer_literal does to its unsigned accumulator. */
  function Accumulate(value: int, c: char): (r: int)
    requires 0 <= value < U64
    ensures r == -1 || 0 <= r < U64
  {
    var digit := DigitOf(c);
    if value > ((INT64_MAX - digit) % U64) / 10 then -1 else (value * 10 + digit) % U64
  }

  function LiteralFrom(s: string, i: nat, value: int): int
    requires i <= |s| && 0 <= value < U64
    decreases |s| - i
  {
    if i == |s| then value
    else
      var next := Accumulate(value, s[i]);
      if next == -1 then -1 else LiteralFrom(s, i + 1, next)
  }

  /** The result of parse_integer_literal, or -1 for a refusal. */
  function IntegerLiteral(s: string): int {
    LiteralFrom(s, 0, 0)
  }

  method ParseIntegerLiteral(s: string) returns (ok: bool, result: int)
    ensures ok <==> IntegerLiteral(s) != -1
    ensures ok ==> result == IntegerLiteral(s)
    ensures IsDecimal(s) ==> (ok <==> Horner(s, |s|) <= INT64_MAX)
    ensures IsDecimal(s) && ok ==> result == Horner(s, |s|)
  {
    if IsDecimal(s) {
      DecimalLiteral(s);
      HornerGrows(s, 0, |s|);
    }
    var value, i := 0, 0;
    ok, result := false, 0;
    while i < |s|
      invariant 0 <= i <= |s| && 0 <= value < U64
      invariant IntegerLiteral(s) == LiteralFrom(s, i, value)
    {
      var digit := DigitOf(s[i]);
      if value > ((INT64_MAX - digit) % U64) / 10 {
        assert Accumulate(value, s[i]) == -1;
        return;
      }
      value := (value * 10 + digit) % U64;
      i := i + 1;
    }
    ok, result := true, value;
  }

  /** On decimal digits no step wraps around, so the guard refuses exactly the digit whose
      addition would pass INT64_MAX. */
  lemma {:induction false} DigitStep(value: int, c: char)
    requires 0 <= value <= INT64_MAX && IsDigit(c)
    ensures var exact := value * 10 + (c as int - '0' as int);
            Accumulate(value, c) == if exact <= INT64_MAX then exact else -1
  {
    var d := c as int - '0' as int;
    assert 0 <= d <= 9;
    assert DigitOf(c) == d;
    assert (INT64_MAX - d) % U64 == INT64_MAX - d;
  }

  lemma {:induction false} HornerGrows(s: string, i: nat, j: nat)
    requires i <= j <= |s| && IsDecimal(s)
    ensures 0 <= Horner(s, i) <= Horner(s, j)
    decreases j
  {
    if i < j {
      HornerGrows(s, i, j - 1);
    } else if j > 0 {
      HornerGrows(s, j - 1, j - 1);
    }
  }

  lemma {:induction false} DecimalLiteralFrom(s: string, i: nat)
    requires IsDecimal(s) && i <= |s| && 0 <= Horner(s, i) <= INT64_MAX
    ensures LiteralFrom(s, i, Horner(s, i)) == if Horner(s, |s|) <= INT64_MAX then Horner(s, |s|) else -1
    decreases |s| - i
  {
    if i < |s| {
      DigitStep(Horner(s, i), s[i]);
      HornerGrows(s, i + 1, |s|);
      if Horner(s, i + 1) <= INT64_MAX {
        DecimalLiteralFrom(s, i + 1);
      }
    }
  }

  /** A string of decimal digits is accepted exactly when its value fits, and is read exactly. */
  lemma {:induction false} DecimalLiteral(s: string)
    requires IsDecimal(s)
    ensures IntegerLiteral(s) == if Horner(s, |s|) <= INT64_MAX then Horner(s, |s|) else -1
  {
    DecimalLiteralFrom(s, 0);
  }

  /** An integer token is a string of decimal digits, and so read by its value, if and only if the
      number does not start like a hexadecimal one. */
  lemma {:induction false} IntegerTokenIsDecimal(t: string, i: nat)
    requires i < |t| && IsDigit(t[i])
    requires var text := t[i..NumberEnd(t, i)]; '.' !in text && 'e' !in text && 'E' !in text
    ensures IsDecimal(t[i..NumberEnd(t, i)]) <==> !HexPrefix(t, i)
  {
    var e := NumberEnd(t, i);
    var text := t[i..e];
    if HexPrefix(t, i) {
      HexNumberIsLonger(t, i);
      assert text[1] == t[i + 1];
    } else {
      var m := DigitsEnd(t, i + 1);
      DecimalTail(t, i);
      if m < e {
        CharacterInside(t, i, e, m);
      } else {
        forall k | 0 <= k < |text|
          ensures IsDigit(text[k])
        {
          if k > 0 {
            DigitsUpTo(t, i + 1, i + k);
          }
        }
      }
    }
  }

  /** What follows the whole digits of a decimal number, if anything does. */
  lemma DecimalTail(t: string, i: nat)
    requires i < |t| && IsDigit(t[i]) && !HexPrefix(t, i)
    ensures var m, e := DigitsEnd(t, i + 1), NumberEnd(t, i);
            m <= e && (m < e ==> t[m] in {'.', 'e', 'E'})
  {
  }

  lemma CharacterInside(t: string, i: nat, e: nat, m: nat)
    requires i <= m < e <= |t|
    ensures t[m] in t[i..e]
  {
    assert t[m] == t[i..e][m - i];
  }

  lemma HexNumberIsLonger(t: string, i: nat)
    requires i < |t| && IsDigit(t[i]) && HexPrefix(t, i)
    ensures NumberEnd(t, i) >= i + 2
  {
  }

  /** The digit test is the scanner's, not the literal reader's: a hexadecimal number is one
      token without a '.', 'e' or 'E', and its characters are then read as if decimal. */
  lemma HexLiteralIsMisread()
    ensures Lex("0x10", 0) == (Num("0x10", false), 4)
    ensures IntegerLiteral("0x10") == 7210
  {
    var s := "0x10";
    assert SkipBlanks(s, 0) == 0;
    assert HexEnd(s, 2) == 4;
    assert NumberEnd(s, 0) == 4;
    assert s[0..4] == s;
    assert Accumulate(0, '0') == 0;
    assert Accumulate(0, 'x') == 72;
    assert Accumulate(72, '1') == 721;
    assert Accumulate(721, '0') == 7210;
    assert LiteralFrom(s, 4, 7210) == 7210;
    assert LiteralFrom(s, 3, 721) == 7210;
    assert LiteralFrom(s, 2, 72) == 7210;
    assert LiteralFrom(s, 1, 0) == 7210;
  }
}
