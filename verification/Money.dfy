/** Exact money: decimal text to int64 cents and back.

    The parser works in signed 64-bit arithmetic, where overflow has no defined result; a run that
    would overflow is an outcome of its own here, so that a theorem can say when it happens. */
module Money {
  import opened Lexer
  import opened Options
  import opened Text

  const INT64_MIN: int := -0x8000_0000_0000_0000

  predicate IsInt64(n: int) { INT64_MIN <= n <= INT64_MAX }

  /** Machine integers: an operation on them that could leave the range would not verify. */
  newtype Int64 = n: int | -0x8000_0000_0000_0000 <= n <= 0x7FFF_FFFF_FFFF_FFFF
  newtype Uint64 = n: int | 0 <= n < 0x1_0000_0000_0000_0000

  datatype Outcome = Refused | Accepted(cents: int) | Overflow

  // ----- the decimal a text denotes -----

  /** A sign, the digits before the point and the digits after it. */
  datatype Decimal = Decimal(negative: bool, whole: string, frac: string)

  function SignEnd(s: string): (i: nat)
    ensures i <= |s|
  {
    var i := SkipBlanks(s, 0);
    if At(s, i) == '-' || At(s, i) == '+' then i + 1 else i
  }

  function WholeEnd(s: string): (i: nat)
    ensures SignEnd(s) <= i <= |s|
  {
    DigitsEnd(s, SignEnd(s))
  }

  /** The integer digits, whatever follows them. */
  function WholeDigits(s: string): string {
    s[SignEnd(s)..WholeEnd(s)]
  }

  function FracEnd(s: string): (i: nat)
    ensures WholeEnd(s) <= i <= |s|
  {
    if At(s, WholeEnd(s)) == '.' then DigitsEnd(s, WholeEnd(s) + 1) else WholeEnd(s)
  }

  function FracDigits(s: string): string {
    if At(s, WholeEnd(s)) == '.' then s[WholeEnd(s) + 1..FracEnd(s)] else ""
  }

  /** What the scan of parse_cents_string takes a text apart into. It asks for something after the
      sign, but not for a digit. */
  function Split(s: string): Option<Decimal> {
    if SignEnd(s) == |s| || SkipBlanks(s, FracEnd(s)) != |s| then None
    else Some(Decimal(At(s, SkipBlanks(s, 0)) == '-', WholeDigits(s), FracDigits(s)))
  }

  /** A plain decimal: blanks, an optional sign, digits with an optional point among or around them,
      blanks. At least one digit. */
  function Plain(s: string): Option<Decimal> {
    match Split(s)
    case None => None
    case Some(d) => if d.whole + d.frac == "" then None else Some(d)
  }

  /** Blanks, an optional sign, an optional point, blanks; not empty after the sign. */
  predicate Digitless(s: string) {
    var i := SignEnd(s);
    i < |s| && SkipBlanks(s, if s[i] == '.' then i + 1 else i) == |s|
  }

  /** These are all that is split without being a decimal. */
  lemma DigitlessIsSplit(s: string)
    ensures Digitless(s) <==> Split(s).Some? && Plain(s).None?
    ensures Digitless(s) ==> WholeDigits(s) == "" && FracDigits(s) == ""
  {
    var i := SignEnd(s);
    if i < |s| && !IsDigit(s[i]) {
      assert WholeEnd(s) == i;
    }
  }

  lemma DigitsAreDecimal(s: string)
    ensures IsDecimal(WholeDigits(s)) && IsDecimal(FracDigits(s))
  {
    DigitsScanned(s, SignEnd(s));
    if At(s, WholeEnd(s)) == '.' {
      DigitsScanned(s, WholeEnd(s) + 1);
    }
  }

  lemma DigitsScanned(s: string, i: nat)
    requires i <= |s|
    ensures IsDecimal(s[i..DigitsEnd(s, i)])
  {
    forall k | i <= k < DigitsEnd(s, i)
      ensures IsDigit(s[k])
    {
      DigitsUpTo(s, i, k);
    }
  }

  // ----- rounding -----

  function DigitAt(s: string, k: nat): int {
    if k < |s| then s[k] as int - '0' as int else 0
  }

  /** Two digits of the fraction, plus one if the third is at least five. */
  function FracCents(frac: string): int {
    DigitAt(frac, 0) * 10 + DigitAt(frac, 1) + if DigitAt(frac, 2) >= 5 then 1 else 0
  }

  function Magnitude(d: Decimal): int {
    Horner(d.whole, |d.whole|) * 100 + FracCents(d.frac)
  }

  function Signed(d: Decimal): int {
    if d.negative then -Magnitude(d) else Magnitude(d)
  }

  function Pow10(k: nat): (r: int)
    ensures r >= 1
  {
    if k == 0 then 1 else 10 * Pow10(k - 1)
  }

  /** `c` is the integer nearest to `n / d`, the greater one when two are equally near. For a
      magnitude this is rounding half away from zero. */
  ghost predicate IsNearest(c: int, n: int, d: int) {
    -d < 2 * c * d - 2 * n <= d
  }

  lemma {:induction false} HornerAppend(a: string, b: string, n: nat)
    requires n <= |b|
    ensures Horner(a + b, |a| + n) == Horner(a, |a|) * Pow10(n) + Horner(b, n)
    decreases n
  {
    if n == 0 {
      HornerPrefix(a, b, |a|);
    } else {
      HornerAppend(a, b, n - 1);
      assert (a + b)[|a| + n - 1] == b[n - 1];
      var h, p := Horner(a, |a|), Pow10(n - 1);
      assert h * (10 * p) == h * p * 10;
    }
  }

  lemma {:induction false} HornerPrefix(a: string, b: string, n: nat)
    requires n <= |a|
    ensures Horner(a + b, n) == Horner(a, n)
    decreases n
  {
    if n > 0 {
      HornerPrefix(a, b, n - 1);
    }
  }

  lemma {:induction false} HornerBound(s: string, j: nat, n: nat)
    requires j <= n <= |s| && IsDecimal(s)
    ensures Horner(s, j) * Pow10(n - j) <= Horner(s, n) < (Horner(s, j) + 1) * Pow10(n - j)
    decreases n
  {
    if j < n {
      HornerBound(s, j, n - 1);
      var h, p := Horner(s, j), Pow10(n - 1 - j);
      TimesTen(h, p);
      TimesTen(h + 1, p);
    }
  }

  lemma TimesTen(a: int, p: int)
    ensures a * (10 * p) == 10 * (a * p)
  {
  }

  lemma {:induction false} FirstDigits(s: string, n: nat)
    requires n <= |s| && n <= 3
    ensures n == 1 ==> Horner(s, 1) == DigitAt(s, 0)
    ensures n == 2 ==> Horner(s, 2) == DigitAt(s, 0) * 10 + DigitAt(s, 1)
    ensures n == 3 ==> Horner(s, 3) == DigitAt(s, 0) * 100 + DigitAt(s, 1) * 10 + DigitAt(s, 2)
  {
    if n >= 1 {
      assert Horner(s, 1) == Horner(s, 0) * 10 + DigitAt(s, 0);
    }
    if n >= 2 {
      assert Horner(s, 2) == Horner(s, 1) * 10 + DigitAt(s, 1);
    }
  }

  /** Looking at three digits is enough: the cents of a fraction are its hundredfold, rounded. */
  lemma {:induction false} FracCentsIsNearest(frac: string)
    requires IsDecimal(frac)
    ensures IsNearest(FracCents(frac), 100 * Horner(frac, |frac|), Pow10(|frac|))
    ensures 0 <= FracCents(frac) <= 100
  {
    var n := |frac|;
    assert forall k :: 0 <= DigitAt(frac, k) <= 9;
    FirstDigits(frac, if n < 3 then n else 3);
    PowersOfTen(n);
    if n >= 3 {
      HornerBound(frac, 3, n);
      var a := DigitAt(frac, 0) * 10 + DigitAt(frac, 1);
      assert Horner(frac, 3) == 10 * a + DigitAt(frac, 2);
      ThreeDigits(a, DigitAt(frac, 2), Pow10(n - 3), Horner(frac, n));
    }
  }

  lemma PowersOfTen(n: nat)
    ensures n == 0 ==> Pow10(n) == 1
    ensures n == 1 ==> Pow10(n) == 10
    ensures n == 2 ==> Pow10(n) == 100
    ensures n >= 3 ==> Pow10(n) == 1000 * Pow10(n - 3)
  {
    if n >= 1 {
      assert Pow10(n) == 10 * Pow10(n - 1);
    }
    if n >= 2 {
      assert Pow10(n - 1) == 10 * Pow10(n - 2);
    }
    if n >= 3 {
      assert Pow10(n - 2) == 10 * Pow10(n - 3);
    }
  }

  lemma ThreeDigits(a: int, d: int, q: int, f: int)
    requires 0 <= a && 0 <= d <= 9 && 1 <= q && (10 * a + d) * q <= f < (10 * a + d + 1) * q
    ensures IsNearest(a + (if d >= 5 then 1 else 0), 100 * f, 1000 * q)
  {
    SplitTens(a, d, q);
    SplitTens(a, d + 1, q);
    ThousandQ(a, q);
    ThousandQ(a + 1, q);
    DigitTimes(d, q);
    assert (d + 1) * q == d * q + q;
    assert (a + 1) * q == a * q + q;
  }

  lemma SplitTens(a: int, d: int, q: int)
    ensures (10 * a + d) * q == 10 * (a * q) + d * q
  {
  }

  lemma ThousandQ(a: int, q: int)
    ensures 2 * a * (1000 * q) == 2000 * (a * q)
  {
  }

  lemma DigitTimes(d: int, q: int)
    requires 0 <= d <= 9 && 1 <= q
    ensures if d >= 5 then 5 * q <= d * q <= 9 * q else 0 <= d * q <= 4 * q
  {
    assert d * q == 0 * q || d * q == q || d * q == 2 * q || d * q == 3 * q || d * q == 4 * q || d * q == 5 * q ||
           d * q == 6 * q || d * q == 7 * q || d * q == 8 * q || d * q == 9 * q;
  }

  lemma NearestShift(c: int, n: int, d: int, u: int)
    requires IsNearest(c, n, d)
    ensures IsNearest(c + u, n + u * d, d)
  {
    assert 2 * (c + u) * d == 2 * c * d + 2 * (u * d);
  }

  /** The magnitude in cents is 100 times the decimal's absolute value, rounded half away from zero. */
  lemma {:induction false} MagnitudeIsRounded(d: Decimal)
    requires IsDecimal(d.whole) && IsDecimal(d.frac)
    ensures var digits := d.whole + d.frac;
            IsNearest(Magnitude(d), 100 * Horner(digits, |digits|), Pow10(|d.frac|))
    ensures Magnitude(d) >= 0
  {
    var w, f, p := Horner(d.whole, |d.whole|), Horner(d.frac, |d.frac|), Pow10(|d.frac|);
    FracCentsIsNearest(d.frac);
    HornerAppend(d.whole, d.frac, |d.frac|);
    HornerGrows(d.whole, 0, |d.whole|);
    NearestShift(FracCents(d.frac), 100 * f, p, w * 100);
    Hundredfold(w, p, f);
  }

  lemma Hundredfold(w: int, p: int, f: int)
    ensures 100 * f + w * 100 * p == 100 * (w * p + f)
  {
    assert w * 100 * p == 100 * (w * p);
  }

  // ----- the parser -----

  /** The loop over the integer digits: refusal, overflow, or the value. */
  function Units(whole: string, i: nat, units: int): Outcome
    requires i <= |whole|
    decreases |whole| - i
  {
    if i == |whole| then Accepted(units)
    else if units > INT64_MAX / 10 then Refused
    else
      var next := units * 10 + (whole[i] as int - '0' as int);
      if next > INT64_MAX then Overflow else Units(whole, i + 1, next)
  }

  /** What parse_cents_string does after the text has been split. */
  function Finish(negative: bool, units: int, frac: string): Outcome {
    var c := FracCents(frac);
    if c >= 100 && units == INT64_MAX then Overflow
    else
      var u, rest := if c >= 100 then units + 1 else units, if c >= 100 then c - 100 else c;
      if u > (INT64_MAX - rest) / 100 then Refused
      else Accepted((u * 100 + rest) * if negative then -1 else 1)
  }

  function Parse(s: string): Outcome {
    if SignEnd(s) == |s| then Refused
    else
      match Units(WholeDigits(s), 0, 0)
      case Refused => Refused
      case Overflow => Overflow
      case Accepted(units) =>
        match Split(s)
        case None => Refused
        case Some(d) => Finish(d.negative, units, d.frac)
  }

  method SkipSpaces(s: string, from: nat) returns (i: nat)
    requires from <= |s|
    ensures i == SkipBlanks(s, from)
  {
    i := from;
    while i < |s| && (s[i] == ' ' || s[i] == '\t')
      invariant i <= |s| && SkipBlanks(s, i) == SkipBlanks(s, from)
    {
      i := i + 1;
    }
  }

  method ParseWhole(s: string, from: nat) returns (r: Outcome, i: nat)
    requires from <= |s|
    ensures r == Units(s[from..DigitsEnd(s, from)], 0, 0)
    ensures r.Accepted? ==> i == DigitsEnd(s, from)
  {
    ghost var whole := s[from..DigitsEnd(s, from)];
    var units := 0;
    i := from;
    while i < |s| && '0' <= s[i] <= '9'
      invariant from <= i <= DigitsEnd(s, from) == DigitsEnd(s, i)
      invariant Units(whole, i - from, units) == Units(whole, 0, 0)
      decreases |s| - i
    {
      if units > INT64_MAX / 10 {
        return Refused, i;
      }
      var next := units * 10 + (s[i] as int - '0' as int);
      assert s[i] == whole[i - from];
      if next > INT64_MAX {
        return Overflow, i;
      }
      units, i := next, i + 1;
    }
    r := Accepted(units);
  }

  method ParseCents(s: string) returns (r: Outcome)
    ensures r == Parse(s)
  {
    var negative := false;
    var i := SkipSpaces(s, 0);
    if i < |s| && (s[i] == '-' || s[i] == '+') {
      negative := s[i] == '-';
      i := i + 1;
    }
    assert i == SignEnd(s);
    if i >= |s| {
      return Refused;
    }
    r, i := ParseWhole(s, i);
    assert r == Units(WholeDigits(s), 0, 0);
    if !r.Accepted? {
      return;
    }
    var units, cents := r.cents, 0;
    cents, i := ParsePoint(s, i);
    assert i == FracEnd(s) && cents == FracCents(FracDigits(s));
    i := SkipSpaces(s, i);
    if i != |s| {
      assert Split(s) == None;
      return Refused;
    }
    r := Amount(negative, units, cents, FracDigits(s));
  }

  /** The carry out of the cents and the last range check. */
  method Amount(negative: bool, whole: int, hundredths: int, ghost frac: string) returns (r: Outcome)
    requires hundredths == FracCents(frac)
    ensures r == Finish(negative, whole, frac)
  {
    var units, cents := whole, hundredths;
    if cents >= 100 {
      if units == INT64_MAX {
        return Overflow;
      }
      units, cents := units + 1, cents - 100;
    }
    if units > (INT64_MAX - cents) / 100 {
      return Refused;
    }
    r := Accepted((units * 100 + cents) * if negative then -1 else 1);
  }

  /** An optional point with digits, scaled to cents. */
  method ParsePoint(s: string, from: nat) returns (cents: int, i: nat)
    requires from <= |s|
    ensures i == if At(s, from) == '.' then DigitsEnd(s, from + 1) else from
    ensures cents == FracCents(if At(s, from) == '.' then s[from + 1..i] else "")
  {
    var fracDigits := 0;
    cents, i := 0, from;
    if i < |s| && s[i] == '.' {
      i := i + 1;
      cents, fracDigits, i := ParseFraction(s, i);
    }
    ghost var frac := if At(s, from) == '.' then s[from + 1..i] else "";
    while fracDigits < 2
      invariant if fracDigits <= 2 then Scaled(cents, fracDigits, frac) else cents == FracCents(frac)
    {
      cents, fracDigits := cents * 10, fracDigits + 1;
    }
  }

  /** `cents` after `k` of at most two digits: what is left is to multiply by ten. */
  ghost predicate Scaled(cents: int, k: int, frac: string) {
    && 0 <= k <= 2
    && (k == 0 ==> cents == 0 && FracCents(frac) == 0)
    && (k == 1 ==> cents * 10 == FracCents(frac))
    && (k == 2 ==> cents == FracCents(frac))
  }

  /** The digits after the point. */
  method ParseFraction(s: string, from: nat) returns (cents: int, fracDigits: nat, i: nat)
    requires from <= |s|
    ensures i == DigitsEnd(s, from)
    ensures fracDigits == i - from
    ensures var frac := s[from..i];
            if fracDigits <= 2 then Scaled(cents, fracDigits, frac) else cents == FracCents(frac)
  {
    cents, fracDigits, i := 0, 0, from;
    ghost var frac := s[from..DigitsEnd(s, from)];
    while i < |s| && '0' <= s[i] <= '9'
      invariant from <= i <= DigitsEnd(s, from) == DigitsEnd(s, i) && fracDigits == i - from
      invariant fracDigits == 0 ==> cents == 0
      invariant fracDigits == 1 ==> cents == DigitAt(frac, 0)
      invariant fracDigits == 2 ==> cents == DigitAt(frac, 0) * 10 + DigitAt(frac, 1)
      invariant fracDigits > 2 ==> cents == FracCents(frac)
      decreases |s| - i
    {
      var digit := s[i] as int - '0' as int;
      assert frac[i - from] == s[i];
      if fracDigits < 2 {
        cents := cents * 10 + digit;
      } else if fracDigits == 2 && digit >= 5 {
        cents := cents + 1;
      }
      fracDigits, i := fracDigits + 1, i + 1;
    }
  }

  // ----- when it is exact -----

  /** Some leading digits have the one or two values just above INT64_MAX. */
  ghost predicate HitsLimit(whole: string) {
    exists j :: 0 <= j <= |whole| && Horner(whole, j) in {INT64_MAX + 1, INT64_MAX + 2}
  }

  lemma {:induction false} UnitsExact(whole: string, i: nat)
    requires IsDecimal(whole) && i <= |whole| && 0 <= Horner(whole, i) <= INT64_MAX
    requires forall j :: 0 <= j <= i ==> Horner(whole, j) <= INT64_MAX
    ensures var r := Units(whole, i, Horner(whole, i));
            && (r == Overflow <==> HitsLimit(whole))
            && (r.Accepted? <==> Horner(whole, |whole|) <= INT64_MAX)
            && (r.Accepted? ==> r.cents == Horner(whole, |whole|))
    decreases |whole| - i
  {
    HornerGrows(whole, i, |whole|);
    if i == |whole| {
    } else {
      var units, next := Horner(whole, i), Horner(whole, i + 1);
      HornerGrows(whole, i + 1, |whole|);
      if units > INT64_MAX / 10 {
        forall j | i < j <= |whole|
          ensures Horner(whole, j) > INT64_MAX + 2
        {
          HornerGrows(whole, i + 1, j);
        }
      } else if next <= INT64_MAX {
        UnitsExact(whole, i + 1);
      } else {
        assert next in {INT64_MAX + 1, INT64_MAX + 2};
      }
    }
  }

  /** The texts on which the C arithmetic overflows: checkable from the digits alone. */
  ghost predicate Overflows(s: string) {
    SignEnd(s) < |s| &&
    (HitsLimit(WholeDigits(s)) ||
     (Plain(s).Some? && Horner(WholeDigits(s), |WholeDigits(s)|) == INT64_MAX && FracCents(FracDigits(s)) == 100))
  }

  lemma {:induction false} UnitsOf(s: string)
    ensures var w := WholeDigits(s);
            var r := Units(w, 0, 0);
            && (r == Overflow <==> HitsLimit(w))
            && (r.Accepted? <==> Horner(w, |w|) <= INT64_MAX)
            && (r.Accepted? ==> r.cents == Horner(w, |w|) >= 0)
  {
    var w := WholeDigits(s);
    DigitsAreDecimal(s);
    HornerGrows(w, 0, |w|);
    UnitsExact(w, 0);
  }

  lemma HitsLimitIsLarge(whole: string)
    requires IsDecimal(whole) && HitsLimit(whole)
    ensures Horner(whole, |whole|) > INT64_MAX
  {
    var j :| 0 <= j <= |whole| && Horner(whole, j) in {INT64_MAX + 1, INT64_MAX + 2};
    HornerGrows(whole, j, |whole|);
  }

  lemma FinishExact(negative: bool, units: int, frac: string)
    requires 0 <= units <= INT64_MAX && IsDecimal(frac)
    ensures var m, r := units * 100 + FracCents(frac), Finish(negative, units, frac);
            && (r == Overflow <==> units == INT64_MAX && FracCents(frac) == 100)
            && (r.Accepted? <==> m <= INT64_MAX)
            && (r.Accepted? ==> r.cents == if negative then -m else m)
  {
    FracCentsIsNearest(frac);
  }

  /** Overflow happens on exactly those texts. */
  lemma {:induction false} OverflowExactly(s: string)
    ensures Parse(s) == Overflow <==> Overflows(s)
  {
    DigitsAreDecimal(s);
    UnitsOf(s);
    var w := WholeDigits(s);
    if Split(s).Some? && Units(w, 0, 0).Accepted? {
      FinishExact(Split(s).value.negative, Horner(w, |w|), FracDigits(s));
    }
    if HitsLimit(w) {
      HitsLimitIsLarge(w);
    }
  }

  /** Everywhere else a text that splits is accepted exactly when its rounded cents fit. */
  lemma {:induction false} SplitIsParsed(s: string)
    requires !Overflows(s)
    ensures Parse(s).Accepted? <==> Split(s).Some? && Magnitude(Split(s).value) <= INT64_MAX
    ensures Parse(s).Accepted? ==> Parse(s).cents == Signed(Split(s).value)
  {
    DigitsAreDecimal(s);
    UnitsOf(s);
    OverflowExactly(s);
    var w := WholeDigits(s);
    FracCentsIsNearest(FracDigits(s));
    if Split(s).Some? && Units(w, 0, 0).Accepted? {
      FinishExact(Split(s).value.negative, Horner(w, |w|), FracDigits(s));
    }
  }

  /** Where nothing overflows the parser is exact on decimals, and accepts one kind of text besides:
      a plain decimal is accepted if and only if its rounded cents have magnitude at most INT64_MAX,
      and gives those cents; any other text is accepted if and only if it has no digits where a
      decimal has them, and gives zero. */
  lemma {:induction false} ParseExact(s: string)
    requires !Overflows(s)
    ensures Plain(s).Some? ==>
              if Magnitude(Plain(s).value) <= INT64_MAX then Parse(s) == Accepted(Signed(Plain(s).value))
              else Parse(s) == Refused
    ensures Plain(s).None? ==> Parse(s) == if Digitless(s) then Accepted(0) else Refused
  {
    SplitIsParsed(s);
    OverflowExactly(s);
    DigitlessIsSplit(s);
  }

  /** The shortest such texts: a point alone, and a sign with a blank. */
  lemma PointIsZero()
    ensures Plain(".").None? && Parse(".") == Accepted(0)
    ensures Plain("- ").None? && Parse("- ") == Accepted(0)
  {
    DigitlessIsZero(".");
    assert SkipBlanks("- ", 1) == 2;
    DigitlessIsZero("- ");
  }

  lemma DigitlessIsZero(s: string)
    requires Digitless(s)
    ensures Plain(s).None? && Parse(s) == Accepted(0)
  {
    DigitlessIsSplit(s);
    assert Horner("", 0) == 0;
    ParseExact(s);
  }

  /** An overflowing plain decimal is one that should have been refused. */
  lemma {:induction false} OverflowIsTooLarge(s: string)
    requires Overflows(s) && Plain(s).Some?
    ensures Magnitude(Plain(s).value) > INT64_MAX
  {
    DigitsAreDecimal(s);
    FracCentsIsNearest(FracDigits(s));
    if HitsLimit(WholeDigits(s)) {
      HitsLimitIsLarge(WholeDigits(s));
    }
  }

  // ----- the printer -----

  function TwoDigits(n: int): string
    requires 0 <= n < 100
  {
    [Digit(n / 10), Digit(n % 10)]
  }

  function Format(cents: int): string {
    var m := if cents < 0 then -cents else cents;
    (if cents < 0 then "-" else "") + Digits(m / 100) + "." + TwoDigits(m % 100)
  }

  /** mellowrt_money_format_cents in its own integer types: every int64 is printed, and no step
      leaves the type it is computed in, INT64_MIN included. */
  method FormatCents(cents: Int64) returns (s: string)
    ensures s == Format(cents as int)
  {
    var negative := cents < 0;
    var m: Uint64 := if negative then (-(cents + 1)) as Uint64 + 1 else cents as Uint64;
    s := (if negative then "-" else "") + Digits((m / 100) as int) + "." + TwoDigits((m % 100) as int);
  }

  lemma {:induction false} DigitsValue(n: nat)
    ensures IsDecimal(Digits(n)) && Horner(Digits(n), |Digits(n)|) == n && Digits(n) != []
  {
    if n >= 10 {
      var init, last := Digits(n / 10), Digit(n % 10);
      DigitsValue(n / 10);
      HornerPrefix(init, [last], |init|);
      assert Digits(n) == init + [last];
    } else {
      assert Horner(Digits(n), 1) == Horner(Digits(n), 0) * 10 + (Digits(n)[0] as int - '0' as int);
    }
  }

  /** A sign, digits, a point and digits split into just these. */
  lemma {:induction false} PartsSplit(sign: string, whole: string, frac: string)
    requires sign in {"", "-"} && whole != [] && IsDecimal(whole) && IsDecimal(frac)
    ensures Plain(sign + whole + "." + frac) == Some(Decimal(sign == "-", whole, frac))
  {
    var s := sign + whole + "." + frac;
    PartsStand(s, sign, whole, frac);
    ScanParts(s, |sign|, |sign| + |whole|);
    assert WholeDigits(s) == whole && FracDigits(s) == frac;
  }

  lemma PartsStand(s: string, sign: string, whole: string, frac: string)
    requires s == sign + whole + "." + frac
    ensures var b, p := |sign|, |sign| + |whole|;
            && s[..b] == sign && s[b..p] == whole && s[p] == '.' && s[p + 1..] == frac
            && (forall k :: 0 <= k < b ==> s[k] == sign[k])
            && (forall k :: b <= k < p ==> s[k] == whole[k - b])
            && (forall k :: p < k < |s| ==> s[k] == frac[k - p - 1])
  {
  }

  /** Digits from `b` to the point at `p` and from there to the end, after an optional minus. */
  lemma ScanParts(s: string, b: nat, p: nat)
    requires b <= 1 && b < p < |s| && s[p] == '.' && (b == 1 ==> s[0] == '-')
    requires forall k :: b <= k < |s| && k != p ==> IsDigit(s[k])
    ensures SkipBlanks(s, 0) == 0 && SignEnd(s) == b && WholeEnd(s) == p && FracEnd(s) == |s|
  {
    DigitsRun(s, b, p);
    DigitsRun(s, p + 1, |s|);
  }

  /** The printed form of an amount splits back into its digits. */
  lemma {:induction false} FormatSplits(cents: int)
    ensures var m := if cents < 0 then -cents else cents;
            Plain(Format(cents)) == Some(Decimal(cents < 0, Digits(m / 100), TwoDigits(m % 100)))
  {
    var m := if cents < 0 then -cents else cents;
    DigitsValue(m / 100);
    PartsSplit(if cents < 0 then "-" else "", Digits(m / 100), TwoDigits(m % 100));
  }

  lemma {:induction false} DigitsRun(s: string, i: nat, j: nat)
    requires i <= j <= |s| && !IsDigit(At(s, j))
    requires forall k :: i <= k < j ==> IsDigit(s[k])
    ensures DigitsEnd(s, i) == j
    decreases j - i
  {
    if i < j {
      DigitsRun(s, i + 1, j);
    }
  }

  /** The shortest text that overflows is 2^63 itself, one more than the largest int64. */
  lemma {:induction false} OverflowExample()
    ensures var s := Digits(INT64_MAX + 1); Overflows(s) && Parse(s) == Overflow
  {
    var s := Digits(INT64_MAX + 1);
    DigitsValue(INT64_MAX + 1);
    assert IsDigit(s[0]) && SkipBlanks(s, 0) == 0 && SignEnd(s) == 0;
    DigitsRun(s, 0, |s|);
    assert WholeDigits(s) == s;
    assert Horner(s, |s|) == INT64_MAX + 1;
    OverflowExactly(s);
  }

  /** The parser inverts the printer on every int64 but the smallest, which it refuses. */
  lemma {:induction false} FormatThenParse(cents: int)
    requires IsInt64(cents)
    ensures Parse(Format(cents)) == if cents == INT64_MIN then Refused else Accepted(cents)
  {
    var m := if cents < 0 then -cents else cents;
    var s := Format(cents);
    FormatSplits(cents);
    DigitsValue(m / 100);
    var d := Plain(s).value;
    assert Magnitude(d) == m;
    assert d.whole == WholeDigits(s) && d.frac == FracDigits(s);
    if HitsLimit(d.whole) {
      HitsLimitIsLarge(d.whole);
    }
    assert !Overflows(s);
    OverflowExactly(s);
    ParseExact(s);
  }

  // ----- values -----

  datatype Value = NoneValue | Text(s: string) | Int(n: int) | Map(entries: seq<(Value, Value)>) | Other

  /** The value of the first entry with this text as key, as an index. */
  function KeyIndex(entries: seq<(Value, Value)>, key: string, i: nat): (r: nat)
    requires i <= |entries|
    ensures i <= r <= |entries|
    decreases |entries| - i
  {
    if i == |entries| || entries[i].0 == Text(key) then i else KeyIndex(entries, key, i + 1)
  }

  predicate IsMoney(v: Value) {
    v.Map? &&
    var i := KeyIndex(v.entries, "type", 0);
    i < |v.entries| && v.entries[i].1 == Text("money")
  }

  /** mellowrt_money_cents on text, integers and money maps. */
  function ValueCents(v: Value): Outcome {
    if IsMoney(v) then
      var i := KeyIndex(v.entries, "amount", 0);
      if i == |v.entries| then Refused else ValueCents(v.entries[i].1)
    else
      match v
      case Text(s) => Parse(s)
      case Int(n) =>
        // C division truncates: INT64_MIN / 100 is -(2^63 / 100).
        if n > INT64_MAX / 100 || n < -(-INT64_MIN / 100) then Refused else Accepted(n * 100)
      case _ => Refused
  }

  function Make(cents: int, currency: string): Value {
    Map([(Text("type"), Text("money")), (Text("currency"), Text(currency)), (Text("amount"), Text(Format(cents)))])
  }

  /** An integer amount is accepted exactly when a hundred times it is an int64. */
  lemma IntegerAmount(n: int)
    ensures ValueCents(Int(n)) == if IsInt64(n * 100) then Accepted(n * 100) else Refused
  {
  }

  /** A money value reads back as the cents it was made from. */
  lemma {:induction false} MakeThenCents(cents: int, currency: string)
    requires IsInt64(cents)
    ensures ValueCents(Make(cents, currency)) == if cents == INT64_MIN then Refused else Accepted(cents)
  {
    var v := Make(cents, currency);
    assert KeyIndex(v.entries, "type", 0) == 0;
    assert "currency"[0] != "amount"[0] && "type"[0] != "amount"[0];
    assert KeyIndex(v.entries, "amount", 2) == 2;
    assert KeyIndex(v.entries, "amount", 1) == 2;
    assert KeyIndex(v.entries, "amount", 0) == 2;
    FormatThenParse(cents);
  }

  // ----- what a plain decimal looks like -----

  /** Blanks up to `a`, a sign or none up to `b`, digits up to `p`, perhaps a point with digits up to
      `q`, blanks; at least one digit. */
  ghost predicate LooksPlain(s: string, a: nat, b: nat, p: nat, q: nat) {
    && a <= b <= a + 1 && b <= p <= q <= |s| && (b < p || p + 1 < q)
    && (forall k :: 0 <= k < a ==> s[k] == ' ' || s[k] == '\t')
    && (b == a + 1 ==> s[a] == '+' || s[a] == '-')
    && (forall k :: b <= k < p ==> '0' <= s[k] <= '9')
    && (p < q ==> s[p] == '.')
    && (forall k :: p < k < q ==> '0' <= s[k] <= '9')
    && (forall k :: q <= k < |s| ==> s[k] == ' ' || s[k] == '\t')
  }

  function PartsAt(s: string, a: nat, b: nat, p: nat, q: nat): Decimal
    requires a <= b <= p <= q <= |s|
  {
    Decimal(b > a && s[a] == '-', s[b..p], if p < q then s[p + 1..q] else "")
  }

  /** A text that looks like that is a plain decimal with these parts. */
  lemma LooksThenIs(s: string, a: nat, b: nat, p: nat, q: nat)
    requires LooksPlain(s, a, b, p, q)
    ensures Plain(s) == Some(PartsAt(s, a, b, p, q))
  {
    SignScanned(s, a, b, p, q);
    DigitsRun(s, b, p);
    FractionScanned(s, p, q);
    BlanksRun(s, q, |s|);
  }

  lemma SignScanned(s: string, a: nat, b: nat, p: nat, q: nat)
    requires LooksPlain(s, a, b, p, q)
    ensures SkipBlanks(s, 0) == a && SignEnd(s) == b < |s|
    ensures !IsDigit(At(s, p)) && !IsDigit(At(s, q)) && (At(s, p) == '.' <==> p < q)
    ensures b == a ==> At(s, a) != '-'
  {
    BlanksRun(s, 0, a);
  }

  lemma FractionScanned(s: string, p: nat, q: nat)
    requires p <= q <= |s| && WholeEnd(s) == p && (At(s, p) == '.' <==> p < q) && !IsDigit(At(s, q))
    requires forall k :: p < k < q ==> IsDigit(s[k])
    ensures FracEnd(s) == q && FracDigits(s) == if p < q then s[p + 1..q] else ""
  {
    if p < q {
      DigitsRun(s, p + 1, q);
    }
  }

  /** Every plain decimal looks like that. */
  lemma IsThenLooks(s: string) returns (a: nat, b: nat, p: nat, q: nat)
    requires Plain(s).Some?
    ensures LooksPlain(s, a, b, p, q) && Plain(s) == Some(PartsAt(s, a, b, p, q))
  {
    a, b, p, q := SkipBlanks(s, 0), SignEnd(s), WholeEnd(s), FracEnd(s);
    BlanksBetween(s, 0);
    BlanksBetween(s, q);
    DigitsBetween(s, b);
    if p < q {
      DigitsBetween(s, p + 1);
    }
  }

  lemma {:induction false} BlanksRun(s: string, i: nat, j: nat)
    requires i <= j <= |s| && !IsBlank(At(s, j))
    requires forall k :: i <= k < j ==> s[k] == ' ' || s[k] == '\t'
    ensures SkipBlanks(s, i) == j
    decreases j - i
  {
    if i < j {
      BlanksRun(s, i + 1, j);
    }
  }

  lemma DigitsBetween(s: string, i: nat)
    requires i <= |s|
    ensures forall k :: i <= k < DigitsEnd(s, i) ==> '0' <= s[k] <= '9'
  {
    forall k | i <= k < DigitsEnd(s, i)
      ensures '0' <= s[k] <= '9'
    {
      DigitsUpTo(s, i, k);
    }
  }

  lemma BlanksBetween(s: string, i: nat)
    requires i <= |s|
    ensures forall k :: i <= k < SkipBlanks(s, i) ==> s[k] == ' ' || s[k] == '\t'
  {
    forall k | i <= k < SkipBlanks(s, i)
      ensures s[k] == ' ' || s[k] == '\t'
    {
      BlanksSkipped(s, i, k);
    }
  }

  /** A plus sign changes nothing, halves are rounded away from zero, and a comma is no point. */
  lemma ParseExamples()
    ensures Parse("+1.5") == Accepted(150)
    ensures Parse("-0.005") == Accepted(-1)
    ensures Parse("1,5") == Refused
  {
    PlusExample();
    HalfExample();
    CommaExample();
  }

  lemma PlusExample()
    ensures Parse("+1.5") == Accepted(150)
  {
    LooksThenIs("+1.5", 0, 1, 2, 4);
    OneDigitFits("+1.5");
  }

  lemma HalfExample()
    ensures Parse("-0.005") == Accepted(-1)
  {
    LooksThenIs("-0.005", 0, 1, 2, 6);
    OneDigitFits("-0.005");
  }

  lemma OneDigitFits(s: string)
    requires Plain(s).Some? && |Plain(s).value.whole| == 1
    ensures var d := Plain(s).value;
            var m := (d.whole[0] as int - '0' as int) * 100 + FracCents(d.frac);
            Parse(s) == Accepted(if d.negative then -m else m)
  {
    DigitsAreDecimal(s);
    var w := WholeDigits(s);
    assert Horner(w, 0) == 0 && Horner(w, 1) == w[0] as int - '0' as int;
    FracCentsIsNearest(FracDigits(s));
    ParseExact(s);
  }

  lemma CommaExample()
    ensures Parse("1,5") == Refused
  {
    var s := "1,5";
    assert SkipBlanks(s, 0) == 0 && SignEnd(s) == 0 && DigitsEnd(s, 1) == 1 && WholeEnd(s) == 1;
    assert FracEnd(s) == 1 && SkipBlanks(s, 1) == 1;
    assert WholeDigits(s) == "1" && Horner("1", 0) == 0 && Horner("1", 1) == 1;
    ParseExact(s);
  }
}
