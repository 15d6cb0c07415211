/** Python's text helpers, over ASCII. */
module Text {
  import opened Options

  /** What `str.strip` removes: the ASCII white space and the separators 0x1c to 0x1f. */
  predicate IsSpace(c: char) { IsByteSpace(c) || '\U{1c}' <= c <= '\U{1f}' }

  /** What `int` skips around the digits of a byte string. */
  predicate IsByteSpace(c: char) { c == ' ' || '\t' <= c <= '\r' }

  function LStrip(space: char -> bool, s: string): string {
    if s != [] && space(s[0]) then LStrip(space, s[1..]) else s
  }

  function RStrip(space: char -> bool, s: string): string {
    if s != [] && space(s[|s| - 1]) then RStrip(space, s[..|s| - 1]) else s
  }

  function StripAll(space: char -> bool, s: string): string {
    RStrip(space, LStrip(space, s))
  }

  function Strip(s: string): string {
    StripAll(IsSpace, s)
  }

  lemma {:induction false} StripEnds(s: string)
    ensures var r := Strip(s); r != [] ==> !IsSpace(r[0]) && !IsSpace(r[|r| - 1])
  {
    LStripEnds(IsSpace, s);
    RStripEnds(IsSpace, LStrip(IsSpace, s));
  }

  lemma {:induction false} LStripEnds(space: char -> bool, s: string)
    ensures LStrip(space, s) != [] ==> !space(LStrip(space, s)[0])
  {
    if s != [] && space(s[0]) {
      LStripEnds(space, s[1..]);
    }
  }

  lemma {:induction false} RStripEnds(space: char -> bool, s: string)
    ensures RStrip(space, s) <= s
    ensures RStrip(space, s) != [] ==> !space(RStrip(space, s)[|RStrip(space, s)| - 1])
  {
    if s != [] && space(s[|s| - 1]) {
      RStripEnds(space, s[..|s| - 1]);
    }
  }

  /** What is stripped: blanks, tabs, line ends and the separators, on both sides and nowhere else. */
  lemma StripOnly(front: string, middle: string, back: string)
    requires forall k :: 0 <= k < |front| ==> front[k] as int in {9, 10, 11, 12, 13, 28, 29, 30, 31, 32}
    requires forall k :: 0 <= k < |back| ==> back[k] as int in {9, 10, 11, 12, 13, 28, 29, 30, 31, 32}
    requires middle != "" ==>
               middle[0] as int !in {9, 10, 11, 12, 13, 28, 29, 30, 31, 32} &&
               middle[|middle| - 1] as int !in {9, 10, 11, 12, 13, 28, 29, 30, 31, 32}
    ensures Strip(front + middle + back) == middle
  {
    SpacesAreThese(front + middle + back);
    SpacesAreThese(front);
    SpacesAreThese(back);
    if middle == "" {
      assert front + middle + back == front + back;
      AllLStripped(IsSpace, front + back, |front + back|);
      assert (front + back)[|front + back|..] == "";
    } else {
      AllLStripped(IsSpace, front + middle + back, |front|);
      assert (front + middle + back)[|front|..] == middle + back;
      AllRStripped(IsSpace, middle + back, |middle|);
      assert (middle + back)[..|middle|] == middle;
    }
  }

  lemma SpacesAreThese(s: string)
    ensures forall k :: 0 <= k < |s| ==> (IsSpace(s[k]) <==> s[k] as int in {9, 10, 11, 12, 13, 28, 29, 30, 31, 32})
  {
  }

  lemma {:induction false} AllLStripped(space: char -> bool, s: string, n: nat)
    requires n <= |s| && (forall k :: 0 <= k < n ==> space(s[k])) && (n < |s| ==> !space(s[n]))
    ensures LStrip(space, s) == s[n..]
    decreases n
  {
    if n > 0 {
      AllLStripped(space, s[1..], n - 1);
    }
  }

  lemma {:induction false} AllRStripped(space: char -> bool, s: string, n: nat)
    requires 0 < n <= |s| && (forall k :: n <= k < |s| ==> space(s[k])) && !space(s[n - 1])
    ensures RStrip(space, s) == s[..n]
    decreases |s|
  {
    if n < |s| {
      AllRStripped(space, s[..|s| - 1], n);
      assert s[..|s| - 1][..n] == s[..n];
    } else {
      assert s[..n] == s;
    }
  }

  /** The value of a digit string in which single underscores may separate digits. */
  function ReadDigits(s: string): (r: int)
    ensures r >= -1
  {
    if s == "" || !('0' <= s[|s| - 1] <= '9') then -1
    else
      var last, rest := s[|s| - 1] as int - '0' as int, s[..|s| - 1];
      if rest == "" then last
      else
        var before := ReadDigits(if rest[|rest| - 1] == '_' then rest[..|rest| - 1] else rest);
        if before == -1 then -1 else before * 10 + last
  }

  /** int(text) in base ten, for text that stands for bytes. */
  function ParseInt(text: string): Option<int> {
    var s := StripAll(IsByteSpace, text);
    var signed := s != "" && (s[0] == '-' || s[0] == '+');
    var n := ReadDigits(if signed then s[1..] else s);
    if n == -1 then None else Some(if signed && s[0] == '-' then -n else n)
  }

  function Digit(d: int): (c: char)
    requires 0 <= d <= 9
    ensures '0' <= c <= '9' && c as int - '0' as int == d
  {
    ('0' as int + d) as char
  }

  /** str(n), in base ten. */
  function Digits(n: nat): (s: string)
    ensures s != "" && forall i :: 0 <= i < |s| ==> '0' <= s[i] <= '9'
  {
    if n < 10 then [Digit(n)] else Digits(n / 10) + [Digit(n % 10)]
  }

  lemma {:induction false} ReadDigitsOfDigits(n: nat)
    ensures ReadDigits(Digits(n)) == n
  {
    if n >= 10 {
      var rest := Digits(n / 10);
      ReadDigitsOfDigits(n / 10);
      assert Digits(n)[..|Digits(n)| - 1] == rest;
      assert rest[|rest| - 1] != '_';
    }
  }

  /** int(str(n)) is n. */
  lemma DigitsThenInt(n: nat)
    ensures ParseInt(Digits(n)) == Some(n)
  {
    ReadDigitsOfDigits(n);
    assert StripAll(IsByteSpace, Digits(n)) == Digits(n);
  }

  /** Base ten, a sign, single underscores between digits, and white space around it. */
  lemma IntExamples()
    ensures ParseInt("\t+1_205\n") == Some(1205) && ParseInt("-7") == Some(-7)
    ensures ParseInt("") == None && ParseInt("1__2") == None && ParseInt("_1") == None && ParseInt("1 2") == None
  {
    var s := "\t+1_205\n";
    assert s[1..] == "+1_205\n" && LStrip(IsByteSpace, s) == "+1_205\n";
    assert "+1_205\n"[..6] == "+1_205" && RStrip(IsByteSpace, "+1_205\n") == "+1_205";
    assert "+1_205"[1..] == "1_205";
    assert ReadDigits("1") == 1 && "1_205"[..4] == "1_20" && "1_20"[..3] == "1_2" && "1_2"[..2] == "1_" &&
           "1_"[..1] == "1";
    assert ReadDigits("1_2") == 12 && ReadDigits("1_20") == 120 && ReadDigits("1_205") == 1205;
    BadInts();
  }

  lemma BadInts()
    ensures ParseInt("-7") == Some(-7)
    ensures ParseInt("") == None && ParseInt("1__2") == None && ParseInt("_1") == None && ParseInt("1 2") == None
  {
    assert "-7"[1..] == "7" && ReadDigits("7") == 7;
    assert "1__2"[..3] == "1__" && "1__"[..2] == "1_" && ReadDigits("1_") == -1;
    assert "_1"[..1] == "_" && "_"[..0] == "" && ReadDigits("") == -1;
    assert "1 2"[..2] == "1 " && ReadDigits("1 ") == -1;
  }
}
