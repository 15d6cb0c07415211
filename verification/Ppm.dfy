/** The PPM (P6) reader and writer of the MELV codec. */
module Ppm {
  import opened Bytes
  import opened Options
  import opened Text

  datatype Image = Image(width: int, height: int, pixels: seq<Byte>)

  const TAB: Byte := 9
  const LF: Byte := 10
  const CR: Byte := 13
  const SPACE: Byte := 32
  const HASH: Byte := 35

  predicate Blank(b: Byte) { b == SPACE || b == TAB || b == CR || b == LF }

  predicate EndsLine(b: Byte) { b == CR || b == LF }

  function SkipBlanks(data: seq<Byte>, pos: nat): (r: nat)
    requires pos <= |data|
    ensures pos <= r <= |data|
    decreases |data| - pos
  {
    if pos < |data| && Blank(data[pos]) then SkipBlanks(data, pos + 1) else pos
  }

  function LineEnd(data: seq<Byte>, pos: nat): (r: nat)
    requires pos <= |data|
    ensures pos <= r <= |data|
    decreases |data| - pos
  {
    if pos < |data| && !EndsLine(data[pos]) then LineEnd(data, pos + 1) else pos
  }

  function TokenEnd(data: seq<Byte>, pos: nat): (r: nat)
    requires pos <= |data|
    ensures pos <= r <= |data|
    decreases |data| - pos
  {
    if pos < |data| && !Blank(data[pos]) then TokenEnd(data, pos + 1) else pos
  }

  /** Where the next token begins, after blanks and whole comment lines. */
  function TokenStart(data: seq<Byte>, pos: nat): (r: nat)
    requires pos <= |data|
    ensures pos <= r <= |data|
    decreases |data| - pos
  {
    var p := SkipBlanks(data, pos);
    if p < |data| && data[p] == HASH then TokenStart(data, LineEnd(data, p)) else p
  }

  /** The position just after the first `k` tokens. */
  function After(data: seq<Byte>, k: nat): (r: nat)
    ensures r <= |data|
    decreases k, |data|
  {
    if k == 0 then 0 else TokenEnd(data, TokenStart(data, After(data, k - 1)))
  }

  /** Where the token that follows the first `k` begins; it ends at `After(data, k + 1)`. */
  function Start(data: seq<Byte>, k: nat): (r: nat)
    ensures r <= |data|
  {
    TokenStart(data, After(data, k))
  }

  function Word(data: seq<Byte>, k: nat): string {
    Chars(data[Start(data, k)..TokenEnd(data, Start(data, k))])
  }

  function Words(data: seq<Byte>, n: nat): (w: seq<string>)
    ensures |w| == n
    decreases n, |data|
  {
    if n == 0 then [] else Words(data, n - 1) + [Word(data, n - 1)]
  }

  lemma {:induction false} WordsAt(data: seq<Byte>, n: nat, k: nat)
    requires k < n
    ensures Words(data, n)[k] == Word(data, k)
    decreases n
  {
    if k < n - 1 {
      WordsAt(data, n - 1, k);
    }
  }

  predicate HasTokens(data: seq<Byte>, n: nat)
    decreases n, |data|
  {
    n == 0 || (HasTokens(data, n - 1) && Start(data, n - 1) != After(data, n))
  }

  lemma {:induction false} HasFewerTokens(data: seq<Byte>, k: nat, n: nat)
    requires k <= n && HasTokens(data, n)
    ensures HasTokens(data, k)
    decreases n - k
  {
    if k < n {
      HasFewerTokens(data, k + 1, n);
    }
  }

  function Body(data: seq<Byte>, pos: nat): seq<Byte>
    requires pos <= |data|
  {
    data[if pos < |data| && Blank(data[pos]) then pos + 1 else pos..]
  }

  function Interpret(magic: string, width: string, height: string, maximum: string,
                     pixels: seq<Byte>): (r: Option<Image>)
    ensures r.Some? ==> |r.value.pixels| == r.value.width * r.value.height * 3
  {
    if magic != "P6" || ParseInt(maximum) != Some(255) then None
    else
      match (ParseInt(width), ParseInt(height))
      case (Some(w), Some(h)) => if |pixels| != w * h * 3 then None else Some(Image(w, h, pixels))
      case _ => None
  }

  function Parse(data: seq<Byte>): (r: Option<Image>)
    ensures r.Some? ==> |r.value.pixels| == r.value.width * r.value.height * 3
  {
    if !HasTokens(data, 4) then None
    else Interpret(Word(data, 0), Word(data, 1), Word(data, 2), Word(data, 3), Body(data, After(data, 4)))
  }

  /** The header of f"P6\n{width} {height}\n255\n". */
  function Header(width: seq<Byte>, height: seq<Byte>): seq<Byte> {
    Line(Line(Line(Line([], Ascii("P6"), LF), width, SPACE), height, LF), Ascii("255"), LF)
  }

  function Line(before: seq<Byte>, token: seq<Byte>, blank: Byte): (r: seq<Byte>)
    ensures |r| == |before| + |token| + 1
  {
    before + token + [blank]
  }

  function Write(width: nat, height: nat, pixels: seq<Byte>): seq<Byte> {
    Header(Ascii(Digits(width)), Ascii(Digits(height))) + pixels
  }

  // ----- the reader's loop -----

  method ScanBlanks(data: seq<Byte>, from: nat) returns (pos: nat)
    requires from <= |data|
    ensures pos == SkipBlanks(data, from)
  {
    pos := from;
    while pos < |data| && Blank(data[pos])
      invariant from <= pos <= |data| && SkipBlanks(data, from) == SkipBlanks(data, pos)
    {
      pos := pos + 1;
    }
  }

  method ScanLine(data: seq<Byte>, from: nat) returns (pos: nat)
    requires from <= |data|
    ensures pos == LineEnd(data, from)
  {
    pos := from;
    while pos < |data| && !EndsLine(data[pos])
      invariant from <= pos <= |data| && LineEnd(data, from) == LineEnd(data, pos)
    {
      pos := pos + 1;
    }
  }

  method ScanToken(data: seq<Byte>, from: nat) returns (pos: nat)
    requires from <= |data|
    ensures pos == TokenEnd(data, from)
  {
    pos := from;
    while pos < |data| && !Blank(data[pos])
      invariant from <= pos <= |data| && TokenEnd(data, from) == TokenEnd(data, pos)
    {
      pos := pos + 1;
    }
  }

  /** One loop over the header bytes, back to its top after a comment. */
  method ReadTokens(data: seq<Byte>, n: nat) returns (tokens: seq<string>, pos: nat)
    ensures |tokens| <= n && (|tokens| == n <==> HasTokens(data, n))
    ensures tokens == Words(data, |tokens|)
    ensures |tokens| == n ==> pos == After(data, n)
  {
    tokens, pos := [], 0;
    while |tokens| < n
      invariant |tokens| <= n && pos <= |data|
      invariant HasTokens(data, |tokens|) && tokens == Words(data, |tokens|)
      invariant TokenStart(data, pos) == TokenStart(data, After(data, |tokens|))
      invariant |tokens| == n ==> pos == After(data, n)
      decreases n - |tokens|, |data| - pos
    {
      ghost var from := pos;
      pos := ScanBlanks(data, pos);
      if pos < |data| && data[pos] == HASH {
        CommentSkipped(data, from, pos);
        pos := ScanLine(data, pos);
        continue;
      }
      var start := pos;
      pos := ScanToken(data, pos);
      TokenReached(data, |tokens|, from, start, pos);
      if start == pos {
        NoToken(data, |tokens|, n);
        return;
      }
      tokens := tokens + [Chars(data[start..pos])];
    }
  }

  lemma CommentSkipped(data: seq<Byte>, from: nat, hash: nat)
    requires from <= |data| && hash == SkipBlanks(data, from) && hash < |data| && data[hash] == HASH
    ensures LineEnd(data, hash) > hash && TokenStart(data, LineEnd(data, hash)) == TokenStart(data, from)
  {
  }

  lemma TokenReached(data: seq<Byte>, k: nat, from: nat, start: nat, end: nat)
    requires from <= |data| && TokenStart(data, from) == TokenStart(data, After(data, k))
    requires start == SkipBlanks(data, from) && (start < |data| ==> data[start] != HASH)
    requires end == TokenEnd(data, start)
    ensures After(data, k + 1) == end && (HasTokens(data, k + 1) <==> HasTokens(data, k) && start != end)
    ensures Words(data, k + 1) == Words(data, k) + [Chars(data[start..end])]
  {
    assert Start(data, k) == start;
  }

  lemma NoToken(data: seq<Byte>, k: nat, n: nat)
    requires !HasTokens(data, k + 1) && k < n
    ensures !HasTokens(data, n)
  {
    if HasTokens(data, n) {
      HasFewerTokens(data, k + 1, n);
    }
  }

  method Read(data: seq<Byte>) returns (image: Option<Image>)
    ensures image == Parse(data)
  {
    var tokens, pos := ReadTokens(data, 4);
    if |tokens| < 4 {
      return None;
    }
    WordsAt(data, 4, 0);
    WordsAt(data, 4, 1);
    WordsAt(data, 4, 2);
    WordsAt(data, 4, 3);
    image := ReadImage(tokens[0], tokens[1], tokens[2], tokens[3], Body(data, pos));
  }

  method ReadImage(magic: string, w: string, h: string, max: string, pixels: seq<Byte>) returns (image: Option<Image>)
    ensures image == Interpret(magic, w, h, max, pixels)
  {
    if magic != "P6" {
      return None;
    }
    var width, height, maximum := ParseInt(w), ParseInt(h), ParseInt(max);
    if width.None? || height.None? || maximum.None? || maximum.value != 255 {
      return None;
    }
    if |pixels| != width.value * height.value * 3 {
      return None;
    }
    image := Some(Image(width.value, height.value, pixels));
  }

  // ----- reading what was written -----

  /** Bytes of one token: no blanks, and no comment sign in front. */
  ghost predicate IsToken(t: seq<Byte>) {
    t != [] && t[0] != HASH && forall b :: b in t ==> !Blank(b)
  }

  lemma {:induction false} BlanksSkipped(data: seq<Byte>, pos: nat, start: nat)
    requires pos <= start < |data| && !Blank(data[start])
    requires forall i :: pos <= i < start ==> Blank(data[i])
    ensures SkipBlanks(data, pos) == start
    decreases start - pos
  {
    if pos < start {
      BlanksSkipped(data, pos + 1, start);
    }
  }

  lemma {:induction false} TokenEnded(data: seq<Byte>, pos: nat, end: nat)
    requires pos <= end < |data| && Blank(data[end])
    requires forall i :: pos <= i < end ==> !Blank(data[i])
    ensures TokenEnd(data, pos) == end
    decreases end - pos
  {
    if pos < end {
      TokenEnded(data, pos + 1, end);
    }
  }

  /** A token between blanks. */
  ghost predicate Stands(data: seq<Byte>, at: nat, end: nat) {
    && at < end < |data| && data[at] != HASH && Blank(data[end])
    && forall i :: at <= i < end ==> !Blank(data[i])
  }

  /** A token that stands between blanks is the next one read. */
  lemma NextToken(data: seq<Byte>, k: nat, at: nat, end: nat)
    requires Stands(data, at, end) && HasTokens(data, k)
    requires After(data, k) == at || (After(data, k) == at - 1 && Blank(data[at - 1]))
    ensures HasTokens(data, k + 1) && Start(data, k) == at && After(data, k + 1) == end
  {
    assert !Blank(data[at]);
    BlanksSkipped(data, After(data, k), at);
    TokenEnded(data, at, end);
  }

  lemma TwoTokens(data: seq<Byte>, k: nat, at: nat, middle: nat, end: nat)
    requires Stands(data, at, middle) && Stands(data, middle + 1, end) && HasTokens(data, k)
    requires After(data, k) == at || (After(data, k) == at - 1 && Blank(data[at - 1]))
    ensures HasTokens(data, k + 2) && After(data, k + 2) == end
    ensures Start(data, k) == at && After(data, k + 1) == middle && Start(data, k + 1) == middle + 1
  {
    NextToken(data, k, at, middle);
    NextToken(data, k + 1, middle + 1, end);
  }

  lemma FourTokens(data: seq<Byte>, k: nat, e0: nat, e1: nat, e2: nat, e3: nat)
    requires Stands(data, 0, e0) && Stands(data, e0 + 1, e1) && Stands(data, e1 + 1, e2) && Stands(data, e2 + 1, e3)
    requires After(data, k) == 0 && HasTokens(data, k)
    ensures HasTokens(data, k + 4)
    ensures Start(data, k) == 0 && After(data, k + 1) == e0
    ensures Start(data, k + 1) == e0 + 1 && After(data, k + 2) == e1
    ensures Start(data, k + 2) == e1 + 1 && After(data, k + 3) == e2
    ensures Start(data, k + 3) == e2 + 1 && After(data, k + 4) == e3
  {
    TwoTokens(data, k, 0, e0, e1);
    TwoTokens(data, k + 2, e1 + 1, e2, e3);
  }

  lemma StandsLast(before: seq<Byte>, token: seq<Byte>, blank: Byte, more: seq<Byte>)
    requires IsToken(token) && Blank(blank) && Line(before, token, blank) <= more
    ensures Stands(more, |before|, |before| + |token|) && more[|before|..|before| + |token|] == token && before <= more
  {
    var line, at, end := Line(before, token, blank), |before|, |before| + |token|;
    assert line[at..end] == token && line[end] == blank && line[..at] == before;
    assert more[at..end] == line[at..end] && more[end] == line[end] && more[..at] == line[..at];
    forall i | at <= i < end
      ensures !Blank(more[i])
    {
      assert more[i] == more[at..end][i - at];
      assert token[i - at] in token;
    }
    assert more[at] == more[at..end][0];
  }

  lemma DigitsAreToken(n: nat)
    ensures IsToken(Ascii(Digits(n)))
    ensures ParseInt(Chars(Ascii(Digits(n)))) == Some(n)
  {
    assert Chars(Ascii(Digits(n))) == Digits(n);
    DigitsThenInt(n);
  }

  lemma DigitsOf255()
    ensures Digits(255) == "255"
  {
    assert Digits(25) == Digits(2) + [Digit(5)];
  }

  lemma TextOfHeader()
    ensures IsToken(Ascii("P6")) && Chars(Ascii("P6")) == "P6"
    ensures IsToken(Ascii("255")) && ParseInt(Chars(Ascii("255"))) == Some(255)
  {
    DigitsAreToken(255);
    DigitsOf255();
  }

  /** Any image comes back from its file, whatever bytes its pixels begin with. */
  lemma WriteThenRead(width: nat, height: nat, pixels: seq<Byte>)
    requires |pixels| == width * height * 3
    ensures Parse(Write(width, height, pixels)) == Some(Image(width, height, pixels))
  {
    var w, h, data := Ascii(Digits(width)), Ascii(Digits(height)), Write(width, height, pixels);
    DigitsAreToken(width);
    DigitsAreToken(height);
    TextOfHeader();
    HeaderRead(data, w, h);
    HeaderEnds(w, h);
    var header := Header(w, h);
    assert data[|header|..] == pixels && data[|header| - 1] == header[|header| - 1];
    Parsed(data, width, height, pixels);
  }

  lemma HeaderEnds(w: seq<Byte>, h: seq<Byte>)
    ensures var header := Header(w, h); |header| == 9 + |w| + |h| && Blank(header[|header| - 1])
  {
  }

  ghost predicate HasHeader(data: seq<Byte>, w: seq<Byte>, h: seq<Byte>) {
    && HasTokens(data, 4) && After(data, 4) == 8 + |w| + |h|
    && Word(data, 0) == Chars(Ascii("P6")) && Word(data, 1) == Chars(w)
    && Word(data, 2) == Chars(h) && Word(data, 3) == Chars(Ascii("255"))
  }

  lemma HeaderRead(data: seq<Byte>, w: seq<Byte>, h: seq<Byte>)
    requires Header(w, h) <= data && IsToken(w) && IsToken(h)
    ensures HasHeader(data, w, h)
  {
    var e1, e2 := 3 + |w|, 4 + |w| + |h|;
    HeaderStands(data, w, h);
    FourTokens(data, 0, 2, e1, e2, e2 + 4);
    WordIs(data, 0, 0, 2, Ascii("P6"));
    WordIs(data, 1, 3, e1, w);
    WordIs(data, 2, e1 + 1, e2, h);
    WordIs(data, 3, e2 + 1, e2 + 4, Ascii("255"));
  }

  lemma WordIs(data: seq<Byte>, k: nat, at: nat, end: nat, token: seq<Byte>)
    requires Start(data, k) == at && After(data, k + 1) == end && at <= end <= |data| && data[at..end] == token
    ensures Word(data, k) == Chars(token)
  {
  }

  lemma HeaderStands(data: seq<Byte>, w: seq<Byte>, h: seq<Byte>)
    requires Header(w, h) <= data && IsToken(w) && IsToken(h)
    ensures Stands(data, 0, 2) && Stands(data, 3, 3 + |w|)
    ensures Stands(data, 4 + |w|, 4 + |w| + |h|) && Stands(data, 5 + |w| + |h|, 8 + |w| + |h|)
    ensures data[0..2] == Ascii("P6") && data[3..3 + |w|] == w
    ensures data[4 + |w|..4 + |w| + |h|] == h && data[5 + |w| + |h|..8 + |w| + |h|] == Ascii("255")
  {
    TextOfHeader();
    var first := Line(Line([], Ascii("P6"), LF), w, SPACE);
    LinesStand(first, h, LF, Ascii("255"), LF, data);
    FirstLinesStand(Ascii("P6"), w, data);
  }

  lemma FirstLinesStand(first: seq<Byte>, second: seq<Byte>, more: seq<Byte>)
    requires IsToken(first) && IsToken(second) && Line(Line([], first, LF), second, SPACE) <= more
    ensures var a, b := |first|, |first| + 1 + |second|;
            Stands(more, 0, a) && more[0..a] == first && Stands(more, a + 1, b) && more[a + 1..b] == second
  {
    LinesStand([], first, LF, second, SPACE, more);
  }

  lemma LinesStand(before: seq<Byte>, first: seq<Byte>, b1: Byte, second: seq<Byte>, b2: Byte, more: seq<Byte>)
    requires IsToken(first) && Blank(b1) && IsToken(second) && Blank(b2)
    requires Line(Line(before, first, b1), second, b2) <= more
    ensures before <= more
    ensures var a, b := |before| + |first|, |before| + |first| + 1 + |second|;
            Stands(more, |before|, a) && more[|before|..a] == first && Stands(more, a + 1, b) &&
            more[a + 1..b] == second
  {
    StandsLast(Line(before, first, b1), second, b2, more);
    StandsLast(before, first, b1, more);
  }

  lemma Parsed(data: seq<Byte>, width: int, height: int, pixels: seq<Byte>)
    requires HasTokens(data, 4) && Word(data, 0) == "P6" && ParseInt(Word(data, 3)) == Some(255)
    requires ParseInt(Word(data, 1)) == Some(width) && ParseInt(Word(data, 2)) == Some(height)
    requires Body(data, After(data, 4)) == pixels && |pixels| == width * height * 3
    ensures Parse(data) == Some(Image(width, height, pixels))
  {
  }

  // ----- the format in other words -----

  /** The file of an image, byte for byte up to its pixels: P6, the width, the height, 255. */
  lemma WrittenBytes(width: nat, height: nat, pixels: seq<Byte>)
    ensures Write(width, height, pixels) ==
            [80, 54, 10] + Ascii(Digits(width)) + [32] + Ascii(Digits(height)) + [10, 50, 53, 53, 10] + pixels
  {
    assert Ascii("P6") == [80, 54] && Ascii("255") == [50, 53, 53];
    assert [] + [80, 54] + [10] == [80, 54, 10] && [10] + [50, 53, 53] + [10] == [10, 50, 53, 53, 10];
    HeaderInOneRow([] + [80, 54] + [10], Ascii(Digits(width)), Ascii(Digits(height)), [50, 53, 53]);
  }

  lemma HeaderInOneRow(magic: seq<Byte>, width: seq<Byte>, height: seq<Byte>, maximum: seq<Byte>)
    ensures Line(Line(Line(magic, width, SPACE), height, LF), maximum, LF) ==
            magic + width + [32] + height + ([10] + maximum + [10])
  {
  }

  /** A `#` where a token could begin starts a comment, up to the next line feed or carriage return. */
  lemma CommentIsSkipped(data: seq<Byte>, hash: nat, end: nat)
    requires hash < end < |data| && data[hash] == 35 && (data[end] == 10 || data[end] == 13)
    requires forall i :: hash < i < end ==> data[i] != 10 && data[i] != 13
    ensures TokenStart(data, hash) == TokenStart(data, end + 1)
  {
    assert SkipBlanks(data, hash) == hash;
    LineEnds(data, hash, end);
    assert TokenStart(data, hash) == TokenStart(data, end);
    assert SkipBlanks(data, end) == SkipBlanks(data, end + 1);
  }

  lemma {:induction false} LineEnds(data: seq<Byte>, pos: nat, end: nat)
    requires pos <= end < |data| && (data[end] == 10 || data[end] == 13)
    requires forall i :: pos <= i < end ==> data[i] != 10 && data[i] != 13
    ensures LineEnd(data, pos) == end
    decreases end - pos
  {
    if pos < end {
      LineEnds(data, pos + 1, end);
    }
  }

  /** A token begins behind spaces, tabs, line feeds and carriage returns, and ends in front of one. */
  lemma TokenBetweenBlanks(data: seq<Byte>, pos: nat, at: nat, end: nat)
    requires pos <= at < end < |data|
    requires forall i :: pos <= i < at ==> data[i] in [32, 9, 10, 13]
    requires data[at] != 35 && forall i :: at <= i < end ==> data[i] !in [32, 9, 10, 13]
    requires data[end] in [32, 9, 10, 13]
    ensures TokenStart(data, pos) == at && TokenEnd(data, at) == end
  {
    BlanksSkipped(data, pos, at);
    TokenEnded(data, at, end);
  }

  /** What is read: four tokens, the first P6 and the last 255, one blank, and three bytes a pixel. */
  lemma ReadExactly(data: seq<Byte>)
    ensures Parse(data).Some? <==>
            && HasTokens(data, 4)
            && Word(data, 0) == "P6" && ParseInt(Word(data, 3)) == Some(255)
            && ParseInt(Word(data, 1)).Some? && ParseInt(Word(data, 2)).Some?
            && var end := After(data, 4);
               var body := data[if end < |data| && data[end] in [32, 9, 10, 13] then end + 1 else end..];
               |body| == ParseInt(Word(data, 1)).value * ParseInt(Word(data, 2)).value * 3
    ensures Parse(data).Some? ==>
              var end := After(data, 4);
              Parse(data).value ==
              Image(ParseInt(Word(data, 1)).value, ParseInt(Word(data, 2)).value,
                    data[if end < |data| && data[end] in [32, 9, 10, 13] then end + 1 else end..])
  {
  }
}
