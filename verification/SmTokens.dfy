/** The SM token stream: references into a dictionary mixed with length-prefixed UTF-8 literals. */
module SmTokens {
  import Utf8
  import opened Bytes
  import opened Options

  const REFERENCE: Byte := 0xFF
  const MIN_TOKEN: nat := 3

  // ----- the stream of a text -----

  /** The id of a token: its last place in the dictionary. */
  function IdOf(d: seq<string>, token: string): (id: Option<nat>)
    ensures id.Some? ==> id.value < |d| && d[id.value] == token
    ensures id.None? ==> token !in d
  {
    if d == [] then None
    else if d[|d| - 1] == token then Some(|d| - 1)
    else IdOf(d[..|d| - 1], token)
  }

  /** The longest token of at most `width` characters that `rest` begins with. */
  function Match(d: seq<string>, rest: string, width: nat): (id: Option<nat>)
    requires width <= |rest|
    ensures id.Some? ==> id.value < |d| && MIN_TOKEN <= |d[id.value]| && d[id.value] <= rest
  {
    if width < MIN_TOKEN then None
    else if IdOf(d, rest[..width]).Some? then IdOf(d, rest[..width])
    else Match(d, rest, width - 1)
  }

  function Longest(d: seq<string>, rest: string): (id: Option<nat>)
    ensures id.Some? ==> id.value < |d| && MIN_TOKEN <= |d[id.value]| && d[id.value] <= rest
  {
    Match(d, rest, |rest|)
  }

  function Literal(c: char): (b: seq<Byte>)
    ensures 2 <= |b| <= 5
  {
    var bytes := Utf8.EncodeChar(c);
    [|bytes|] + bytes
  }

  /** The first entry of the stream and how many characters it stands for; None when the id does
      not fit one byte. */
  function Piece(rest: string, d: seq<string>): (r: Option<(seq<Byte>, nat)>)
    requires rest != ""
    ensures r.Some? ==> 1 <= r.value.1 <= |rest|
  {
    match Longest(d, rest)
    case None => Some((Literal(rest[0]), 1))
    case Some(id) => if id > 255 then None else Some(([REFERENCE, id], |d[id]|))
  }

  function Tokenized(text: string, d: seq<string>): Option<seq<Byte>> {
    if text == "" then Some([])
    else
      match Piece(text, d)
      case None => None
      case Some((bytes, n)) => Before(bytes, Tokenized(text[n..], d))
  }

  function Before<T>(front: seq<T>, rest: Option<seq<T>>): Option<seq<T>> {
    if rest.None? then None else Some(front + rest.value)
  }

  /** How many references the stream of a text holds. */
  function References(text: string, d: seq<string>): nat {
    if text == "" then 0
    else
      match Longest(d, text)
      case None => References(text[1..], d)
      case Some(id) => 1 + References(text[|d[id]|..], d)
  }

  // ----- the text of a stream -----

  /** What the entry in front stands for and how many bytes it takes; None for a broken entry. */
  function Entry(data: seq<Byte>, d: seq<string>): (r: Option<(string, nat)>)
    requires data != []
    ensures r.Some? ==> 1 <= r.value.1 <= |data|
  {
    var marker: int := data[0];
    if marker == REFERENCE then
      if |data| < 2 || data[1] >= |d| then None else Some((d[data[1]], 2))
    else if marker == 0 || 1 + marker > |data| then None
    else
      match Utf8.Decode(data[1..1 + marker])
      case None => None
      case Some(s) => Some((s, 1 + marker))
  }

  function Detokenized(data: seq<Byte>, d: seq<string>): Option<string> {
    if data == [] then Some("")
    else
      match Entry(data, d)
      case None => None
      case Some((s, n)) => Before(s, Detokenized(data[n..], d))
  }

  // ----- there and back -----

  /** Whatever the dictionary, a text that has a stream is read back from it. */
  lemma {:induction false} RoundTrip(text: string, d: seq<string>)
    requires Tokenized(text, d).Some?
    ensures Detokenized(Tokenized(text, d).value, d) == Some(text)
  {
    if text != "" {
      match Longest(d, text)
      case None =>
        RoundTrip(text[1..], d);
        LiteralRead(text[0], Tokenized(text[1..], d).value, d);
        assert [text[0]] + text[1..] == text;
      case Some(id) =>
        var rest := text[|d[id]|..];
        RoundTrip(rest, d);
        ReferenceRead(id, Tokenized(rest, d).value, d);
        assert d[id] + rest == text;
    }
  }

  lemma LiteralRead(c: char, rest: seq<Byte>, d: seq<string>)
    ensures Detokenized(Literal(c) + rest, d) == Before([c], Detokenized(rest, d))
  {
    var bytes, data := Utf8.EncodeChar(c), Literal(c) + rest;
    OneChar(c);
    assert data[1..1 + |bytes|] == bytes && data[1 + |bytes|..] == rest;
  }

  lemma OneChar(c: char)
    ensures Utf8.Decode(Utf8.EncodeChar(c)) == Some([c])
  {
    Utf8.RoundTrip([c]);
    assert Utf8.Encode([c]) == Utf8.EncodeChar(c) + [];
  }

  lemma ReferenceRead(id: nat, rest: seq<Byte>, d: seq<string>)
    requires id < |d| && id <= 255
    ensures Detokenized([REFERENCE, id] + rest, d) == Before(d[id], Detokenized(rest, d))
  {
    assert ([REFERENCE, id] + rest)[2..] == rest;
  }

  /** A dictionary of at most 256 tokens never fails. */
  lemma {:induction false} SmallDictionarySuffices(text: string, d: seq<string>)
    requires |d| <= 256
    ensures Tokenized(text, d).Some?
    decreases |text|
  {
    if text != "" {
      match Longest(d, text)
      case None => SmallDictionarySuffices(text[1..], d);
      case Some(id) => SmallDictionarySuffices(text[|d[id]|..], d);
    }
  }

  /** Each reference saves at least four bytes over writing the text out. */
  lemma {:induction false} ReferencesSave(text: string, d: seq<string>)
    requires Tokenized(text, d).Some?
    ensures Tokenized(text, []).Some?
    ensures |Tokenized(text, d).value| + 4 * References(text, d) <= |Tokenized(text, []).value|
    decreases |text|
  {
    SmallDictionarySuffices(text, []);
    PlainSize(text);
    if text != "" {
      match Longest(d, text)
      case None =>
        ReferencesSave(text[1..], d);
        PlainSize(text[1..]);
      case Some(id) =>
        var rest := text[|d[id]|..];
        ReferencesSave(rest, d);
        PlainSize(rest);
        WidthAppend(d[id], rest);
        assert d[id] + rest == text;
    }
  }

  /** The size of a text written out. */
  function Width(text: string): (n: nat)
    ensures n >= 2 * |text|
  {
    if text == "" then 0 else |Literal(text[0])| + Width(text[1..])
  }

  lemma {:induction false} PlainSize(text: string)
    ensures Tokenized(text, []).Some? && |Tokenized(text, []).value| == Width(text)
  {
    if text != "" {
      PlainSize(text[1..]);
    }
  }

  lemma {:induction false} WidthAppend(s: string, t: string)
    ensures Width(s + t) == Width(s) + Width(t)
  {
    if s == "" {
      assert s + t == t;
    } else {
      assert (s + t)[1..] == s[1..] + t;
      WidthAppend(s[1..], t);
    }
  }

  // ----- the loop of _tokenize -----

  /** The table {token: id}. */
  ghost predicate IsTable(ids: map<string, nat>, d: seq<string>) {
    forall t :: if t in ids then IdOf(d, t) == Some(ids[t]) else IdOf(d, t) == None
  }

  method BuildTable(d: seq<string>) returns (ids: map<string, nat>)
    ensures IsTable(ids, d)
  {
    ids := map[];
    for i := 0 to |d|
      invariant IsTable(ids, d[..i])
    {
      assert d[..i + 1][..i] == d[..i];
      ids := ids[d[i] := i];
    }
    assert d[..|d|] == d;
  }

  /** The distinct token lengths above two, longest first. */
  ghost predicate AreLengths(lengths: seq<nat>, d: seq<string>) {
    && (forall i, j :: 0 <= i < j < |lengths| ==> lengths[i] > lengths[j])
    && (forall i :: 0 <= i < |lengths| ==> MIN_TOKEN <= lengths[i])
    && (forall k :: 0 <= k < |d| && MIN_TOKEN <= |d[k]| ==> |d[k]| in lengths)
  }

  method TokenLengths(d: seq<string>) returns (lengths: seq<nat>)
    ensures AreLengths(lengths, d)
  {
    var present: set<nat>, width := {}, 0;
    for i := 0 to |d|
      invariant forall k :: 0 <= k < i ==> |d[k]| in present
      invariant forall k :: 0 <= k < i ==> |d[k]| <= width
    {
      present := present + {|d[i]|};
      width := if |d[i]| > width then |d[i]| else width;
    }
    lengths := [];
    while width >= MIN_TOKEN
      invariant forall i, j :: 0 <= i < j < |lengths| ==> lengths[i] > lengths[j]
      invariant forall i :: 0 <= i < |lengths| ==> MIN_TOKEN <= lengths[i] && lengths[i] > width
      invariant forall k :: 0 <= k < |d| && MIN_TOKEN <= |d[k]| && |d[k]| > width ==> |d[k]| in lengths
    {
      if width in present {
        lengths := lengths + [width];
      }
      width := width - 1;
    }
  }

  /** The inner loop: the first width at which the text goes on with a token. */
  method FindLongest(d: seq<string>, ids: map<string, nat>, lengths: seq<nat>, rest: string) returns (id: Option<nat>)
    requires IsTable(ids, d) && AreLengths(lengths, d)
    ensures id == Longest(d, rest)
  {
    for k := 0 to |lengths|
      invariant forall j :: 0 <= j < k ==> Misses(d, rest, lengths[j])
    {
      var width := lengths[k];
      if width <= |rest| && rest[..width] in ids {
        LongestIs(d, lengths, rest, k);
        return Some(ids[rest[..width]]);
      }
    }
    LongestIsNone(d, lengths, rest);
    id := None;
  }

  ghost predicate Misses(d: seq<string>, rest: string, width: nat) {
    width > |rest| || IdOf(d, rest[..width]).None?
  }

  /** A width that hits is a token's length. */
  lemma HitIsLength(d: seq<string>, lengths: seq<nat>, rest: string, width: nat)
    requires AreLengths(lengths, d) && width >= MIN_TOKEN && !Misses(d, rest, width)
    ensures width in lengths
  {
    var id := IdOf(d, rest[..width]).value;
    assert |d[id]| == width;
  }

  /** A width that is no token's length misses. */
  lemma OtherWidthsMiss(d: seq<string>, lengths: seq<nat>, rest: string, width: nat)
    requires AreLengths(lengths, d) && width >= MIN_TOKEN && width !in lengths
    ensures Misses(d, rest, width)
  {
    if !Misses(d, rest, width) {
      HitIsLength(d, lengths, rest, width);
    }
  }

  lemma LongestIs(d: seq<string>, lengths: seq<nat>, rest: string, k: nat)
    requires AreLengths(lengths, d) && k < |lengths| && !Misses(d, rest, lengths[k])
    requires forall j :: 0 <= j < k ==> Misses(d, rest, lengths[j])
    ensures Longest(d, rest) == IdOf(d, rest[..lengths[k]])
  {
    forall w | lengths[k] < w
      ensures Misses(d, rest, w)
    {
      if w in lengths {
        var j :| 0 <= j < |lengths| && lengths[j] == w;
        assert j < k;
      } else {
        OtherWidthsMiss(d, lengths, rest, w);
      }
    }
    MatchSkips(d, rest, |rest|, lengths[k]);
  }

  lemma LongestIsNone(d: seq<string>, lengths: seq<nat>, rest: string)
    requires AreLengths(lengths, d)
    requires forall j :: 0 <= j < |lengths| ==> Misses(d, rest, lengths[j])
    ensures Longest(d, rest) == None
  {
    forall w | MIN_TOKEN <= w
      ensures Misses(d, rest, w)
    {
      if w !in lengths {
        OtherWidthsMiss(d, lengths, rest, w);
      }
    }
    if |rest| >= MIN_TOKEN {
      MatchSkips(d, rest, |rest|, MIN_TOKEN - 1);
    }
  }

  lemma {:induction false} MatchSkips(d: seq<string>, rest: string, from: nat, to: nat)
    requires MIN_TOKEN - 1 <= to <= from <= |rest|
    requires forall w :: to < w <= from ==> Misses(d, rest, w)
    ensures Match(d, rest, from) == Match(d, rest, to)
    decreases from
  {
    if to < from {
      assert Misses(d, rest, from);
      MatchSkips(d, rest, from - 1, to);
    }
  }

  /** What the loop makes of a text from `i` on, with `out` emitted already. */
  ghost function Behind(text: string, d: seq<string>, i: nat, out: seq<Byte>): Option<seq<Byte>>
    decreases |text| - i
  {
    if i >= |text| then Some(out)
    else
      match Piece(text[i..], d)
      case None => None
      case Some((bytes, n)) => Behind(text, d, i + n, out + bytes)
  }

  lemma {:induction false} TokensBehind(text: string, d: seq<string>, i: nat, out: seq<Byte>)
    requires i <= |text|
    ensures Behind(text, d, i, out) == Before(out, Tokenized(text[i..], d))
    decreases |text| - i
  {
    var rest := text[i..];
    if rest == "" {
      assert out + [] == out;
    } else if Piece(rest, d).Some? {
      var (bytes, n) := Piece(rest, d).value;
      TokensBehind(text, d, i + n, out + bytes);
      SliceAgain(text, i, n);
      BeforeBefore(out, bytes, Tokenized(text[i + n..], d));
    }
  }

  lemma SliceAgain<T>(s: seq<T>, i: nat, n: nat)
    requires i + n <= |s|
    ensures s[i..][n..] == s[i + n..]
  {
  }

  lemma AllBehind(text: string, d: seq<string>)
    ensures Behind(text, d, 0, []) == Tokenized(text, d)
  {
    TokensBehind(text, d, 0, []);
    assert text[0..] == text;
    if Tokenized(text, d).Some? {
      assert [] + Tokenized(text, d).value == Tokenized(text, d).value;
    }
  }

  method Tokenize(text: string, d: seq<string>) returns (stream: Option<seq<Byte>>)
    ensures stream == Tokenized(text, d)
  {
    var ids := BuildTable(d);
    var lengths := TokenLengths(d);
    var out: seq<Byte>, i, n := [], 0, |text|;
    AllBehind(text, d);
    while i < n
      invariant 0 <= i <= n && Behind(text, d, i, out) == Tokenized(text, d)
    {
      var piece := NextPiece(d, ids, lengths, text[i..]);
      if piece.None? {
        return None;
      }
      out := out + piece.value.0;
      i := i + piece.value.1;
    }
    stream := Some(out);
  }

  /** One turn of the loop. */
  method NextPiece(d: seq<string>, ids: map<string, nat>, lengths: seq<nat>, rest: string)
    returns (piece: Option<(seq<Byte>, nat)>)
    requires IsTable(ids, d) && AreLengths(lengths, d) && rest != ""
    ensures piece == Piece(rest, d)
  {
    var best := FindLongest(d, ids, lengths, rest);
    if best.Some? {
      var id := best.value;
      if id > 255 {
        return None;
      }
      return Some(([REFERENCE, id], |d[id]|));
    }
    var data := Utf8.EncodeChar(rest[0]);
    piece := Some(([|data|] + data, 1));
  }

  lemma BeforeBefore<T>(a: seq<T>, b: seq<T>, rest: Option<seq<T>>)
    ensures Before(a, Before(b, rest)) == Before(a + b, rest)
  {
    if rest.Some? {
      assert a + (b + rest.value) == (a + b) + rest.value;
    }
  }

  // ----- the loop of _detokenize -----

  /** `out` is the text of the stream before `i`. */
  ghost predicate ReadTo(data: seq<Byte>, d: seq<string>, i: nat, out: string) {
    i <= |data| && Detokenized(data, d) == Before(out, Detokenized(data[i..], d))
  }

  method Detokenize(data: seq<Byte>, d: seq<string>) returns (text: Option<string>)
    ensures text == Detokenized(data, d)
  {
    var out, i, n := "", 0, |data|;
    ReadNothing(data, d);
    while i < n
      invariant ReadTo(data, d, i, out)
    {
      var entry := ReadEntry(data, i, d);
      ReadStep(data, d, i, out);
      if entry.None? {
        return None;
      }
      out := out + entry.value.0;
      i := i + entry.value.1;
    }
    assert data[n..] == [] && out + "" == out;
    text := Some(out);
  }

  /** One turn of the loop. */
  method ReadEntry(data: seq<Byte>, at: nat, d: seq<string>) returns (entry: Option<(string, nat)>)
    requires at < |data|
    ensures entry == Entry(data[at..], d)
  {
    var marker: int, i, n := data[at], at + 1, |data|;
    if marker == 0xFF {
      if i >= n {
        return None;
      }
      var idx := data[i];
      if idx >= |d| {
        return None;
      }
      return Some((d[idx], 2));
    }
    if marker == 0 || i + marker > n {
      return None;
    }
    var chunk := data[i..i + marker];
    assert chunk == data[at..][1..1 + marker];
    var s := Utf8.Decode(chunk);
    match s
    case None => entry := None;
    case Some(t) => entry := Some((t, 1 + marker));
  }

  lemma ReadNothing(data: seq<Byte>, d: seq<string>)
    ensures ReadTo(data, d, 0, "")
  {
    assert data[0..] == data;
    if Detokenized(data, d).Some? {
      assert "" + Detokenized(data, d).value == Detokenized(data, d).value;
    }
  }

  lemma ReadStep(data: seq<Byte>, d: seq<string>, i: nat, out: string)
    requires i < |data| && ReadTo(data, d, i, out)
    ensures match Entry(data[i..], d)
            case None => Detokenized(data, d) == None
            case Some((s, n)) => ReadTo(data, d, i + n, out + s)
  {
    match Entry(data[i..], d)
    case None =>
    case Some((s, n)) =>
      assert data[i..][n..] == data[i + n..];
      BeforeBefore(out, s, Detokenized(data[i + n..], d));
  }

  // ----- the format in other words -----

  /** No entry of the dictionary that the text begins with is longer than the one chosen, and of equal
      entries the last is; one of three characters or more is never passed over. */
  lemma LongestIsLongest(d: seq<string>, rest: string, j: nat)
    requires j < |d| && |d[j]| >= 3 && d[j] <= rest
    ensures Longest(d, rest).Some?
    ensures var id := Longest(d, rest).value; |d[j]| <= |d[id]| && (d[j] == d[id] ==> j <= id)
  {
    MatchIsLongest(d, rest, |rest|, j);
  }

  lemma {:induction false} MatchIsLongest(d: seq<string>, rest: string, width: nat, j: nat)
    requires width <= |rest| && j < |d| && 3 <= |d[j]| <= width && d[j] <= rest
    ensures Match(d, rest, width).Some?
    ensures var id := Match(d, rest, width).value; |d[j]| <= |d[id]| && (d[j] == d[id] ==> j <= id)
    decreases width
  {
    var id := IdOf(d, rest[..width]);
    if id.Some? {
      IdIsLast(d, rest[..width], j);
    } else {
      assert d[j] == rest[..|d[j]|] && d[j] in d;
      MatchIsLongest(d, rest, width - 1, j);
    }
  }

  lemma {:induction false} IdIsLast(d: seq<string>, token: string, j: nat)
    requires j < |d| && IdOf(d, token).Some?
    ensures d[j] == token ==> j <= IdOf(d, token).value
  {
    if j < |d| - 1 && d[|d| - 1] != token {
      IdIsLast(d[..|d| - 1], token, j);
    }
  }

  /** A reference is the byte 255 and the id, for an id of one byte; a literal is the number of bytes of
      one character in UTF-8 and those bytes. */
  lemma PieceBytes(rest: string, d: seq<string>)
    requires rest != ""
    ensures match Longest(d, rest)
            case None => Piece(rest, d) == Some(([|Utf8.EncodeChar(rest[0])|] + Utf8.EncodeChar(rest[0]), 1))
            case Some(id) =>
              if id >= 256 then Piece(rest, d) == None
              else
                Piece(rest, d).Some? && Piece(rest, d).value.0 == [255, id] && Piece(rest, d).value.1 == |d[id]|
  {
  }

  /** A small stream: a reference to the one entry, and the letter that is left. */
  lemma StreamExample()
    ensures Tokenized("abca", ["abc"]) == Some([255, 0, 1, 97])
  {
    var d := ["abc"];
    assert "abca"[..3] == "abc" && d[0] == "abc";
    LongestIsLongest(d, "abca", 0);
    NoneShort(d, "a");
    assert Utf8.EncodeChar('a') == [97];
    assert "abca"[3..] == "a" && "a"[1..] == "";
    assert Literal('a') == [1, 97] && Piece("a", d) == Some((Literal('a'), 1));
    assert Tokenized("", d) == Some([]) && [1, 97] + [] == [1, 97];
    assert Tokenized("a", d) == Some([1, 97]);
    assert [255, 0] + [1, 97] == [255, 0, 1, 97];
  }

  /** Fewer than three characters are no reference. */
  lemma NoneShort(d: seq<string>, rest: string)
    requires |rest| < 3
    ensures Longest(d, rest) == None
  {
  }
}
