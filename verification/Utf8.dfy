/** UTF-8 as section 3 of RFC 3629 defines it. A `char` is a Unicode scalar value. */
module Utf8 {
  import opened Bytes
  import opened Options

  predicate Continues(b: Byte) { 0x80 <= b < 0xC0 }

  predicate IsScalar(n: int) { 0 <= n < 0xD800 || 0xE000 <= n < 0x110000 }

  function EncodeChar(c: char): (b: seq<Byte>)
    ensures 1 <= |b| <= 4
  {
    var n := c as int;
    if n < 0x80 then [n]
    else if n < 0x800 then [0xC0 + n / 64, 0x80 + n % 64]
    else if n < 0x10000 then [0xE0 + n / 4096, 0x80 + n / 64 % 64, 0x80 + n % 64]
    else [0xF0 + n / 262144, 0x80 + n / 4096 % 64, 0x80 + n / 64 % 64, 0x80 + n % 64]
  }

  /** The character in front and how many bytes it takes; None for anything malformed, overlong,
      surrogate or above U+10FFFF. */
  function DecodeChar(b: seq<Byte>): (r: Option<(char, nat)>)
    ensures r.Some? ==> 1 <= r.value.1 <= |b|
  {
    if b == [] then None
    else
      var b0: int := b[0];
      if b0 < 0x80 then Scalar(b0, 0, 1)
      else if 0xC0 <= b0 < 0xE0 && |b| >= 2 && Continues(b[1]) then Scalar(Join2(b0 - 0xC0, Low(b[1])), 0x80, 2)
      else if 0xE0 <= b0 < 0xF0 && |b| >= 3 && Continues(b[1]) && Continues(b[2]) then
        Scalar(Join3(b0 - 0xE0, Low(b[1]), Low(b[2])), 0x800, 3)
      else if 0xF0 <= b0 < 0xF8 && |b| >= 4 && Continues(b[1]) && Continues(b[2]) && Continues(b[3]) then
        Scalar(Join4(b0 - 0xF0, Low(b[1]), Low(b[2]), Low(b[3])), 0x10000, 4)
      else None
  }

  /** The six payload bits of a continuation byte. */
  function Low(b: Byte): (n: int)
    requires Continues(b)
    ensures 0 <= n < 64 && b == 0x80 + n
  {
    var n: int := b;
    n - 0x80
  }

  function Join2(x: int, y: int): int { x * 64 + y }

  function Join3(x: int, y: int, z: int): int { x * 4096 + y * 64 + z }

  function Join4(w: int, x: int, y: int, z: int): int { w * 262144 + x * 4096 + y * 64 + z }

  function Scalar(n: int, least: int, size: nat): (r: Option<(char, nat)>)
    ensures r.Some? ==> r.value.1 == size
  {
    if n >= least && IsScalar(n) then Some((n as char, size)) else None
  }

  lemma CharRoundTrip(c: char, rest: seq<Byte>)
    ensures DecodeChar(EncodeChar(c) + rest) == Some((c, |EncodeChar(c)|))
  {
    var e := EncodeChar(c);
    var b := e + rest;
    assert forall k :: 0 <= k < |e| ==> b[k] == e[k];
    if |e| <= 2 {
      ShortRoundTrip(c, b);
    } else {
      LongRoundTrip(c, b);
    }
  }

  lemma ShortRoundTrip(c: char, b: seq<Byte>)
    requires |EncodeChar(c)| <= 2 && |EncodeChar(c)| <= |b|
    requires forall k :: 0 <= k < |EncodeChar(c)| ==> b[k] == EncodeChar(c)[k]
    ensures DecodeChar(b) == Some((c, |EncodeChar(c)|))
  {
    Sextets(c as int);
  }

  lemma LongRoundTrip(c: char, b: seq<Byte>)
    requires 2 < |EncodeChar(c)| <= |b|
    requires forall k :: 0 <= k < |EncodeChar(c)| ==> b[k] == EncodeChar(c)[k]
    ensures DecodeChar(b) == Some((c, |EncodeChar(c)|))
  {
    Sextets(c as int);
  }

  /** Sixty-four at a time. */
  lemma Sextets(n: nat)
    ensures n == Join2(n / 64, n % 64)
    ensures n == Join3(n / 4096, n / 64 % 64, n % 64)
    ensures n == Join4(n / 262144, n / 4096 % 64, n / 64 % 64, n % 64)
  {
    assert n / 4096 == n / 64 / 64;
    assert n / 262144 == n / 4096 / 64;
  }

  lemma SextetsOf2(x: nat, y: nat)
    requires y < 64
    ensures Join2(x, y) / 64 == x && Join2(x, y) % 64 == y
  {
  }

  lemma SextetsOf3(x: nat, y: nat, z: nat)
    requires y < 64 && z < 64
    ensures var n := Join3(x, y, z); n / 4096 == x && n / 64 % 64 == y && n % 64 == z
  {
    assert Join3(x, y, z) == Join2(Join2(x, y), z);
    SextetsOf2(Join2(x, y), z);
    SextetsOf2(x, y);
    assert Join3(x, y, z) / 4096 == Join3(x, y, z) / 64 / 64;
  }

  lemma SextetsOf4(w: nat, x: nat, y: nat, z: nat)
    requires x < 64 && y < 64 && z < 64
    ensures var n := Join4(w, x, y, z); n / 262144 == w && n / 4096 % 64 == x && n / 64 % 64 == y && n % 64 == z
  {
    var n := Join4(w, x, y, z);
    assert n == Join2(Join3(w, x, y), z);
    SextetsOf2(Join3(w, x, y), z);
    SextetsOf3(w, x, y);
    assert n / 262144 == n / 64 / 4096 && n / 4096 == n / 64 / 64;
  }

  /** A character has one encoding only. */
  lemma CharIsCanonical(b: seq<Byte>)
    requires DecodeChar(b).Some?
    ensures EncodeChar(DecodeChar(b).value.0) == b[..DecodeChar(b).value.1]
  {
    var b0: int := b[0];
    if b0 < 0x80 {
      assert b[..1] == [b[0]];
    } else if b0 < 0xE0 {
      SextetsOf2(b0 - 0xC0, Low(b[1]));
      assert b[..2] == [b[0], b[1]];
    } else if b0 < 0xF0 {
      SextetsOf3(b0 - 0xE0, Low(b[1]), Low(b[2]));
      assert b[..3] == [b[0], b[1], b[2]];
    } else {
      SextetsOf4(b0 - 0xF0, Low(b[1]), Low(b[2]), Low(b[3]));
      assert b[..4] == [b[0], b[1], b[2], b[3]];
    }
  }

  function Encode(s: string): (b: seq<Byte>)
    ensures |b| >= |s|
  {
    if s == "" then [] else EncodeChar(s[0]) + Encode(s[1..])
  }

  function Decode(b: seq<Byte>): Option<string> {
    if b == [] then Some("")
    else
      match DecodeChar(b)
      case None => None
      case Some((c, n)) =>
        match Decode(b[n..])
        case None => None
        case Some(rest) => Some([c] + rest)
  }

  lemma {:induction false} RoundTrip(s: string)
    ensures Decode(Encode(s)) == Some(s)
  {
    if s != "" {
      var rest := Encode(s[1..]);
      CharRoundTrip(s[0], rest);
      assert Encode(s)[|EncodeChar(s[0])|..] == rest;
      RoundTrip(s[1..]);
      assert [s[0]] + s[1..] == s;
    }
  }

  /** Bytes that decode are the encoding of what they decode to. */
  lemma {:induction false} Canonical(b: seq<Byte>)
    requires Decode(b).Some?
    ensures Encode(Decode(b).value) == b
  {
    if b != [] {
      var (c, n) := DecodeChar(b).value;
      CharIsCanonical(b);
      Canonical(b[n..]);
      EncodeCons(b, n, c, Decode(b[n..]).value);
    }
  }

  lemma EncodeCons(b: seq<Byte>, n: nat, c: char, s: string)
    requires n <= |b| && EncodeChar(c) == b[..n] && Encode(s) == b[n..]
    ensures Encode([c] + s) == b
  {
    assert ([c] + s)[1..] == s;
    assert b == b[..n] + b[n..];
  }

  /** One character of each length, with the bytes of the tables in use everywhere. */
  lemma KnownCharacters()
    ensures EncodeChar('A') == [0x41] && EncodeChar('\U{7F}') == [0x7F]
    ensures EncodeChar('\U{80}') == [0xC2, 0x80] && EncodeChar('\U{E9}') == [0xC3, 0xA9]
    ensures EncodeChar('\U{800}') == [0xE0, 0xA0, 0x80] && EncodeChar('\U{20AC}') == [0xE2, 0x82, 0xAC]
    ensures EncodeChar('\U{10000}') == [0xF0, 0x90, 0x80, 0x80] && EncodeChar('\U{1F600}') == [0xF0, 0x9F, 0x98, 0x80]
    ensures EncodeChar('\U{10FFFF}') == [0xF4, 0x8F, 0xBF, 0xBF]
  {
  }

  /** What is not UTF-8: a continuation in front, a cut character, an overlong form, a surrogate, and
      what is above U+10FFFF. */
  lemma RefusedBytes()
    ensures Decode([0x80]) == None && Decode([0xC3]) == None && Decode([0xC0, 0x80]) == None
    ensures Decode([0xED, 0xA0, 0x80]) == None && Decode([0xF4, 0x90, 0x80, 0x80]) == None
  {
  }
}
