/** The choice of dictionary for the SM codec: repeated tokens, most saving first. */
module SmDictionary {
  import SmTokens
  import opened Bytes
  import opened Options

  // ----- tokens -----

  predicate Letter(c: char) { 'A' <= c <= 'Z' || 'a' <= c <= 'z' || c == '_' }

  predicate WordChar(c: char) { Letter(c) || '0' <= c <= '9' }

  predicate Blank(c: char) { c == ' ' || c == '\t' }

  predicate Other(c: char) { !Letter(c) && c != '\n' }

  function EndWhile(p: char -> bool, t: string, i: nat): (r: nat)
    requires i <= |t|
    ensures i <= r <= |t|
    ensures forall k :: i <= k < r ==> p(t[k])
    ensures r < |t| ==> !p(t[r])
    decreases |t| - i
  {
    if i < |t| && p(t[i]) then EndWhile(p, t, i + 1) else i
  }

  /** Where the match of TOKEN_RE at `p` ends; `p` itself when there is none. */
  function MatchEnd(t: string, p: nat): (r: nat)
    requires p < |t|
    ensures p <= r <= |t|
  {
    if Letter(t[p]) then
      var e := EndWhile(WordChar, t, p + 1);
      if e - p >= 3 then e else p
    else if t[p] == '\n' then EndWhile(Blank, t, p + 1)
    else EndWhile(Other, t, p + 1)
  }

  /** TOKEN_RE.findall from `p` on. */
  function Tokens(t: string, p: nat): seq<string>
    requires p <= |t|
    decreases |t| - p
  {
    if p == |t| then []
    else if MatchEnd(t, p) == p then Tokens(t, p + 1)
    else [t[p..MatchEnd(t, p)]] + Tokens(t, MatchEnd(t, p))
  }

  method FindAll(t: string) returns (tokens: seq<string>)
    ensures tokens == Tokens(t, 0)
  {
    var p := 0;
    tokens := [];
    while p < |t|
      invariant p <= |t|
      invariant tokens + Tokens(t, p) == Tokens(t, 0)
    {
      var end := MatchEnd(t, p);
      if end == p {
        p := p + 1;
      } else {
        assert tokens + ([t[p..end]] + Tokens(t, end)) == (tokens + [t[p..end]]) + Tokens(t, end);
        tokens := tokens + [t[p..end]];
        p := end;
      }
    }
  }

  function Count(tokens: seq<string>, token: string): nat {
    if tokens == [] then 0
    else Count(tokens[..|tokens| - 1], token) + if tokens[|tokens| - 1] == token then 1 else 0
  }

  /** Counter(tokens): the distinct tokens in order of appearance, with their counts. */
  ghost predicate IsCounter(tokens: seq<string>, keys: seq<string>, counts: map<string, nat>) {
    && (forall i, j :: 0 <= i < j < |keys| ==> keys[i] != keys[j])
    && (forall k :: k in keys <==> k in counts)
    && (forall k :: k in counts <==> Count(tokens, k) > 0)
    && (forall k :: k in counts ==> counts[k] == Count(tokens, k))
  }

  method CountTokens(tokens: seq<string>) returns (keys: seq<string>, counts: map<string, nat>)
    ensures IsCounter(tokens, keys, counts)
  {
    keys, counts := [], map[];
    for i := 0 to |tokens|
      invariant IsCounter(tokens[..i], keys, counts)
    {
      assert tokens[..i + 1][..i] == tokens[..i];
      var token := tokens[i];
      if token in counts {
        counts := counts[token := counts[token] + 1];
      } else {
        keys, counts := keys + [token], counts[token := 1];
      }
    }
    assert tokens[..|tokens|] == tokens;
  }

  // ----- ranking -----

  /** The order of code points. */
  predicate Less(a: string, b: string) {
    b != "" && (a == "" || a[0] < b[0] || (a[0] == b[0] && Less(a[1..], b[1..])))
  }

  lemma {:induction false} LessIsTotal(a: string, b: string)
    ensures a == b || Less(a, b) || Less(b, a)
  {
    if a != "" && b != "" && a[0] == b[0] {
      LessIsTotal(a[1..], b[1..]);
      assert a == [a[0]] + a[1..] && b == [b[0]] + b[1..];
    }
  }

  lemma {:induction false} LessIsStrict(a: string, b: string)
    requires Less(a, b)
    ensures a != b && !Less(b, a)
  {
    if a != "" && a[0] == b[0] {
      LessIsStrict(a[1..], b[1..]);
    }
  }

  lemma {:induction false} LessIsTransitive(a: string, b: string, c: string)
    requires Less(a, b) && Less(b, c)
    ensures Less(a, c)
  {
    if a != "" && a[0] == b[0] == c[0] {
      LessIsTransitive(a[1..], b[1..], c[1..]);
    }
  }

  datatype Scored = Scored(saving: int, token: string)

  /** The sort key: more saving first, then by the token itself. */
  predicate Ahead(x: Scored, y: Scored) {
    x.saving > y.saving || (x.saving == y.saving && Less(x.token, y.token))
  }

  lemma AheadIsTransitive(x: Scored, y: Scored, z: Scored)
    requires Ahead(x, y) && Ahead(y, z)
    ensures Ahead(x, z)
  {
    if x.saving == z.saving {
      LessIsTransitive(x.token, y.token, z.token);
    }
  }

  ghost predicate Ranked(s: seq<Scored>) {
    forall i, j :: 0 <= i < j < |s| ==> Ahead(s[i], s[j])
  }

  function Insert(x: Scored, s: seq<Scored>): (r: seq<Scored>)
    ensures |r| == |s| + 1
    ensures forall y :: y in r <==> y == x || y in s
  {
    if s == [] then [x]
    else if Ahead(x, s[0]) then [x] + s
    else [s[0]] + Insert(x, s[1..])
  }

  function Sorted(s: seq<Scored>): (r: seq<Scored>)
    ensures |r| == |s|
    ensures forall y :: y in r <==> y in s
  {
    if s == [] then [] else Insert(s[|s| - 1], Sorted(s[..|s| - 1]))
  }

  lemma {:induction false} InsertRanks(x: Scored, s: seq<Scored>)
    requires Ranked(s) && forall y :: y in s ==> y.token != x.token
    ensures Ranked(Insert(x, s))
  {
    if s != [] {
      var first, rest := s[0], s[1..];
      if Ahead(x, first) {
        forall y | y in s
          ensures Ahead(x, y)
        {
          if y != first {
            AheadIsTransitive(x, first, y);
          }
        }
      } else {
        LessIsTotal(x.token, first.token);
        InsertRanks(x, rest);
        assert forall y :: y in Insert(x, rest) ==> Ahead(first, y);
      }
    }
  }

  lemma {:induction false} SortedIsRanked(s: seq<Scored>)
    requires forall i, j :: 0 <= i < j < |s| ==> s[i].token != s[j].token
    ensures Ranked(Sorted(s))
  {
    if s != [] {
      SortedIsRanked(s[..|s| - 1]);
      InsertRanks(s[|s| - 1], Sorted(s[..|s| - 1]));
    }
  }

  // ----- the dictionary -----

  const MAX_ENTRIES: nat := 240

  function Saving(tokens: seq<string>, token: string): int {
    (|token| - 2) * Count(tokens, token)
  }

  function Score(tokens: seq<string>, token: string): Scored {
    Scored(Saving(tokens, token), token)
  }

  predicate Eligible(tokens: seq<string>, token: string) {
    Count(tokens, token) >= 2 && |token| >= 3 && Saving(tokens, token) > 3
  }

  /** The `limit` best eligible tokens, in order: every entry is eligible and ahead of those after it,
      and an eligible token is only missing when there are `limit` others ahead of it. */
  ghost predicate IsBest(tokens: seq<string>, d: seq<string>, limit: nat) {
    && |d| <= limit
    && (forall i :: 0 <= i < |d| ==> Eligible(tokens, d[i]))
    && (forall i, j :: 0 <= i < j < |d| ==> Ahead(Score(tokens, d[i]), Score(tokens, d[j])))
    && (forall t :: Eligible(tokens, t) && t !in d ==>
          |d| == limit && forall i :: 0 <= i < |d| ==> Ahead(Score(tokens, d[i]), Score(tokens, t)))
  }

  /** There is one such dictionary only. */
  lemma BestIsUnique(tokens: seq<string>, d: seq<string>, e: seq<string>, limit: nat)
    requires IsBest(tokens, d, limit) && IsBest(tokens, e, limit)
    ensures d == e
  {
    BestPrefix(tokens, d, e, limit, if |d| <= |e| then |d| else |e|);
    if |d| <= |e| {
      SameLength(tokens, d, e, limit);
    } else {
      SameLength(tokens, e, d, limit);
    }
  }

  lemma {:induction false} BestPrefix(tokens: seq<string>, d: seq<string>, e: seq<string>, limit: nat, k: nat)
    requires IsBest(tokens, d, limit) && IsBest(tokens, e, limit) && k <= |d| && k <= |e|
    ensures d[..k] == e[..k]
  {
    if k > 0 {
      BestPrefix(tokens, d, e, limit, k - 1);
      NotAhead(tokens, d, e, limit, k - 1);
      NotAhead(tokens, e, d, limit, k - 1);
      LessIsTotal(d[k - 1], e[k - 1]);
    }
  }

  /** After equal beginnings neither dictionary goes on with a better token than the other. */
  lemma NotAhead(tokens: seq<string>, d: seq<string>, e: seq<string>, limit: nat, k: nat)
    requires IsBest(tokens, d, limit) && IsBest(tokens, e, limit) && k < |d| && k < |e| && d[..k] == e[..k]
    ensures !Ahead(Score(tokens, d[k]), Score(tokens, e[k]))
  {
    forall j | 0 <= j < k
      ensures e[j] != d[k]
    {
      assert e[j] == e[..k][j] == d[..k][j] == d[j];
      EarlierDiffers(tokens, d, limit, j, k);
    }
    if d[k] in e {
      var j :| 0 <= j < |e| && e[j] == d[k];
      NotBothAhead(Score(tokens, e[k]), Score(tokens, e[j]));
    } else {
      NotBothAhead(Score(tokens, e[k]), Score(tokens, d[k]));
    }
  }

  lemma EarlierDiffers(tokens: seq<string>, d: seq<string>, limit: nat, j: nat, k: nat)
    requires IsBest(tokens, d, limit) && j < k < |d|
    ensures d[j] != d[k]
  {
    NotBothAhead(Score(tokens, d[j]), Score(tokens, d[k]));
  }

  lemma SameLength(tokens: seq<string>, d: seq<string>, e: seq<string>, limit: nat)
    requires IsBest(tokens, d, limit) && IsBest(tokens, e, limit) && |d| <= |e| && d == e[..|d|]
    ensures |d| == |e|
  {
    if |d| < |e| {
      forall j | 0 <= j < |d|
        ensures d[j] != e[|d|]
      {
        EarlierDiffers(tokens, e, limit, j, |d|);
      }
      FullWithout(tokens, d, limit, e[|d|]);
    }
  }

  lemma FullWithout(tokens: seq<string>, d: seq<string>, limit: nat, t: string)
    requires IsBest(tokens, d, limit) && Eligible(tokens, t) && forall j :: 0 <= j < |d| ==> d[j] != t
    ensures |d| == limit
  {
    assert t !in d;
  }

  /** At most one of two tokens is ahead of the other, and none of itself. */
  lemma NotBothAhead(x: Scored, y: Scored)
    ensures !(Ahead(x, y) && Ahead(y, x))
    ensures Ahead(x, y) ==> x != y
  {
    if Less(x.token, y.token) {
      LessIsStrict(x.token, y.token);
    }
  }

  method BuildDictionary(text: string) returns (d: seq<string>)
    ensures IsBest(Tokens(text, 0), d, MAX_ENTRIES)
  {
    var tokens := FindAll(text);
    var keys, counts := CountTokens(tokens);
    var scored := ScoreTokens(tokens, keys, counts);
    var ranked := Sorted(scored);
    SortedIsRanked(scored);
    AllEligible(tokens, keys, counts, scored);
    d := TakeTokens(ranked, if |ranked| < MAX_ENTRIES then |ranked| else MAX_ENTRIES);
    TakenIsBest(tokens, ranked, d);
  }

  /** The loop that fills `scored`. */
  method ScoreTokens(ghost tokens: seq<string>, keys: seq<string>, counts: map<string, nat>)
    returns (scored: seq<Scored>)
    requires IsCounter(tokens, keys, counts)
    ensures ScoredUpTo(tokens, keys, |keys|, scored)
  {
    scored := [];
    for i := 0 to |keys|
      invariant ScoredUpTo(tokens, keys, i, scored)
    {
      NextScored(tokens, keys, i, scored);
      var token := keys[i];
      var count := counts[token];
      if count < 2 || |token| < 3 {
        continue;
      }
      var saving := (|token| - 2) * count;
      if saving > 3 {
        scored := scored + [Scored(saving, token)];
      }
    }
  }

  lemma NextScored(tokens: seq<string>, keys: seq<string>, i: nat, scored: seq<Scored>)
    requires i < |keys| && ScoredUpTo(tokens, keys, i, scored) && keys[i] !in keys[..i]
    ensures ScoredUpTo(tokens, keys, i + 1,
                       if Eligible(tokens, keys[i]) then scored + [Score(tokens, keys[i])] else scored)
  {
    assert keys[..i + 1] == keys[..i] + [keys[i]];
  }

  /** `scored` holds the eligible ones of the first `n` keys. */
  ghost predicate ScoredUpTo(tokens: seq<string>, keys: seq<string>, n: nat, scored: seq<Scored>)
    requires n <= |keys|
  {
    && (forall x :: x in scored ==> Eligible(tokens, x.token) && x == Score(tokens, x.token) && x.token in keys[..n])
    && (forall k :: 0 <= k < n && Eligible(tokens, keys[k]) ==> Score(tokens, keys[k]) in scored)
    && (forall i, j :: 0 <= i < j < |scored| ==> scored[i].token != scored[j].token)
  }

  lemma AllEligible(tokens: seq<string>, keys: seq<string>, counts: map<string, nat>, scored: seq<Scored>)
    requires IsCounter(tokens, keys, counts) && ScoredUpTo(tokens, keys, |keys|, scored)
    ensures forall t :: Eligible(tokens, t) ==> Score(tokens, t) in scored
  {
    forall t | Eligible(tokens, t)
      ensures Score(tokens, t) in scored
    {
      assert t in keys;
      var k :| 0 <= k < |keys| && keys[k] == t;
    }
  }

  function TakeTokens(ranked: seq<Scored>, n: nat): (d: seq<string>)
    requires n <= |ranked|
    ensures |d| == n && forall i :: 0 <= i < n ==> d[i] == ranked[i].token
  {
    seq(n, i requires 0 <= i < n => ranked[i].token)
  }

  lemma TakenIsBest(tokens: seq<string>, ranked: seq<Scored>, d: seq<string>)
    requires Ranked(ranked)
    requires forall x :: x in ranked ==> Eligible(tokens, x.token) && x == Score(tokens, x.token)
    requires forall t :: Eligible(tokens, t) ==> Score(tokens, t) in ranked
    requires |d| == if |ranked| < MAX_ENTRIES then |ranked| else MAX_ENTRIES
    requires forall i :: 0 <= i < |d| ==> d[i] == ranked[i].token
    ensures IsBest(tokens, d, MAX_ENTRIES)
  {
    forall i | 0 <= i < |d|
      ensures Score(tokens, d[i]) == ranked[i] && Eligible(tokens, d[i])
    {
      assert ranked[i] in ranked;
    }
    forall t | Eligible(tokens, t) && t !in d
      ensures |d| == MAX_ENTRIES && forall i :: 0 <= i < |d| ==> Ahead(Score(tokens, d[i]), Score(tokens, t))
    {
      var k :| 0 <= k < |ranked| && ranked[k] == Score(tokens, t);
      if k < |d| {
        TakenHas(ranked, d, k);
      }
    }
  }

  lemma TakenHas(ranked: seq<Scored>, d: seq<string>, k: nat)
    requires k < |d| <= |ranked| && d[k] == ranked[k].token
    ensures ranked[k].token in d
  {
  }

  /** Every text has a stream under the dictionary built for it, the stream is read back to the text,
      and it is no longer than the text written out. */
  lemma BuiltDictionaryRoundTrip(text: string, d: seq<string>)
    requires IsBest(Tokens(text, 0), d, MAX_ENTRIES)
    ensures var stream := SmTokens.Tokenized(text, d);
            stream.Some? && SmTokens.Detokenized(stream.value, d) == Some(text) &&
            |stream.value| + 4 * SmTokens.References(text, d) <= SmTokens.Width(text)
  {
    SmTokens.SmallDictionarySuffices(text, d);
    SmTokens.RoundTrip(text, d);
    SmTokens.ReferencesSave(text, d);
    SmTokens.PlainSize(text);
  }

  // ----- the choice in other words -----

  /** Occurrences of a token, counted as a set of positions. */
  lemma {:induction false} CountIsPositions(tokens: seq<string>, token: string)
    ensures Count(tokens, token) == |set i | 0 <= i < |tokens| && tokens[i] == token|
  {
    if tokens != [] {
      var n := |tokens| - 1;
      CountIsPositions(tokens[..n], token);
      var before := set i | 0 <= i < |tokens[..n]| && tokens[..n][i] == token;
      var after := set i | 0 <= i < |tokens| && tokens[i] == token;
      assert after == before + if tokens[n] == token then {n} else {};
    }
  }

  /** A token is eligible that occurs twice or more, has three characters or more, and saves more than
      three: its length less two, for each occurrence. A dictionary has at most 240 of them, and leaves
      one out only when it has 240. */
  lemma EligibleExactly(tokens: seq<string>, d: seq<string>, token: string)
    ensures var n := |set i | 0 <= i < |tokens| && tokens[i] == token|;
            Eligible(tokens, token) <==> n >= 2 && |token| >= 3 && (|token| - 2) * n > 3
    ensures IsBest(tokens, d, MAX_ENTRIES) ==>
              |d| <= 240 && (Eligible(tokens, token) && token !in d ==> |d| == 240)
  {
    CountIsPositions(tokens, token);
  }

  /** The rank: more saving first, and of equal savings the text that comes first by code points, which
      at the first difference has the smaller character or has ended. */
  lemma AheadExactly(x: Scored, y: Scored)
    ensures Ahead(x, y) <==>
            x.saving > y.saving || (x.saving == y.saving && exists n :: FirstDifference(x.token, y.token, n))
  {
    LessExactly(x.token, y.token);
  }

  predicate FirstDifference(a: string, b: string, n: nat) {
    n <= |a| && n < |b| && a[..n] == b[..n] && (n < |a| ==> a[n] < b[n])
  }

  lemma {:induction false} LessExactly(a: string, b: string)
    ensures Less(a, b) <==> exists n :: FirstDifference(a, b, n)
  {
    if Less(a, b) {
      var n := DifferenceOf(a, b);
    }
    if n: nat :| FirstDifference(a, b, n) {
      LessAt(a, b, n);
    }
  }

  lemma {:induction false} DifferenceOf(a: string, b: string) returns (n: nat)
    requires Less(a, b)
    ensures FirstDifference(a, b, n)
  {
    n := 0;
    if a != "" && a[0] == b[0] {
      var m := DifferenceOf(a[1..], b[1..]);
      n := m + 1;
      assert a[..n] == [a[0]] + a[1..][..m] && b[..n] == [b[0]] + b[1..][..m];
    }
  }

  lemma {:induction false} LessAt(a: string, b: string, n: nat)
    requires FirstDifference(a, b, n)
    ensures Less(a, b)
  {
    if n > 0 {
      assert a[0] == a[..n][0] == b[..n][0] == b[0];
      assert a[1..][..n - 1] == a[..n][1..] && b[1..][..n - 1] == b[..n][1..];
      LessAt(a[1..], b[1..], n - 1);
    }
  }

  /** What the regular expression finds: words of three characters or more, a line end with the blanks
      behind it, and runs of anything else; shorter words are passed over. */
  lemma TokensExample()
    ensures Tokens("ab a_1\n\tz", 0) == [" ", "a_1", "\n\t"]
  {
    var t := "ab a_1\n\tz";
    assert EndWhile(WordChar, t, 9) == 9 && EndWhile(WordChar, t, 1) == 2 && EndWhile(WordChar, t, 2) == 2;
    assert EndWhile(Other, t, 3) == 3 && EndWhile(WordChar, t, 4) == 6;
    assert EndWhile(Blank, t, 7) == 8;
    assert MatchEnd(t, 0) == 0 && MatchEnd(t, 1) == 1 && MatchEnd(t, 2) == 3 && MatchEnd(t, 3) == 6;
    assert MatchEnd(t, 6) == 8 && MatchEnd(t, 8) == 8;
    assert Tokens(t, 9) == [] && Tokens(t, 8) == [];
    assert t[6..8] == "\n\t" && t[3..6] == "a_1" && t[2..3] == " ";
    assert Tokens(t, 6) == ["\n\t"] && Tokens(t, 3) == ["a_1", "\n\t"];
    assert Tokens(t, 2) == [" ", "a_1", "\n\t"] && Tokens(t, 1) == Tokens(t, 2);
  }

  predicate AsciiLetter(c: char) {
    'A' <= c <= 'Z' || 'a' <= c <= 'z' || c == '_'
  }

  predicate WordStops(t: string, k: nat) {
    k == |t| || (k < |t| && !AsciiLetter(t[k]) && !('0' <= t[k] <= '9'))
  }

  /** A match at a letter is a whole word of three characters or more; at a line end it is that with all
      blanks behind it; anywhere else it is everything up to the next letter or line end. */
  lemma MatchExactly(t: string, p: nat)
    requires p < |t|
    ensures var e := MatchEnd(t, p);
            if AsciiLetter(t[p]) then
              && (forall k :: p <= k < e ==> AsciiLetter(t[k]) || '0' <= t[k] <= '9')
              && (e > p ==> e >= p + 3 && (e < |t| ==> !AsciiLetter(t[e]) && !('0' <= t[e] <= '9')))
              && (e == p ==> WordStops(t, p + 1) || WordStops(t, p + 2))
            else if t[p] == '\n' then
              && e > p && (forall k :: p < k < e ==> t[k] == ' ' || t[k] == '\t')
              && (e < |t| ==> t[e] != ' ' && t[e] != '\t')
            else
              && e > p && (forall k :: p <= k < e ==> !AsciiLetter(t[k]) && t[k] != '\n')
              && (e < |t| ==> AsciiLetter(t[e]) || t[e] == '\n')
  {
    if AsciiLetter(t[p]) && MatchEnd(t, p) == p {
      var e := EndWhile(WordChar, t, p + 1);
      assert p < e <= p + 2 && WordStops(t, e);
    }
  }
}
