/** The n-gram counts of the small causal language model, and the cutting of texts into samples.

    Losses are floating point and left out. */
module LanguageModel {

  const MAX_ORDER: int := 8

  type Bucket = map<char, nat>
  type Table = map<string, Bucket>

  // ----- what the table should hold -----

  /** prefix[-order:] */
  function Context(prefix: string, order: nat): string {
    if |prefix| <= order then prefix else prefix[|prefix| - order..]
  }

  /** At how many positions of the text `ch` follows the context `ctx`. */
  function Occurrences(text: string, order: nat, ctx: string, ch: char): nat {
    if text == "" then 0
    else
      var init := text[..|text| - 1];
      Occurrences(init, order, ctx, ch) + if Context(init, order) == ctx && text[|text| - 1] == ch then 1 else 0
  }

  /** At `i` stands `ch`, and `ctx` is the `order` characters before it, fewer only where the text has
      no more. */
  predicate Follows(text: string, order: nat, ctx: string, ch: char, i: int) {
    0 <= i < |text| && text[i] == ch &&
    |ctx| == (if i <= order then i else order) &&
    forall k :: 0 <= k < |ctx| ==> ctx[k] == text[i - |ctx| + k]
  }

  ghost function Positions(text: string, order: nat, ctx: string, ch: char): set<int> {
    set i | 0 <= i < |text| && Follows(text, order, ctx, ch, i)
  }

  /** Occurrences, counted as a set of positions. */
  lemma {:induction false} OccurrencesArePositions(text: string, order: nat, ctx: string, ch: char)
    ensures Occurrences(text, order, ctx, ch) == |Positions(text, order, ctx, ch)|
  {
    if text != "" {
      OccurrencesArePositions(text[..|text| - 1], order, ctx, ch);
      PositionsOfNext(text, order, ctx, ch);
      FollowsLast(text, order, ctx, ch);
    }
  }

  lemma PositionsOfNext(text: string, order: nat, ctx: string, ch: char)
    requires text != ""
    ensures var n := |text| - 1;
            var before := Positions(text[..n], order, ctx, ch);
            && n !in before
            && Positions(text, order, ctx, ch) == before + if Follows(text, order, ctx, ch, n) then {n} else {}
  {
    forall i | 0 <= i < |text| - 1
      ensures Follows(text[..|text| - 1], order, ctx, ch, i) <==> Follows(text, order, ctx, ch, i)
    {
      FollowsInside(text, order, ctx, ch, i);
    }
  }

  lemma FollowsInside(text: string, order: nat, ctx: string, ch: char, i: nat)
    requires i < |text| - 1
    ensures Follows(text[..|text| - 1], order, ctx, ch, i) <==> Follows(text, order, ctx, ch, i)
  {
  }

  lemma FollowsLast(text: string, order: nat, ctx: string, ch: char)
    requires text != ""
    ensures var n := |text| - 1;
            Follows(text, order, ctx, ch, n) <==> Context(text[..n], order) == ctx && text[n] == ch
  {
    var n := |text| - 1;
    var last := Context(text[..n], order);
    assert forall k :: 0 <= k < |last| ==> last[k] == text[n - |last| + k];
  }

  function AllOccurrences(texts: seq<string>, order: nat, ctx: string, ch: char): nat {
    if texts == [] then 0
    else AllOccurrences(texts[..|texts| - 1], order, ctx, ch) + Occurrences(texts[|texts| - 1], order, ctx, ch)
  }

  function Length(texts: seq<string>): nat {
    if texts == [] then 0 else Length(texts[..|texts| - 1]) + |texts[|texts| - 1]|
  }

  function CountIn(t: Table, ctx: string, ch: char): nat {
    if ctx in t && ch in t[ctx] then t[ctx][ch] else 0
  }

  /** Only positive counts are stored. */
  ghost predicate Positive(t: Table) {
    forall ctx {:trigger t[ctx]} :: ctx in t ==> t[ctx] != map[] && forall ch :: ch in t[ctx] ==> t[ctx][ch] > 0
  }

  /** The table counts these texts, and the characters of one more up to a point. */
  ghost predicate Counts(t: Table, order: nat, texts: seq<string>, part: string) {
    && Positive(t)
    && forall ctx, ch {:trigger CountIn(t, ctx, ch)} ::
         CountIn(t, ctx, ch) == AllOccurrences(texts, order, ctx, ch) + Occurrences(part, order, ctx, ch)
  }

  // ----- sums over maps -----

  ghost function Sum<K(!new)>(m: map<K, nat>): nat {
    if m == map[] then 0
    else
      var k :| k in m;
      m[k] + Sum(m - {k})
  }

  lemma {:induction false} SumWithout<K(!new)>(m: map<K, nat>, k: K)
    requires k in m
    ensures Sum(m) == m[k] + Sum(m - {k})
    decreases |m|
  {
    var j :| j in m && Sum(m) == m[j] + Sum(m - {j});
    if j != k {
      SumWithout(m - {j}, k);
      SumWithout(m - {k}, j);
      assert m - {j} - {k} == m - {k} - {j};
    }
  }

  lemma SumUpdated<K(!new)>(m: map<K, nat>, k: K, v: nat)
    ensures Sum(m[k := v]) == Sum(m) - (if k in m then m[k] else 0) + v
  {
    SumWithout(m[k := v], k);
    if k in m {
      SumWithout(m, k);
      assert m[k := v] - {k} == m - {k};
    } else {
      assert m[k := v] - {k} == m;
    }
  }

  ghost function Totals(t: Table): map<string, nat> {
    map ctx | ctx in t :: Sum(t[ctx])
  }

  /** All counts together. */
  ghost function Total(t: Table): nat {
    Sum(Totals(t))
  }

  // ----- one character -----

  /** What the innermost statement makes of the table. */
  function Bumped(t: Table, ctx: string, ch: char): Table {
    t[ctx := (if ctx in t then t[ctx] else map[])[ch := CountIn(t, ctx, ch) + 1]]
  }

  lemma BumpedTotal(t: Table, ctx: string, ch: char)
    ensures Total(Bumped(t, ctx, ch)) == Total(t) + 1
  {
    var bucket: Bucket := if ctx in t then t[ctx] else map[];
    var longer := bucket[ch := CountIn(t, ctx, ch) + 1];
    SumUpdated(bucket, ch, CountIn(t, ctx, ch) + 1);
    assert Totals(Bumped(t, ctx, ch)) == Totals(t)[ctx := Sum(longer)];
    SumUpdated(Totals(t), ctx, Sum(longer));
  }

  lemma BumpedCounts(t: Table, order: nat, texts: seq<string>, text: string, i: nat)
    requires i < |text| && Counts(t, order, texts, text[..i])
    ensures Counts(Bumped(t, Context(text[..i], order), text[i]), order, texts, text[..i + 1])
  {
    var here, now := Context(text[..i], order), Bumped(t, Context(text[..i], order), text[i]);
    BumpedPositive(t, here, text[i]);
    forall ctx, ch
      ensures CountIn(now, ctx, ch) ==
              AllOccurrences(texts, order, ctx, ch) + Occurrences(text[..i + 1], order, ctx, ch)
    {
      assert text[..i + 1][..i] == text[..i];
      assert CountIn(now, ctx, ch) == CountIn(t, ctx, ch) + if ctx == here && ch == text[i] then 1 else 0;
    }
  }

  lemma BumpedPositive(t: Table, ctx: string, ch: char)
    requires Positive(t)
    ensures Positive(Bumped(t, ctx, ch))
  {
    assert ch in Bumped(t, ctx, ch)[ctx];
  }

  lemma TextCounted(t: Table, order: nat, texts: seq<string>, text: string)
    requires Counts(t, order, texts, text)
    ensures Counts(t, order, texts + [text], "")
  {
    forall ctx, ch
      ensures CountIn(t, ctx, ch) == AllOccurrences(texts + [text], order, ctx, ch)
    {
      assert (texts + [text])[..|texts|] == texts;
    }
  }

  // ----- the model -----

  function Repeated(texts: seq<string>, n: nat): seq<string> {
    if n == 0 then [] else Repeated(texts, n - 1) + texts
  }

  /** [str(t) for t in texts if str(t)] */
  function Clean(texts: seq<string>): (r: seq<string>)
    ensures forall t :: t in r <==> t in texts && t != ""
  {
    if texts == [] then []
    else Clean(texts[..|texts| - 1]) + if texts[|texts| - 1] == "" then [] else [texts[|texts| - 1]]
  }

  lemma Prefixes<T>(before: seq<T>, s: seq<T>)
    ensures before + s[..0] == before && before + s[..|s|] == before + s
  {
    assert s[..|s|] == s;
  }

  lemma OneMoreText<T>(before: seq<T>, s: seq<T>, i: nat)
    requires i < |s|
    ensures before + s[..i] + [s[i]] == before + s[..i + 1]
  {
  }

  class TinyCausalLM {
    const order: nat
    var transitions: Table
    var trainedTokens: nat
    /** Every text trained on, once per epoch. */
    ghost var trained: seq<string>

    ghost predicate Valid()
      reads this
    {
      && 1 <= order <= MAX_ORDER
      && Counts(transitions, order, trained, "")
      && trainedTokens == Length(trained) == Total(transitions)
    }

    constructor (order: int)
      ensures Valid() && trained == []
      ensures this.order == if order < 1 then 1 else if order > 8 then 8 else order
    {
      this.order := if order < 1 then 1 else if order > MAX_ORDER then MAX_ORDER else order;
      transitions, trainedTokens, trained := map[], 0, [];
    }

    method Train(texts: seq<string>, epochs: int)
      requires Valid()
      modifies this
      ensures Valid()
      ensures trained == old(trained) + Repeated(Clean(texts), if epochs < 1 then 1 else epochs)
    {
      var clean := Clean(texts);
      if clean == [] {
        RepeatedNothing(if epochs < 1 then 1 else epochs);
        assert trained + [] == trained;
        return;
      }
      var n := if epochs < 1 then 1 else epochs;
      ghost var before := trained;
      assert before + Repeated(clean, 0) == before;
      for epoch := 0 to n
        invariant Valid() && trained == before + Repeated(clean, epoch)
      {
        TrainOnce(clean);
        OneEpochMore(before, clean, epoch);
      }
    }

    /** One epoch. */
    method TrainOnce(clean: seq<string>)
      requires Valid()
      modifies this
      ensures Valid() && trained == old(trained) + clean
    {
      Prefixes(trained, clean);
      for i := 0 to |clean|
        invariant Valid() && trained == old(trained) + clean[..i]
      {
        TrainText(clean[i]);
        OneMoreText(old(trained), clean, i);
      }
    }

    method CountCharacter(ctx: string, ch: char, ghost text: string, ghost i: nat)
      requires i < |text| && ctx == Context(text[..i], order) && ch == text[i]
      requires Reading(transitions, order, trained, text[..i], trainedTokens)
      modifies this`transitions, this`trainedTokens
      ensures Reading(transitions, order, trained, text[..i + 1], trainedTokens)
    {
      CharacterRead(transitions, order, trained, text, i, trainedTokens);
      Bump(ctx, ch);
      trainedTokens := trainedTokens + 1;
    }

    method Bump(ctx: string, ch: char)
      modifies this`transitions
      ensures transitions == Bumped(old(transitions), ctx, ch)
    {
      var bucket: Bucket := if ctx in transitions then transitions[ctx] else map[];
      bucket := bucket[ch := (if ch in bucket then bucket[ch] else 0) + 1];
      transitions := transitions[ctx := bucket];
    }

    /** The inner loop. */
    method TrainText(text: string)
      requires Valid()
      modifies this
      ensures Valid() && trained == old(trained) + [text]
    {
      var history := "";
      StartReading(transitions, order, trained, text, trainedTokens);
      for i := 0 to |text|
        invariant history == text[..i] && trained == old(trained)
        invariant Reading(transitions, order, trained, text[..i], trainedTokens)
      {
        CountCharacter(Context(history, order), text[i], text, i);
        history := history + [text[i]];
        assert history == text[..i + 1];
      }
      TextRead(transitions, order, trained, text, trainedTokens);
      trained := trained + [text];
    }
  }

  /** In the middle of a text. */
  ghost predicate Reading(t: Table, order: nat, texts: seq<string>, part: string, tokens: nat) {
    Counts(t, order, texts, part) && tokens == Length(texts) + |part| == Total(t)
  }

  lemma CharacterRead(t: Table, order: nat, texts: seq<string>, text: string, i: nat, tokens: nat)
    requires i < |text| && Reading(t, order, texts, text[..i], tokens)
    ensures Reading(Bumped(t, Context(text[..i], order), text[i]), order, texts, text[..i + 1], tokens + 1)
  {
    BumpedCounts(t, order, texts, text, i);
    BumpedTotal(t, Context(text[..i], order), text[i]);
  }

  lemma StartReading(t: Table, order: nat, texts: seq<string>, text: string, tokens: nat)
    requires Counts(t, order, texts, "") && tokens == Length(texts) == Total(t)
    ensures Reading(t, order, texts, text[..0], tokens)
  {
    assert text[..0] == "";
  }

  lemma TextRead(t: Table, order: nat, texts: seq<string>, text: string, tokens: nat)
    requires Reading(t, order, texts, text[..|text|], tokens)
    ensures Counts(t, order, texts + [text], "") && tokens == Length(texts + [text]) == Total(t)
  {
    assert text[..|text|] == text;
    TextCounted(t, order, texts, text);
    assert (texts + [text])[..|texts|] == texts;
  }

  lemma OneEpochMore(before: seq<string>, clean: seq<string>, n: nat)
    ensures before + Repeated(clean, n) + clean == before + Repeated(clean, n + 1)
  {
    assert before + (Repeated(clean, n) + clean) == (before + Repeated(clean, n)) + clean;
  }

  lemma {:induction false} RepeatedNothing(n: nat)
    ensures Repeated([], n) == []
  {
    if n > 0 {
      RepeatedNothing(n - 1);
    }
  }

  // ----- what the counts mean -----

  /** Training again on the same texts multiplies their counts. */
  lemma {:induction false} EpochsMultiply(texts: seq<string>, n: nat, order: nat, ctx: string, ch: char)
    ensures AllOccurrences(Repeated(texts, n), order, ctx, ch) == n * AllOccurrences(texts, order, ctx, ch)
  {
    if n > 0 {
      EpochsMultiply(texts, n - 1, order, ctx, ch);
      OccurrencesAppend(Repeated(texts, n - 1), texts, order, ctx, ch);
      assert Repeated(texts, n) == Repeated(texts, n - 1) + texts;
      var x := AllOccurrences(texts, order, ctx, ch);
      assert (n - 1) * x + x == n * x by {
        OneMore(n, x);
      }
    }
  }

  lemma OneMore(n: nat, x: nat)
    requires n > 0
    ensures (n - 1) * x + x == n * x
  {
  }

  lemma {:induction false} OccurrencesAppend(a: seq<string>, b: seq<string>, order: nat, ctx: string, ch: char)
    ensures AllOccurrences(a + b, order, ctx, ch) ==
            AllOccurrences(a, order, ctx, ch) + AllOccurrences(b, order, ctx, ch)
    decreases |b|
  {
    if b == [] {
      assert a + b == a;
    } else {
      OccurrencesAppend(a, b[..|b| - 1], order, ctx, ch);
      assert (a + b)[..|a + b| - 1] == a + b[..|b| - 1];
    }
  }

  /** Taking a text out from anywhere takes its occurrences out. */
  lemma OccurrencesWithout(texts: seq<string>, i: nat, order: nat, ctx: string, ch: char)
    requires i < |texts|
    ensures AllOccurrences(texts, order, ctx, ch) ==
            AllOccurrences(texts[..i] + texts[i + 1..], order, ctx, ch) + Occurrences(texts[i], order, ctx, ch)
  {
    assert texts == texts[..i] + [texts[i]] + texts[i + 1..];
    OccurrencesAppend(texts[..i] + [texts[i]], texts[i + 1..], order, ctx, ch);
    OccurrencesAppend(texts[..i], texts[i + 1..], order, ctx, ch);
    assert (texts[..i] + [texts[i]])[..i] == texts[..i];
  }

  lemma Cancel(x: multiset<string>, f: multiset<string>, b: multiset<string>, v: string)
    requires x + multiset{v} == f + multiset{v} + b
    ensures x == f + b
  {
    forall k
      ensures x[k] == (f + b)[k]
    {
      assert (x + multiset{v})[k] == (f + multiset{v} + b)[k];
    }
  }

  lemma SameWithout(a: seq<string>, b: seq<string>) returns (i: nat)
    requires a != [] && multiset(a) == multiset(b)
    ensures i < |b| && b[i] == a[|a| - 1]
    ensures multiset(a[..|a| - 1]) == multiset(b[..i] + b[i + 1..])
  {
    var n := |a| - 1;
    assert a[n] in multiset(b);
    i :| 0 <= i < |b| && b[i] == a[n];
    assert a == a[..n] + [a[n]];
    assert b == b[..i] + [b[i]] + b[i + 1..];
    var front, back := b[..i], b[i + 1..];
    assert multiset(b) == multiset(front) + multiset{b[i]} + multiset(back);
    assert multiset(a) == multiset(a[..n]) + multiset{a[n]};
    Cancel(multiset(a[..n]), multiset(front), multiset(back), a[n]);
    assert multiset(front + back) == multiset(front) + multiset(back);
  }

  lemma {:induction false} OccurrencesOfPermutation(a: seq<string>, b: seq<string>, order: nat, ctx: string, ch: char)
    requires multiset(a) == multiset(b)
    ensures AllOccurrences(a, order, ctx, ch) == AllOccurrences(b, order, ctx, ch)
    decreases |a|
  {
    if a == [] {
      assert |b| == |multiset(b)| == 0;
    } else {
      var n := |a| - 1;
      var i := SameWithout(a, b);
      OccurrencesOfPermutation(a[..n], b[..i] + b[i + 1..], order, ctx, ch);
      OccurrencesWithout(b, i, order, ctx, ch);
    }
  }

  /** Tables that count the same texts, in whatever order they came, are the same table. */
  lemma OrderOfTextsIsForgotten(s: Table, t: Table, order: nat, a: seq<string>, b: seq<string>)
    requires Counts(s, order, a, "") && Counts(t, order, b, "") && multiset(a) == multiset(b)
    ensures s == t
  {
    forall ctx, ch
      ensures CountIn(s, ctx, ch) == CountIn(t, ctx, ch)
    {
      OccurrencesOfPermutation(a, b, order, ctx, ch);
    }
    forall ctx
      ensures (ctx in s <==> ctx in t) && (ctx in s ==> s[ctx] == t[ctx])
    {
      if ctx in s {
        BucketsAgree(s, t, ctx);
      } else if ctx in t {
        BucketsAgree(t, s, ctx);
      }
    }
  }

  lemma BucketsAgree(s: Table, t: Table, ctx: string)
    requires Positive(s) && Positive(t) && ctx in s
    requires forall ch {:trigger CountIn(s, ctx, ch)} :: CountIn(s, ctx, ch) == CountIn(t, ctx, ch)
    ensures ctx in t && s[ctx] == t[ctx]
  {
    var some :| some in s[ctx];
    assert CountIn(s, ctx, some) > 0;
    forall ch
      ensures ch in s[ctx] <==> ch in t[ctx]
      ensures ch in s[ctx] ==> s[ctx][ch] == t[ctx][ch]
    {
      assert CountIn(s, ctx, ch) == CountIn(t, ctx, ch);
    }
  }

  // ----- samples -----

  function Chunk(text: string, start: nat, chunkChars: nat): string
    requires start <= |text|
  {
    text[start..if start + chunkChars < |text| then start + chunkChars else |text|]
  }

  /** The samples of one text from `start` on. */
  function Chunks(text: string, start: nat, chunkChars: nat, stride: nat, minChars: nat): seq<string>
    requires stride > 0
    decreases |text| - start
  {
    if start >= |text| then []
    else
      (if |Chunk(text, start, chunkChars)| >= minChars then [Chunk(text, start, chunkChars)] else []) +
      Chunks(text, start + stride, chunkChars, stride, minChars)
  }

  function SamplesOf(text: string, chunkChars: nat, stride: nat, minChars: nat): seq<string>
    requires stride > 0
  {
    if |text| > chunkChars then Chunks(text, 0, chunkChars, stride, minChars)
    else if |text| >= minChars then [text]
    else []
  }

  function Samples(texts: seq<string>, chunkChars: nat, stride: nat, minChars: nat): seq<string>
    requires stride > 0
  {
    if texts == [] then []
    else Samples(texts[..|texts| - 1], chunkChars, stride, minChars) +
         SamplesOf(texts[|texts| - 1], chunkChars, stride, minChars)
  }

  /** The size of a chunk and the step between chunks, as they are clamped. */
  function Clamped(chunkChars: int, stride: int): (r: (nat, nat))
    ensures 1 <= r.1 <= r.0
  {
    var c := if chunkChars < 1 then 1 else chunkChars;
    (c, if stride > c then c else if stride < 1 then 1 else stride)
  }

  method Dataset(texts: seq<string>, chunkOption: int, strideOption: int, minOption: int)
    returns (samples: seq<string>, totalChars: nat)
    ensures var (c, s) := Clamped(chunkOption, strideOption);
            samples == Samples(texts, c, s, if minOption < 1 then 1 else minOption)
    ensures totalChars == Length(texts)
  {
    var (chunkChars, stride) := Clamped(chunkOption, strideOption);
    var minChars := if minOption < 1 then 1 else minOption;
    samples, totalChars := [], 0;
    for i := 0 to |texts|
      invariant samples == Samples(texts[..i], chunkChars, stride, minChars) && totalChars == Length(texts[..i])
    {
      assert texts[..i + 1][..i] == texts[..i];
      var text := texts[i];
      totalChars := totalChars + |text|;
      if |text| <= chunkChars {
        if |text| >= minChars {
          samples := samples + [text];
        }
        continue;
      }
      var more := CutText(text, chunkChars, stride, minChars);
      samples := samples + more;
    }
    assert texts[..|texts|] == texts;
  }

  method CutText(text: string, chunkChars: nat, stride: nat, minChars: nat) returns (samples: seq<string>)
    requires stride > 0
    ensures samples == Chunks(text, 0, chunkChars, stride, minChars)
  {
    var start := 0;
    samples := [];
    while start < |text|
      invariant samples + Chunks(text, start, chunkChars, stride, minChars) ==
                Chunks(text, 0, chunkChars, stride, minChars)
      decreases |text| - start
    {
      var chunk := Chunk(text, start, chunkChars);
      if |chunk| >= minChars {
        samples := samples + [chunk];
      }
      start := start + stride;
    }
  }

  function Joined(samples: seq<string>): string {
    if samples == [] then "" else samples[0] + Joined(samples[1..])
  }

  /** The first `n` characters of each sample. */
  function Heads(samples: seq<string>, n: nat): seq<string> {
    if samples == [] then [] else [Chunk(samples[0], 0, n)] + Heads(samples[1..], n)
  }

  /** However the samples overlap, no character is lost when there is no minimum: the first `stride`
      characters of each sample join to the text. */
  lemma {:induction false} SamplesCoverText(text: string, start: nat, chunkChars: nat, stride: nat)
    requires 0 < stride <= chunkChars && start <= |text|
    ensures Joined(Heads(Chunks(text, start, chunkChars, stride, 1), stride)) == text[start..]
    decreases |text| - start
  {
    if start < |text| {
      var chunk, next, rest := Chunk(text, start, chunkChars), start + stride,
          Chunks(text, start + stride, chunkChars, stride, 1);
      HeadOfChunk(text, start, chunkChars, stride);
      HeadFirst(chunk, rest, stride);
      if next <= |text| {
        SamplesCoverText(text, next, chunkChars, stride);
      }
    }
  }

  lemma HeadOfChunk(text: string, start: nat, chunkChars: nat, stride: nat)
    requires stride <= chunkChars && start <= |text|
    ensures var head := Chunk(Chunk(text, start, chunkChars), 0, stride);
            text[start..] == if start + stride <= |text| then head + text[start + stride..] else head
  {
  }

  lemma HeadFirst(chunk: string, rest: seq<string>, n: nat)
    ensures Joined(Heads([chunk] + rest, n)) == Chunk(chunk, 0, n) + Joined(Heads(rest, n))
  {
    assert ([chunk] + rest)[1..] == rest;
    assert Heads([chunk] + rest, n)[1..] == Heads(rest, n);
  }

  /** The sample that starts `k` strides after `start`. */
  ghost predicate IsSample(text: string, start: nat, k: nat, chunkChars: nat, stride: nat, minChars: nat, x: string) {
    start + k * stride < |text| && x == Chunk(text, start + k * stride, chunkChars) && |x| >= minChars
  }

  ghost predicate HasSample(text: string, start: nat, chunkChars: nat, stride: nat, minChars: nat, x: string) {
    exists k: nat :: IsSample(text, start, k, chunkChars, stride, minChars, x)
  }

  /** The samples of a long text are exactly its chunks, one a stride, that are long enough. */
  lemma {:induction false} SamplesAreChunks(text: string, start: nat, chunkChars: nat, stride: nat, minChars: nat,
                                            x: string)
    requires stride > 0
    ensures x in Chunks(text, start, chunkChars, stride, minChars) <==>
            HasSample(text, start, chunkChars, stride, minChars, x)
    decreases |text| - start
  {
    if start < |text| {
      SamplesAreChunks(text, start + stride, chunkChars, stride, minChars, x);
      FirstOrLater(text, start, chunkChars, stride, minChars, x);
    } else {
      NoSampleBehind(text, start, chunkChars, stride, minChars, x);
    }
  }

  /** A sample is the chunk at `start`, or a sample of what is behind the stride. */
  lemma FirstOrLater(text: string, start: nat, chunkChars: nat, stride: nat, minChars: nat, x: string)
    requires start < |text|
    ensures HasSample(text, start, chunkChars, stride, minChars, x) <==>
            (x == Chunk(text, start, chunkChars) && |x| >= minChars) ||
            HasSample(text, start + stride, chunkChars, stride, minChars, x)
  {
    if x == Chunk(text, start, chunkChars) && |x| >= minChars {
      assert IsSample(text, start, 0, chunkChars, stride, minChars, x);
    }
    if HasSample(text, start + stride, chunkChars, stride, minChars, x) {
      var k: nat :| IsSample(text, start + stride, k, chunkChars, stride, minChars, x);
      NextStride(text, start, k, chunkChars, stride, minChars, x);
    }
    if k: nat :| IsSample(text, start, k, chunkChars, stride, minChars, x) && k > 0 {
      NextStride(text, start, k - 1, chunkChars, stride, minChars, x);
    }
  }

  lemma NextStride(text: string, start: nat, k: nat, chunkChars: nat, stride: nat, minChars: nat, x: string)
    ensures IsSample(text, start, k + 1, chunkChars, stride, minChars, x) <==>
            IsSample(text, start + stride, k, chunkChars, stride, minChars, x)
  {
    assert (k + 1) * stride == stride + k * stride;
  }

  lemma NoSampleBehind(text: string, start: nat, chunkChars: nat, stride: nat, minChars: nat, x: string)
    requires start >= |text|
    ensures !HasSample(text, start, chunkChars, stride, minChars, x)
  {
    forall k: nat
      ensures !IsSample(text, start, k, chunkChars, stride, minChars, x)
    {
      assert k * stride >= 0;
    }
  }

  // ----- sizes and samples in other words -----

  /** A chunk is `chunkChars` characters from `start` on, fewer only at the end of the text. */
  lemma ChunkIsASlice(text: string, start: nat, chunkChars: nat)
    requires start <= |text|
    ensures var c := Chunk(text, start, chunkChars);
            && |c| == (if chunkChars <= |text| - start then chunkChars else |text| - start)
            && forall k :: 0 <= k < |c| ==> c[k] == text[start + k]
  {
  }

  /** Sizes that make sense are taken as they are; a chunk has at least one character, and the step is
      at least one and at most a chunk. */
  lemma SizesAreClamped(chunkChars: int, stride: int)
    ensures var (c, s) := Clamped(chunkChars, stride);
            && (chunkChars >= 1 ==> c == chunkChars) && (chunkChars < 1 ==> c == 1)
            && (1 <= stride <= c ==> s == stride) && (stride < 1 ==> s == 1) && (stride > c ==> s == c)
  {
  }

  /** A text no longer than a chunk is one sample if it is long enough, and none otherwise; the samples
      and the lengths of texts are those of each in turn. */
  lemma TextsInTurn(texts: seq<string>, text: string, chunkChars: nat, stride: nat, minChars: nat)
    requires stride > 0
    ensures |text| <= chunkChars ==>
              SamplesOf(text, chunkChars, stride, minChars) == if |text| >= minChars then [text] else []
    ensures |text| > chunkChars ==>
              SamplesOf(text, chunkChars, stride, minChars) == Chunks(text, 0, chunkChars, stride, minChars)
    ensures Samples([], chunkChars, stride, minChars) == [] && Length([]) == 0
    ensures Samples(texts + [text], chunkChars, stride, minChars) ==
            Samples(texts, chunkChars, stride, minChars) + SamplesOf(text, chunkChars, stride, minChars)
    ensures Length(texts + [text]) == Length(texts) + |text|
  {
    assert (texts + [text])[..|texts|] == texts;
  }

  /** Only empty texts are dropped, and the others keep their order. */
  lemma CleanInTurn(texts: seq<string>, text: string)
    ensures Clean([]) == []
    ensures Clean(texts + [text]) == if text == "" then Clean(texts) else Clean(texts) + [text]
  {
    assert (texts + [text])[..|texts|] == texts;
  }
}
