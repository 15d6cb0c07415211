/** The run-length coding of RGB pixels: four bytes a run, at most 255 pixels each. */
module RunLength {
  import opened Bytes
  import opened Options

  datatype Rgb = Rgb(r: Byte, g: Byte, b: Byte)

  type Count = x: int | 1 <= x < 256 witness 1

  datatype Run = Run(count: Count, colour: Rgb)

  const MAX_RUN: nat := 255

  // ----- pixels and their bytes -----

  function Flat(p: seq<Rgb>): (b: seq<Byte>)
    ensures |b| == 3 * |p|
  {
    if p == [] then [] else Flat(p[..|p| - 1]) + Triple(p[|p| - 1])
  }

  function Triple(c: Rgb): (b: seq<Byte>)
    ensures |b| == 3
  {
    [c.r, c.g, c.b]
  }

  function Pixels(b: seq<Byte>): (p: seq<Rgb>)
    requires |b| % 3 == 0
    ensures |p| == |b| / 3
  {
    if b == [] then [] else Pixels(b[..|b| - 3]) + [Rgb(b[|b| - 3], b[|b| - 2], b[|b| - 1])]
  }

  lemma {:induction false} PixelAt(b: seq<Byte>, i: nat)
    requires |b| % 3 == 0 && i < |b| / 3
    ensures Pixels(b)[i] == Rgb(b[3 * i], b[3 * i + 1], b[3 * i + 2])
    decreases |b|
  {
    if i < |b| / 3 - 1 {
      PixelAt(b[..|b| - 3], i);
    }
  }

  lemma FlatSnoc(p: seq<Rgb>, c: Rgb)
    ensures Flat(p + [c]) == Flat(p) + Triple(c)
  {
    assert (p + [c])[..|p|] == p;
  }

  lemma LastTriple(b: seq<Byte>)
    requires |b| >= 3
    ensures b == b[..|b| - 3] + Triple(Rgb(b[|b| - 3], b[|b| - 2], b[|b| - 1]))
  {
  }

  lemma {:induction false} FlatOfPixels(b: seq<Byte>)
    requires |b| % 3 == 0
    ensures Flat(Pixels(b)) == b
    decreases |b|
  {
    if b != [] {
      var init, last := b[..|b| - 3], Rgb(b[|b| - 3], b[|b| - 2], b[|b| - 1]);
      FlatOfPixels(init);
      FlatSnoc(Pixels(init), last);
      LastTriple(b);
    }
  }

  lemma {:induction false} PixelsOfFlat(p: seq<Rgb>)
    ensures Pixels(Flat(p)) == p
  {
    if p != [] {
      var init, last, b := p[..|p| - 1], p[|p| - 1], Flat(p);
      PixelsOfFlat(init);
      assert b[..|b| - 3] == Flat(init);
      assert b[|b| - 3] == last.r && b[|b| - 2] == last.g && b[|b| - 1] == last.b;
      assert p == init + [last];
    }
  }

  lemma {:induction false} FlatAppend(p: seq<Rgb>, q: seq<Rgb>)
    ensures Flat(p + q) == Flat(p) + Flat(q)
    decreases |q|
  {
    if q == [] {
      assert p + q == p;
    } else {
      var init := q[..|q| - 1];
      FlatAppend(p, init);
      assert (p + q)[..|p + q| - 1] == p + init;
      assert Flat(p) + (Flat(init) + Triple(q[|q| - 1])) == (Flat(p) + Flat(init)) + Triple(q[|q| - 1]);
    }
  }

  // ----- runs and their bytes -----

  function Repeat(c: Rgb, n: nat): (p: seq<Rgb>)
    ensures |p| == n
    ensures forall i :: 0 <= i < n ==> p[i] == c
  {
    if n == 0 then [] else [c] + Repeat(c, n - 1)
  }

  function Expand(runs: seq<Run>): seq<Rgb> {
    if runs == [] then [] else Repeat(runs[0].colour, runs[0].count) + Expand(runs[1..])
  }

  function Quad(run: Run): (b: seq<Byte>)
    ensures |b| == 4
  {
    [run.count, run.colour.r, run.colour.g, run.colour.b]
  }

  function Payload(runs: seq<Run>): (b: seq<Byte>)
    ensures |b| == 4 * |runs|
  {
    if runs == [] then [] else Quad(runs[0]) + Payload(runs[1..])
  }

  /** The runs of a payload; None when it is cut short or holds an empty run. */
  function Runs(payload: seq<Byte>): (r: Option<seq<Run>>)
    ensures r.Some? ==> |payload| == 4 * |r.value|
  {
    if payload == [] then Some([])
    else if |payload| < 4 || payload[0] == 0 then None
    else
      match Runs(payload[4..])
      case None => None
      case Some(rest) => Some([Run(payload[0], Rgb(payload[1], payload[2], payload[3]))] + rest)
  }

  lemma {:induction false} RunsOfPayload(runs: seq<Run>)
    ensures Runs(Payload(runs)) == Some(runs)
  {
    if runs != [] {
      RunsOfPayload(runs[1..]);
      assert Payload(runs)[4..] == Payload(runs[1..]);
      assert [runs[0]] + runs[1..] == runs;
    }
  }

  // ----- the greedy choice of runs -----

  /** How far the colour in front repeats, from `n` known repetitions on. */
  function RunFrom(p: seq<Rgb>, n: nat): (r: nat)
    requires 1 <= n <= |p| && n <= MAX_RUN
    ensures n <= r <= |p| && r <= MAX_RUN
    decreases |p| - n
  {
    if n < |p| && n < MAX_RUN && p[n] == p[0] then RunFrom(p, n + 1) else n
  }

  function FirstRun(p: seq<Rgb>): (r: nat)
    requires p != []
    ensures 1 <= r <= |p| && r <= MAX_RUN
  {
    RunFrom(p, 1)
  }

  function Greedy(p: seq<Rgb>): seq<Run> {
    if p == [] then [] else [Run(FirstRun(p), p[0])] + Greedy(p[FirstRun(p)..])
  }

  ghost predicate AllSame(p: seq<Rgb>, n: nat)
    requires n <= |p|
  {
    forall i :: 0 <= i < n ==> p[i] == p[0]
  }

  lemma {:induction false} RunFromIsSame(p: seq<Rgb>, n: nat)
    requires 1 <= n <= |p| && n <= MAX_RUN && AllSame(p, n)
    ensures AllSame(p, RunFrom(p, n))
    decreases |p| - n
  {
    if n < |p| && n < MAX_RUN && p[n] == p[0] {
      RunFromIsSame(p, n + 1);
    }
  }

  /** The first run is as long as any the coding allows. */
  lemma {:induction false} FirstRunIsLongest(p: seq<Rgb>, k: nat, n: nat)
    requires 1 <= k <= n <= |p| && n <= MAX_RUN && AllSame(p, n)
    ensures RunFrom(p, k) >= n
    decreases n - k
  {
    if k < n {
      assert p[k] == p[0];
      FirstRunIsLongest(p, k + 1, n);
    }
  }

  lemma RepeatedFront(p: seq<Rgb>, n: nat)
    requires 1 <= n <= |p| && AllSame(p, n)
    ensures Repeat(p[0], n) + p[n..] == p
  {
  }

  lemma {:induction false} ExpandOfGreedy(p: seq<Rgb>)
    ensures Expand(Greedy(p)) == p
    decreases |p|
  {
    if p != [] {
      var n := FirstRun(p);
      RunFromIsSame(p, 1);
      ExpandOfGreedy(p[n..]);
      var runs := Greedy(p);
      assert runs[1..] == Greedy(p[n..]);
      RepeatedFront(p, n);
    }
  }

  /** Dropping pixels from the front never costs a run. */
  lemma {:induction false} SuffixNeedsNoMore(p: seq<Rgb>, j: nat)
    requires j <= |p|
    ensures |Greedy(p[j..])| <= |Greedy(p)|
    decreases |p|
  {
    if j == 0 {
      assert p[j..] == p;
    } else if j < |p| {
      var n := FirstRun(p);
      if n <= j {
        SuffixNeedsNoMore(p[n..], j - n);
        assert p[n..][j - n..] == p[j..];
      } else {
        var q := p[j..];
        var m := FirstRun(q);
        SameInside(p, j);
        SuffixNeedsNoMore(p[n..], j + m - n);
        assert p[n..][j + m - n..] == q[m..];
      }
    }
  }

  /** A cut inside the first run leaves a run that reaches at least as far. */
  lemma SameInside(p: seq<Rgb>, j: nat)
    requires p != [] && 0 < j < FirstRun(p)
    ensures j + FirstRun(p[j..]) >= FirstRun(p)
  {
    var n, q := FirstRun(p), p[j..];
    RunFromIsSame(p, 1);
    assert AllSame(q, n - j);
    FirstRunIsLongest(q, 1, n - j);
  }

  /** No list of runs for the same pixels is shorter than the greedy one. */
  lemma {:induction false} GreedyIsShortest(runs: seq<Run>)
    ensures |Greedy(Expand(runs))| <= |runs|
  {
    if runs != [] {
      var p, rest, c := Expand(runs), Expand(runs[1..]), runs[0].count;
      var n := FirstRun(p);
      assert AllSame(p, c);
      FirstRunIsLongest(p, 1, c);
      assert p[n..] == rest[n - c..];
      SuffixNeedsNoMore(rest, n - c);
      GreedyIsShortest(runs[1..]);
    }
  }

  // ----- the two loops -----

  function Encoded(pixels: seq<Byte>): (payload: seq<Byte>)
    requires |pixels| % 3 == 0
  {
    Payload(Greedy(Pixels(pixels)))
  }

  function Decoded(payload: seq<Byte>, expected: nat): (pixels: Option<seq<Byte>>)
    ensures pixels.Some? ==> |pixels.value| == expected * 3
  {
    match Runs(payload)
    case None => None
    case Some(runs) => if |Expand(runs)| == expected then Some(Flat(Expand(runs))) else None
  }

  method Encode(pixels: seq<Byte>) returns (payload: Option<seq<Byte>>)
    ensures payload == if |pixels| % 3 == 0 then Some(Encoded(pixels)) else None
  {
    if |pixels| % 3 != 0 {
      return None;
    }
    ghost var p := Pixels(pixels);
    var out: seq<Byte>, total, idx := [], |pixels| / 3, 0;
    while idx < total
      invariant 0 <= idx <= total == |p|
      invariant Written(p, idx, out)
    {
      var base := idx * 3;
      var r, g, b := pixels[base], pixels[base + 1], pixels[base + 2];
      PixelAt(pixels, idx);
      var run := MeasureRun(pixels, idx, Rgb(r, g, b));
      RunWritten(p, idx, out);
      out := out + [run, r, g, b];
      idx := idx + run;
    }
    AllWritten(p, out);
    payload := Some(out);
  }

  /** `out` is what the greedy choice writes for the first `idx` pixels. */
  ghost predicate Written(p: seq<Rgb>, idx: nat, out: seq<Byte>)
    requires idx <= |p|
  {
    out + Payload(Greedy(p[idx..])) == Payload(Greedy(p))
  }

  lemma RunWritten(p: seq<Rgb>, idx: nat, out: seq<Byte>)
    requires idx < |p| && Written(p, idx, out)
    ensures var run := FirstRun(p[idx..]);
            Written(p, idx + run, out + [run, p[idx].r, p[idx].g, p[idx].b])
  {
    var tail := p[idx..];
    GreedyStep(out, tail);
    assert tail[FirstRun(tail)..] == p[idx + FirstRun(tail)..];
  }

  lemma AllWritten(p: seq<Rgb>, out: seq<Byte>)
    requires Written(p, |p|, out)
    ensures out == Payload(Greedy(p))
  {
    assert p[|p|..] == [];
    assert out + [] == out;
  }

  /** The inner loop: how many pixels from `idx` on have the colour at `idx`. */
  method MeasureRun(pixels: seq<Byte>, idx: nat, colour: Rgb) returns (run: nat)
    requires |pixels| % 3 == 0 && idx < |pixels| / 3 && Pixels(pixels)[idx] == colour
    ensures run == FirstRun(Pixels(pixels)[idx..])
  {
    ghost var tail := Pixels(pixels)[idx..];
    run := 1;
    while idx + run < |pixels| / 3 && run < MAX_RUN
      invariant 1 <= run <= |tail| && run <= MAX_RUN
      invariant FirstRun(tail) == RunFrom(tail, run)
    {
      var p := (idx + run) * 3;
      PixelAt(pixels, idx + run);
      if pixels[p] != colour.r || pixels[p + 1] != colour.g || pixels[p + 2] != colour.b {
        break;
      }
      run := run + 1;
    }
  }

  lemma GreedyStep(out: seq<Byte>, tail: seq<Rgb>)
    requires tail != []
    ensures out + Payload(Greedy(tail)) ==
            (out + [FirstRun(tail), tail[0].r, tail[0].g, tail[0].b]) + Payload(Greedy(tail[FirstRun(tail)..]))
  {
    var runs := Greedy(tail);
    assert runs[1..] == Greedy(tail[FirstRun(tail)..]);
  }

  method Decode(payload: seq<Byte>, expected: nat) returns (pixels: Option<seq<Byte>>)
    ensures pixels == Decoded(payload, expected)
  {
    AllBehind(payload);
    if |payload| % 4 != 0 {
      return None;
    }
    var out: seq<Byte>, idx := [], 0;
    ghost var done: seq<Rgb> := [];
    while idx < |payload|
      invariant 0 <= idx <= |payload| && idx % 4 == 0
      invariant out == Flat(done)
      invariant Behind(payload, idx, done) == Expanded(payload)
    {
      var run, r, g, b := payload[idx], payload[idx + 1], payload[idx + 2], payload[idx + 3];
      if run == 0 {
        return None;
      }
      var block := RepeatBytes(Rgb(r, g, b), run);
      done := OneMoreRun(payload, idx, done);
      out := out + block;
      idx := idx + 4;
    }
    DecodedIs(payload, expected, done);
    if |out| != expected * 3 {
      return None;
    }
    pixels := Some(out);
  }

  lemma OneMoreRun(payload: seq<Byte>, idx: nat, done: seq<Rgb>) returns (after: seq<Rgb>)
    requires idx + 4 <= |payload| && payload[idx] != 0
    ensures var c := Rgb(payload[idx + 1], payload[idx + 2], payload[idx + 3]);
            Flat(after) == Flat(done) + Flat(Repeat(c, payload[idx]))
    ensures Behind(payload, idx + 4, after) == Behind(payload, idx, done)
  {
    var block := Repeat(Rgb(payload[idx + 1], payload[idx + 2], payload[idx + 3]), payload[idx]);
    FlatAppend(done, block);
    after := done + block;
  }

  lemma DecodedIs(payload: seq<Byte>, expected: nat, done: seq<Rgb>)
    requires Expanded(payload) == Some(done)
    ensures Decoded(payload, expected) == if |Flat(done)| == expected * 3 then Some(Flat(done)) else None
  {
  }

  /** bytes((r, g, b)) * run */
  method RepeatBytes(c: Rgb, run: nat) returns (block: seq<Byte>)
    ensures block == Flat(Repeat(c, run))
  {
    block := [];
    for i := 0 to run
      invariant block == Flat(Repeat(c, i))
    {
      assert Repeat(c, i + 1)[..i] == Repeat(c, i);
      block := block + Triple(c);
    }
  }

  function Expanded(payload: seq<Byte>): Option<seq<Rgb>> {
    match Runs(payload)
    case None => None
    case Some(runs) => Some(Expand(runs))
  }

  /** What the loop makes of a payload from `idx` on, with `done` expanded already. */
  ghost function Behind(payload: seq<Byte>, idx: nat, done: seq<Rgb>): Option<seq<Rgb>>
    decreases |payload| - idx
  {
    if idx >= |payload| then Some(done)
    else if idx + 4 > |payload| || payload[idx] == 0 then None
    else Behind(payload, idx + 4, done + Repeat(Rgb(payload[idx + 1], payload[idx + 2], payload[idx + 3]),
                                                payload[idx]))
  }

  lemma {:induction false} RunsBehind(payload: seq<Byte>, idx: nat, done: seq<Rgb>)
    requires idx <= |payload|
    ensures Behind(payload, idx, done) ==
            match Expanded(payload[idx..])
            case None => None
            case Some(p) => Some(done + p)
    decreases |payload| - idx
  {
    var rest := payload[idx..];
    if rest == [] {
      assert done + [] == done;
    } else if |rest| >= 4 && rest[0] != 0 {
      var block := Repeat(Rgb(rest[1], rest[2], rest[3]), rest[0]);
      assert rest[4..] == payload[idx + 4..];
      RunsBehind(payload, idx + 4, done + block);
      if Runs(rest).Some? {
        ExpandFirst(rest);
        Assoc(done, block, Expand(Runs(rest[4..]).value));
      }
    }
  }

  lemma AllBehind(payload: seq<Byte>)
    ensures Behind(payload, 0, []) == Expanded(payload)
  {
    RunsBehind(payload, 0, []);
    assert payload[0..] == payload;
    if Expanded(payload).Some? {
      assert [] + Expanded(payload).value == Expanded(payload).value;
    }
  }

  lemma ExpandFirst(payload: seq<Byte>)
    requires payload != [] && Runs(payload).Some?
    ensures Expand(Runs(payload).value) ==
            Repeat(Rgb(payload[1], payload[2], payload[3]), payload[0]) + Expand(Runs(payload[4..]).value)
  {
    assert Runs(payload).value[1..] == Runs(payload[4..]).value;
  }

  lemma Assoc<T>(a: seq<T>, b: seq<T>, c: seq<T>)
    ensures a + (b + c) == a + b + c
  {
  }

  // ----- the two together -----

  /** Whatever is encoded is decoded to itself. */
  lemma EncodeThenDecode(pixels: seq<Byte>)
    requires |pixels| % 3 == 0
    ensures Decoded(Encoded(pixels), |pixels| / 3) == Some(pixels)
  {
    var p := Pixels(pixels);
    RunsOfPayload(Greedy(p));
    ExpandOfGreedy(p);
    FlatOfPixels(pixels);
  }

  /** No payload the decoder accepts for the same pixels is shorter than the encoder's. */
  lemma EncodedIsShortest(payload: seq<Byte>, pixels: seq<Byte>)
    requires Decoded(payload, |pixels| / 3) == Some(pixels)
    ensures |pixels| % 3 == 0 && |Encoded(pixels)| <= |payload|
  {
    var runs := Runs(payload).value;
    PixelsOfFlat(Expand(runs));
    GreedyIsShortest(runs);
  }

  /** The encoder at most adds one byte to each pixel. */
  lemma {:induction false} GreedyBound(p: seq<Rgb>)
    ensures |Greedy(p)| <= |p|
    decreases |p|
  {
    if p != [] {
      GreedyBound(p[FirstRun(p)..]);
    }
  }

  /** Two pixels of one colour and one of another, as bytes. */
  lemma EncodedExample()
    ensures Encoded([1, 2, 3, 1, 2, 3, 9, 8, 7]) == [2, 1, 2, 3, 1, 9, 8, 7]
  {
    var a, b := Rgb(1, 2, 3), Rgb(9, 8, 7);
    assert Pixels([1, 2, 3, 1, 2, 3, 9, 8, 7]) == [a, a, b] by {
      ThreePixels(a, a, b);
    }
    assert RunFrom([a, a, b], 2) == 2 && FirstRun([a, a, b]) == 2 && [a, a, b][2..] == [b];
    assert FirstRun([b]) == 1 && [b][1..] == [];
    assert Greedy([b]) == [Run(1, b)] && Greedy([a, a, b]) == [Run(2, a), Run(1, b)];
    assert [Run(2, a), Run(1, b)][1..] == [Run(1, b)] && [Run(1, b)][1..] == [];
    assert Payload([Run(1, b)]) == [1, 9, 8, 7];
  }

  lemma ThreePixels(a: Rgb, b: Rgb, c: Rgb)
    ensures Pixels([a.r, a.g, a.b, b.r, b.g, b.b, c.r, c.g, c.b]) == [a, b, c]
  {
    var bytes := [a.r, a.g, a.b, b.r, b.g, b.b, c.r, c.g, c.b];
    PixelAt(bytes, 0);
    PixelAt(bytes, 1);
    PixelAt(bytes, 2);
  }
}
