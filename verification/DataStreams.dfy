/** Batch streams: handles, batched reads, closing.

    A source is the items its iterator yields. Reading a broken item raises inside the iterator and
    ends it; an oversize record is taken and refused. */
module DataStreams {
  import opened Options

  datatype Item<Row> = Good(row: Row) | Oversize | Broken

  // ----- one read -----

  datatype End = Full | Exhausted | Failed

  datatype Taken<Row> = Taken(batch: seq<Row>, rest: seq<Item<Row>>, end: End)

  /** What a read of at most `n` rows gives and leaves. */
  function Take<Row>(rest: seq<Item<Row>>, n: nat): Taken<Row> {
    if n == 0 then Taken([], rest, Full)
    else if rest == [] then Taken([], [], Exhausted)
    else
      match rest[0]
      case Good(row) => var t := Take(rest[1..], n - 1); Taken([row] + t.batch, t.rest, t.end)
      case Oversize => Taken([], rest[1..], Failed)
      case Broken => Taken([], [], Failed)
  }

  function Items<Row>(rows: seq<Row>): (items: seq<Item<Row>>)
    ensures |items| == |rows|
  {
    if rows == [] then [] else Items(rows[..|rows| - 1]) + [Good(rows[|rows| - 1])]
  }

  lemma {:induction false} ItemsAppend<Row>(a: seq<Row>, b: seq<Row>)
    ensures Items(a + b) == Items(a) + Items(b)
    decreases |b|
  {
    if b == [] {
      assert a + b == a;
    } else {
      ItemsAppend(a, b[..|b| - 1]);
      assert (a + b)[..|a + b| - 1] == a + b[..|b| - 1];
    }
  }

  /** The batch is the front of the source, full unless the source is at its end. */
  lemma {:induction false} TakeSplits<Row>(rest: seq<Item<Row>>, n: nat)
    requires Take(rest, n).end != Failed
    ensures var t := Take(rest, n);
            && rest == Items(t.batch) + t.rest
            && (t.end == Full ==> |t.batch| == n)
            && (t.end == Exhausted ==> |t.batch| < n && t.rest == [])
    decreases n
  {
    if n > 0 && rest != [] {
      var t := Take(rest[1..], n - 1);
      TakeSplits(rest[1..], n - 1);
      ItemsAppend([rest[0].row], t.batch);
      assert rest == [rest[0]] + (Items(t.batch) + t.rest);
    }
  }

  // ----- the manager's state -----

  datatype Stream<Row> = Stream(rest: seq<Item<Row>>, batchSize: nat, rowsRead: nat)

  datatype State<Row> = State(streams: map<nat, Stream<Row>>, databases: set<nat>, nextId: nat)

  datatype Limits = Limits(maxBatchSize: nat, maxOpenStreams: nat)

  predicate BatchSizeFits(l: Limits, size: int) { 1 <= size <= l.maxBatchSize }

  /** int(value or 100) */
  function BatchSize(value: Option<int>): int {
    if value.None? || value.value == 0 then 100 else value.value
  }

  function Opened<Row>(l: Limits, s: State<Row>, rows: seq<Item<Row>>, value: Option<int>): Option<State<Row>> {
    if !BatchSizeFits(l, BatchSize(value)) || |s.streams| >= l.maxOpenStreams then None
    else Some(s.(streams := s.streams[s.nextId := Stream(rows, BatchSize(value), 0)], nextId := s.nextId + 1))
  }

  /** The state after a read. An exhausted stream is closed; a failed one keeps the rows it counted. */
  function AfterRead<Row>(s: State<Row>, h: nat): State<Row>
    requires h in s.streams
  {
    var x := s.streams[h];
    var t := Take(x.rest, x.batchSize);
    if t.end == Exhausted then s.(streams := s.streams - {h})
    else s.(streams := s.streams[h := Stream(t.rest, x.batchSize, x.rowsRead + |t.batch|)])
  }

  // ----- every run -----

  datatype Event<Row> =
    | Open(rows: seq<Item<Row>>, size: Option<int>)
    | Next(handle: nat)
    | Close(handle: nat)
    | CloseAll
    | OpenDatabase
    | CloseDatabase(handle: nat)

  /** What was opened under a handle and delivered from it; `ended` once a read hit the end. */
  datatype Log<Row> = Log(source: seq<Item<Row>>, batchSize: nat, batches: seq<seq<Row>>, ended: bool)

  datatype System<Row> = System(state: State<Row>, logs: map<nat, Log<Row>>)

  function Start<Row>(): System<Row> {
    System(State(map[], {}, 1), map[])
  }

  /** One call. A call that is refused changes nothing; None when a read fails. */
  function Apply<Row>(l: Limits, y: System<Row>, e: Event<Row>): Option<System<Row>> {
    var s := y.state;
    match e
    case Open(rows, size) =>
      if Opened(l, s, rows, size).None? then Some(y)
      else Some(System(Opened(l, s, rows, size).value, y.logs[s.nextId := Log(rows, BatchSize(size), [], false)]))
    case Next(h) =>
      if h !in s.streams || h !in y.logs then Some(y)
      else
        var t := Take(s.streams[h].rest, s.streams[h].batchSize);
        var log := y.logs[h];
        if t.end == Failed then None
        else
          var after := Log(log.source, log.batchSize, log.batches + [t.batch], t.end == Exhausted);
          Some(System(AfterRead(s, h), y.logs[h := after]))
    case Close(h) => Some(y.(state := s.(streams := s.streams - {h})))
    case CloseAll => Some(y.(state := s.(streams := map[], databases := {})))
    case OpenDatabase => Some(y.(state := s.(databases := s.databases + {s.nextId}, nextId := s.nextId + 1)))
    case CloseDatabase(h) => Some(y.(state := s.(databases := s.databases - {h})))
  }

  // ----- calls, failed reads included -----

  /** What a caller is told. */
  datatype Answer<Row> = Handle(handle: nat) | Batch(rows: seq<Row>) | Closed(wasOpen: bool) | Done | Refused

  function Step<Row>(l: Limits, s: State<Row>, e: Event<Row>): State<Row> {
    match e
    case Open(rows, size) => if Opened(l, s, rows, size).None? then s else Opened(l, s, rows, size).value
    case Next(h) => if h in s.streams then AfterRead(s, h) else s
    case Close(h) => s.(streams := s.streams - {h})
    case CloseAll => s.(streams := map[], databases := {})
    case OpenDatabase => s.(databases := s.databases + {s.nextId}, nextId := s.nextId + 1)
    case CloseDatabase(h) => s.(databases := s.databases - {h})
  }

  function Answered<Row>(l: Limits, s: State<Row>, e: Event<Row>): Answer<Row> {
    match e
    case Open(rows, size) => if Opened(l, s, rows, size).None? then Refused else Handle(s.nextId)
    case Next(h) =>
      if h !in s.streams then Refused
      else
        var t := Take(s.streams[h].rest, s.streams[h].batchSize);
        if t.end == Failed then Refused else Batch(t.batch)
    case Close(h) => Closed(h in s.streams)
    case CloseAll => Done
    case OpenDatabase => Handle(s.nextId)
    case CloseDatabase(h) => Closed(h in s.databases)
  }

  function Steps<Row>(l: Limits, s: State<Row>, events: seq<Event<Row>>): State<Row> {
    if events == [] then s else Step(l, Steps(l, s, events[..|events| - 1]), events[|events| - 1])
  }

  /** Each call was answered in the state the calls before it left. */
  ghost predicate AreAnswers<Row>(l: Limits, s: State<Row>, events: seq<Event<Row>>, answers: seq<Answer<Row>>) {
    |answers| == |events| &&
    forall i {:trigger answers[i]} :: 0 <= i < |answers| ==>
    answers[i] == Answered(l, Steps(l, s, events[..i]), events[i])
  }

  /** The batches a caller got for a handle. */
  ghost function Delivered<Row>(events: seq<Event<Row>>, answers: seq<Answer<Row>>, h: nat): seq<seq<Row>>
    requires |answers| == |events|
  {
    if events == [] then []
    else
      var n := |events| - 1;
      Delivered(events[..n], answers[..n], h) +
      if events[n] == Event<Row>.Next(h) && answers[n].Batch? then [answers[n].rows] else []
  }

  function Run<Row>(l: Limits, events: seq<Event<Row>>): Option<System<Row>> {
    if events == [] then Some(Start())
    else
      match Run(l, events[..|events| - 1])
      case None => None
      case Some(y) => Apply(l, y, events[|events| - 1])
  }

  function Concat<Row>(batches: seq<seq<Row>>): seq<Row> {
    if batches == [] then [] else Concat(batches[..|batches| - 1]) + batches[|batches| - 1]
  }

  ghost predicate AllFull<Row>(batches: seq<seq<Row>>, size: nat) {
    forall i :: 0 <= i < |batches| ==> |batches[i]| == size
  }

  /** An open stream: full batches only, which with what is left make up the source. */
  ghost predicate OpenLog<Row>(log: Log<Row>, x: Stream<Row>) {
    && !log.ended
    && AllFull(log.batches, log.batchSize)
    && log.source == Items(Concat(log.batches)) + x.rest
    && x.batchSize == log.batchSize && x.rowsRead == |Concat(log.batches)|
  }

  /** A closed stream: all of the source, in full batches but for a last shorter one, if it ended;
      otherwise a front part of the source in full batches. */
  ghost predicate ClosedLog<Row>(log: Log<Row>) {
    var n := |log.batches|;
    if log.ended then
      && n > 0 && AllFull(log.batches[..n - 1], log.batchSize) && |log.batches[n - 1]| < log.batchSize
      && log.source == Items(Concat(log.batches))
    else
      AllFull(log.batches, log.batchSize) && Items(Concat(log.batches)) <= log.source
  }

  ghost predicate LogHolds<Row>(y: System<Row>, h: nat)
    requires h in y.logs
  {
    if h in y.state.streams then OpenLog(y.logs[h], y.state.streams[h]) else ClosedLog(y.logs[h])
  }

  ghost predicate Invariant<Row>(l: Limits, y: System<Row>) {
    && y.state.streams.Keys <= y.logs.Keys
    && |y.state.streams| <= l.maxOpenStreams
    && (forall h :: h in y.logs ==> h < y.state.nextId)
    && (forall h {:trigger y.logs[h]} :: h in y.logs ==> LogHolds(y, h))
  }

  /** Delivering one more batch. */
  lemma ReadKeepsLog<Row>(log: Log<Row>, x: Stream<Row>)
    requires OpenLog(log, x) && Take(x.rest, x.batchSize).end != Failed
    ensures var t := Take(x.rest, x.batchSize);
            var after := Log(log.source, log.batchSize, log.batches + [t.batch], t.end == Exhausted);
            if t.end == Exhausted then ClosedLog(after)
            else OpenLog(after, Stream(t.rest, x.batchSize, x.rowsRead + |t.batch|))
  {
    var t := Take(x.rest, x.batchSize);
    TakeSplits(x.rest, x.batchSize);
    MoreItems(log.batches, t.batch, x.rest, t.rest);
    if t.end == Exhausted {
      LastBatch(log.batches, t.batch);
      assert Items(Concat(log.batches + [t.batch])) + [] == log.source;
    } else {
      OneMoreFull(log.batches, t.batch, log.batchSize);
    }
  }

  /** Moving a batch from what is left to what was delivered. */
  lemma MoreItems<Row>(before: seq<seq<Row>>, batch: seq<Row>, rest: seq<Item<Row>>, left: seq<Item<Row>>)
    requires rest == Items(batch) + left
    ensures Items(Concat(before)) + rest == Items(Concat(before + [batch])) + left
    ensures |Concat(before + [batch])| == |Concat(before)| + |batch|
  {
    var items := Items(Concat(before));
    assert (before + [batch])[..|before|] == before;
    ItemsAppend(Concat(before), batch);
    assert items + (Items(batch) + left) == (items + Items(batch)) + left;
  }

  lemma OneMoreFull<Row>(before: seq<seq<Row>>, batch: seq<Row>, size: nat)
    requires AllFull(before, size) && |batch| == size
    ensures AllFull(before + [batch], size)
  {
  }

  lemma LastBatch<Row>(before: seq<seq<Row>>, batch: seq<Row>)
    ensures var all := before + [batch]; all[..|all| - 1] == before && all[|all| - 1] == batch
  {
  }

  lemma ClosingKeepsLog<Row>(log: Log<Row>, x: Stream<Row>)
    requires OpenLog(log, x)
    ensures ClosedLog(log)
  {
  }

  lemma StepKeepsInvariant<Row>(l: Limits, y: System<Row>, e: Event<Row>)
    requires Invariant(l, y) && Apply(l, y, e).Some?
    ensures Invariant(l, Apply(l, y, e).value)
  {
    match e
    case Open(rows, size) => OpenKeepsInvariant(l, y, rows, size);
    case Next(h) => NextKeepsInvariant(l, y, h);
    case Close(h) => RemovingKeepsInvariant(l, y, {h}, y.state.databases);
    case CloseAll =>
      assert y.state.streams - y.state.streams.Keys == map[];
      RemovingKeepsInvariant(l, y, y.state.streams.Keys, {});
    case OpenDatabase => SameStreams(l, y, Apply(l, y, e).value);
    case CloseDatabase(h) => SameStreams(l, y, Apply(l, y, e).value);
  }

  lemma SameStreams<Row>(l: Limits, y: System<Row>, z: System<Row>)
    requires Invariant(l, y) && z.logs == y.logs && z.state.streams == y.state.streams &&
             z.state.nextId >= y.state.nextId
    ensures Invariant(l, z)
  {
    forall h | h in z.logs
      ensures LogHolds(z, h)
    {
      assert LogHolds(y, h);
    }
  }

  lemma OpenKeepsInvariant<Row>(l: Limits, y: System<Row>, rows: seq<Item<Row>>, size: Option<int>)
    requires Invariant(l, y)
    ensures Invariant(l, Apply(l, y, Open(rows, size)).value)
  {
    if Opened(l, y.state, rows, size).Some? {
      var h, x := y.state.nextId, Stream(rows, BatchSize(size), 0);
      assert h !in y.state.streams;
      AddingKeepsInvariant(l, y, h, x, Log(rows, x.batchSize, [], false));
    }
  }

  lemma AddingKeepsInvariant<Row>(l: Limits, y: System<Row>, h: nat, x: Stream<Row>, log: Log<Row>)
    requires Invariant(l, y) && h == y.state.nextId && |y.state.streams| < l.maxOpenStreams
    requires log == Log(x.rest, x.batchSize, [], false) && x.rowsRead == 0
    ensures Invariant(l, System(y.state.(streams := y.state.streams[h := x], nextId := h + 1), y.logs[h := log]))
  {
    var z := System(y.state.(streams := y.state.streams[h := x], nextId := h + 1), y.logs[h := log]);
    OneMoreKey(y.state.streams, h, x);
    AddingKeepsLogs(l, y, z, h, x, log);
  }

  lemma AddingKeepsLogs<Row>(l: Limits, y: System<Row>, z: System<Row>, h: nat, x: Stream<Row>, log: Log<Row>)
    requires Invariant(l, y) && h !in y.logs
    requires z.state.streams == y.state.streams[h := x] && z.logs == y.logs[h := log]
    requires log == Log(x.rest, x.batchSize, [], false) && x.rowsRead == 0
    ensures forall g {:trigger z.logs[g]} :: g in z.logs ==> LogHolds(z, g)
  {
    forall g | g in z.logs
      ensures LogHolds(z, g)
    {
      if g == h {
        NewLogHolds(log, x);
      } else {
        LogStillHolds(y, z, g);
      }
    }
  }

  lemma LogStillHolds<Row>(y: System<Row>, z: System<Row>, g: nat)
    requires g in y.logs && g in z.logs && LogHolds(y, g) && z.logs[g] == y.logs[g]
    requires g in z.state.streams <==> g in y.state.streams
    requires g in z.state.streams ==> z.state.streams[g] == y.state.streams[g]
    ensures LogHolds(z, g)
  {
  }

  lemma OneMoreKey<Row>(m: map<nat, Stream<Row>>, h: nat, x: Stream<Row>)
    requires h !in m
    ensures |m[h := x]| == |m| + 1 && m[h := x].Keys == m.Keys + {h}
  {
    assert m[h := x].Keys == m.Keys + {h};
    assert |m[h := x]| == |m[h := x].Keys| && |m| == |m.Keys|;
  }

  lemma NewLogHolds<Row>(log: Log<Row>, x: Stream<Row>)
    requires log == Log(x.rest, x.batchSize, [], false) && x.rowsRead == 0
    ensures OpenLog(log, x)
  {
    assert Items<Row>([]) + x.rest == x.rest;
  }

  lemma NextKeepsInvariant<Row>(l: Limits, y: System<Row>, h: nat)
    requires Invariant(l, y) && Apply(l, y, Next(h)).Some?
    ensures Invariant(l, Apply(l, y, Next(h)).value)
  {
    if h in y.state.streams {
      assert LogHolds(y, h);
      ReadKeepsLog(y.logs[h], y.state.streams[h]);
      var t := Take(y.state.streams[h].rest, y.state.streams[h].batchSize);
      var log := y.logs[h];
      ChangingKeepsInvariant(l, y, h, if t.end == Exhausted then None else Some(AfterRead(y.state, h).streams[h]),
                             Log(log.source, log.batchSize, log.batches + [t.batch], t.end == Exhausted));
    }
  }

  /** One stream gets another state, or closes. */
  lemma ChangingKeepsInvariant<Row>(l: Limits, y: System<Row>, h: nat, x: Option<Stream<Row>>, log: Log<Row>)
    requires Invariant(l, y) && h in y.state.streams
    requires if x.Some? then OpenLog(log, x.value) else ClosedLog(log)
    ensures var streams := if x.Some? then y.state.streams[h := x.value] else y.state.streams - {h};
            Invariant(l, System(y.state.(streams := streams), y.logs[h := log]))
  {
    var streams := if x.Some? then y.state.streams[h := x.value] else y.state.streams - {h};
    var z := System(y.state.(streams := streams), y.logs[h := log]);
    FewerKeys(streams, y.state.streams);
    forall g | g in z.logs
      ensures LogHolds(z, g)
    {
      if g != h {
        LogStillHolds(y, z, g);
      }
    }
  }

  lemma RemovingKeepsInvariant<Row>(l: Limits, y: System<Row>, gone: set<nat>, databases: set<nat>)
    requires Invariant(l, y)
    ensures Invariant(l, y.(state := y.state.(streams := y.state.streams - gone, databases := databases)))
  {
    var z := y.(state := y.state.(streams := y.state.streams - gone, databases := databases));
    FewerKeys(z.state.streams, y.state.streams);
    forall g | g in z.logs
      ensures LogHolds(z, g)
    {
      assert LogHolds(y, g);
      if g in y.state.streams && g in gone {
        ClosingKeepsLog(y.logs[g], y.state.streams[g]);
      }
    }
  }

  lemma FewerKeys<Row>(a: map<nat, Stream<Row>>, b: map<nat, Stream<Row>>)
    requires a.Keys <= b.Keys
    ensures |a| <= |b|
  {
    SubsetIsSmaller(a.Keys, b.Keys);
    assert |a| == |a.Keys| && |b| == |b.Keys|;
  }

  lemma {:induction false} SubsetIsSmaller(a: set<nat>, b: set<nat>)
    requires a <= b
    ensures |a| <= |b|
    decreases |a|
  {
    if a != {} {
      var x :| x in a;
      SubsetIsSmaller(a - {x}, b - {x});
    }
  }

  lemma {:induction false} RunKeepsInvariant<Row>(l: Limits, events: seq<Event<Row>>)
    requires Run(l, events).Some?
    ensures Invariant(l, Run(l, events).value)
  {
    var n := |events|;
    if n > 0 {
      var before := events[..n - 1];
      RunKeepsInvariant(l, before);
      StepKeepsInvariant(l, Run(l, before).value, events[n - 1]);
    }
  }

  /** After any run without a failed read: no more streams are open than allowed, each was opened by
      this run, what an open one delivered is full batches that with the rest make up its source, and
      `rowsRead` is their total. */
  lemma EveryRunKeepsLogs<Row>(l: Limits, events: seq<Event<Row>>)
    requires Run(l, events).Some?
    ensures var y := Run(l, events).value;
            && |y.state.streams| <= l.maxOpenStreams
            && y.state.streams.Keys <= y.logs.Keys
            && (forall h {:trigger y.state.streams[h]} :: h in y.state.streams ==>
                OpenLog(y.logs[h], y.state.streams[h]))
            && (forall h {:trigger y.logs[h]} :: h in y.logs && h !in y.state.streams ==> ClosedLog(y.logs[h]))
  {
    RunKeepsInvariant(l, events);
    var y := Run(l, events).value;
    forall h | h in y.logs
      ensures LogHolds(y, h)
    {
    }
  }

  /** Over any run without a failed read the logs are what the calls on the manager lead to and were
      answered: its state, and for every handle the batches handed out. */
  lemma {:induction false} LogsAreDelivered<Row>(l: Limits, events: seq<Event<Row>>, answers: seq<Answer<Row>>, h: nat)
    requires Run(l, events).Some? && AreAnswers(l, Start<Row>().state, events, answers)
    ensures var y := Run(l, events).value;
            && y.state == Steps(l, Start<Row>().state, events)
            && Delivered(events, answers, h) == Logged(y, h)
    decreases |events|
  {
    var n := |events| - 1;
    if n >= 0 {
      var before := events[..n];
      RunKeepsInvariant(l, before);
      AnswersBefore(l, Start<Row>().state, events, answers);
      LogsAreDelivered(l, before, answers[..n], h);
      StepDelivers(l, Run(l, before).value, events[n], h);
    }
  }

  lemma AnswersBefore<Row>(l: Limits, s: State<Row>, events: seq<Event<Row>>, answers: seq<Answer<Row>>)
    requires events != [] && AreAnswers(l, s, events, answers)
    ensures var n := |events| - 1;
            AreAnswers(l, s, events[..n], answers[..n]) &&
            answers[n] == Answered(l, Steps(l, s, events[..n]), events[n])
  {
    var n := |events| - 1;
    forall i | 0 <= i < n
      ensures answers[..n][i] == Answered(l, Steps(l, s, events[..n][..i]), events[..n][i])
    {
      assert answers[i] == Answered(l, Steps(l, s, events[..i]), events[i]);
      assert events[..n][..i] == events[..i];
    }
  }

  /** The batches logged for a handle. */
  function Logged<Row>(y: System<Row>, h: nat): seq<seq<Row>> {
    if h in y.logs then y.logs[h].batches else []
  }

  /** One call: the state it leaves, and what it adds to a log. */
  lemma StepDelivers<Row>(l: Limits, y: System<Row>, e: Event<Row>, h: nat)
    requires Invariant(l, y) && Apply(l, y, e).Some?
    ensures var z, answer := Apply(l, y, e).value, Answered(l, y.state, e);
            && z.state == Step(l, y.state, e)
            && Logged(z, h) == Logged(y, h) + if e == Event<Row>.Next(h) && answer.Batch? then [answer.rows] else []
  {
    if e.Next? {
      NextDelivers(l, y, e.handle, h);
    } else {
      OtherDelivers(l, y, e, h);
      assert Logged(y, h) + [] == Logged(y, h);
    }
  }

  lemma NextDelivers<Row>(l: Limits, y: System<Row>, g: nat, h: nat)
    requires Invariant(l, y) && Apply(l, y, Next(g)).Some?
    ensures var z, answer := Apply(l, y, Next(g)).value, Answered(l, y.state, Next(g));
            && z.state == Step(l, y.state, Next(g))
            && Logged(z, h) == Logged(y, h) + if g == h && answer.Batch? then [answer.rows] else []
  {
    if g !in y.state.streams || g != h {
      assert Logged(y, h) + [] == Logged(y, h);
    }
  }

  lemma OtherDelivers<Row>(l: Limits, y: System<Row>, e: Event<Row>, h: nat)
    requires Invariant(l, y) && Apply(l, y, e).Some? && !e.Next?
    ensures var z := Apply(l, y, e).value; z.state == Step(l, y.state, e) && Logged(z, h) == Logged(y, h)
  {
  }

  /** A handle is given out once: a stream that opens gets a number no stream had before. */
  lemma HandlesAreNotReused<Row>(l: Limits, events: seq<Event<Row>>, rows: seq<Item<Row>>, size: Option<int>)
    requires Run(l, events).Some?
    requires Opened(l, Run(l, events).value.state, rows, size).Some?
    ensures var y := Run(l, events).value;
            var z := Apply(l, y, Open(rows, size)).value;
            y.state.nextId !in y.logs && z.logs.Keys == y.logs.Keys + {y.state.nextId} &&
            z.state.streams.Keys == y.state.streams.Keys + {y.state.nextId}
  {
    RunKeepsInvariant(l, events);
    OpenTakesNewHandle(l, Run(l, events).value, rows, size);
  }

  lemma OpenTakesNewHandle<Row>(l: Limits, y: System<Row>, rows: seq<Item<Row>>, size: Option<int>)
    requires (forall h :: h in y.logs ==> h < y.state.nextId) && Opened(l, y.state, rows, size).Some?
    ensures var z := Apply(l, y, Open(rows, size)).value;
            y.state.nextId !in y.logs && z.logs.Keys == y.logs.Keys + {y.state.nextId} &&
            z.state.streams.Keys == y.state.streams.Keys + {y.state.nextId}
  {
  }

  /** Reading until the end delivers the whole source. */
  lemma EndedStreamIsComplete<Row>(l: Limits, events: seq<Event<Row>>, h: nat)
    requires Run(l, events).Some? && h in Run(l, events).value.logs
    ensures var log := Run(l, events).value.logs[h];
            && Items(Concat(log.batches)) <= log.source
            && (log.ended <==> Items(Concat(log.batches)) == log.source && log.batches != [] &&
                               |log.batches[|log.batches| - 1]| < log.batchSize)
  {
    RunKeepsInvariant(l, events);
    assert LogHolds(Run(l, events).value, h);
  }

  lemma OneMoreAnswer<Row>(l: Limits, s: State<Row>, events: seq<Event<Row>>, i: nat, answers: seq<Answer<Row>>,
                           answer: Answer<Row>)
    requires i < |events| && AreAnswers(l, s, events[..i], answers)
    requires answer == Answered(l, Steps(l, s, events[..i]), events[i])
    ensures AreAnswers(l, s, events[..i + 1], answers + [answer])
    ensures Steps(l, s, events[..i + 1]) == Step(l, Steps(l, s, events[..i]), events[i])
  {
    assert events[..i + 1][..i] == events[..i];
    forall k | 0 <= k <= i
      ensures (answers + [answer])[k] == Answered(l, Steps(l, s, events[..i + 1][..k]), events[k])
    {
      assert events[..i + 1][..k] == events[..k];
      if k < i {
        assert answers[k] == Answered(l, Steps(l, s, events[..i][..k]), events[..i][k]);
        assert events[..i][..k] == events[..k];
      }
    }
  }

  // ----- the manager -----

  /** An open stream: its iterator, and how many rows it gave. */
  class Source<Row> {
    var rest: seq<Item<Row>>
    const batchSize: nat
    var rowsRead: nat
    var closed: bool

    constructor (rows: seq<Item<Row>>, batchSize: nat)
      ensures rest == rows && this.batchSize == batchSize && rowsRead == 0 && !closed
    {
      rest, this.batchSize, rowsRead, closed := rows, batchSize, 0, false;
    }

    function Value(): Stream<Row>
      reads this
    {
      Stream(rest, batchSize, rowsRead)
    }

    /** next(iterator); None is StopIteration. */
    method Next() returns (item: Option<Item<Row>>)
      modifies this`rest
      ensures if old(rest) == [] then item == None && rest == []
              else item == Some(old(rest)[0]) && rest == if old(rest)[0].Broken? then [] else old(rest)[1..]
    {
      if rest == [] {
        return None;
      }
      item := Some(rest[0]);
      rest := if rest[0].Broken? then [] else rest[1..];
    }

    /** The loop of next_batch. */
    method ReadBatch() returns (batch: seq<Row>, end: End)
      modifies this`rest, this`rowsRead
      ensures Taken(batch, rest, end) == Take(old(rest), batchSize)
      ensures rowsRead == old(rowsRead) + |batch|
    {
      ghost var from := rest;
      batch, end := [], Full;
      for i := 0 to batchSize
        invariant |batch| == i && rowsRead == old(rowsRead) + i
        invariant Take(from, batchSize) == Onto(batch, Take(rest, batchSize - i))
      {
        ghost var here := rest;
        var item := Next();
        if item.None? {
          return batch, Exhausted;
        }
        match item.value {
          case Good(row) =>
            assert batch + ([row] + Take(rest, batchSize - i - 1).batch) ==
                   (batch + [row]) + Take(rest, batchSize - i - 1).batch;
            batch := batch + [row];
            rowsRead := rowsRead + 1;
          case Oversize =>
            return batch, Failed;
          case Broken =>
            return batch, Failed;
        }
      }
    }
  }

  function Onto<Row>(batch: seq<Row>, t: Taken<Row>): Taken<Row> {
    Taken(batch + t.batch, t.rest, t.end)
  }

  class DataStreamManager<Row> {
    const limits: Limits
    var streams: map<nat, Source<Row>>
    var databases: set<nat>
    var nextId: nat

    ghost function Repr(): set<object>
      reads this
    {
      set h | h in streams :: streams[h] as object
    }

    ghost predicate Valid()
      reads this, Repr()
    {
      && (forall h :: h in streams ==> streams[h] in Repr() && !streams[h].closed)
      && (forall g, h :: g in streams && h in streams && g != h ==> streams[g] != streams[h])
    }

    ghost function Value(): State<Row>
      reads this, Repr()
      requires Valid()
    {
      State(map h | h in streams :: streams[h].Value(), databases, nextId)
    }

    constructor (limits: Limits)
      ensures Valid() && Value() == State(map[], {}, 1) && this.limits == limits
    {
      this.limits := limits;
      streams, databases, nextId := map[], {}, 1;
    }

    /** open_iterable, and the way every other kind of stream is opened once its iterator is made. */
    method OpenIterable(rows: seq<Item<Row>>, size: Option<int>) returns (handle: Option<nat>)
      requires Valid()
      modifies this
      ensures Valid()
      ensures handle == if Opened(limits, old(Value()), rows, size).None? then None else Some(old(nextId))
      ensures fresh(Repr() - old(Repr()))
      ensures Value() == if handle.None? then old(Value()) else Opened(limits, old(Value()), rows, size).value
    {
      var batchSize := BatchSize(size);
      if !BatchSizeFits(limits, batchSize) {
        return None;
      }
      SameSize();
      if |streams| >= limits.maxOpenStreams {
        return None;
      }
      handle := Some(nextId);
      Insert(rows, batchSize);
    }

    lemma SameSize()
      requires Valid()
      ensures |streams| == |Value().streams|
    {
      assert streams.Keys == Value().streams.Keys;
      assert |streams| == |streams.Keys| && |Value().streams| == |Value().streams.Keys|;
    }

    method Insert(rows: seq<Item<Row>>, batchSize: nat)
      requires Valid()
      modifies this
      ensures Valid() && fresh(Repr() - old(Repr()))
      ensures Value() == old(Value()).(streams := old(Value()).streams[old(nextId) := Stream(rows, batchSize, 0)],
                                       nextId := old(nextId) + 1)
    {
      var stream := new Source(rows, batchSize);
      Add(stream);
    }

    /** The tail of _new_handle. */
    method Add(stream: Source<Row>)
      requires Valid() && stream !in Repr() && !stream.closed
      modifies this
      ensures Valid() && Repr() <= old(Repr()) + {stream}
      ensures Value() == old(Value()).(streams := old(Value()).streams[old(nextId) := old(stream.Value())],
                                       nextId := old(nextId) + 1)
    {
      streams := streams[nextId := stream];
      nextId := nextId + 1;
      AddedIsValid(stream);
      AddedValue(stream);
    }

    twostate lemma AddedIsValid(stream: Source<Row>)
      requires old(Valid()) && stream !in old(Repr()) && !stream.closed
      requires streams == old(streams)[old(nextId) := stream] && unchanged(old(Repr()))
      ensures Valid() && Repr() <= old(Repr()) + {stream}
    {
    }

    twostate lemma AddedValue(new stream: Source<Row>)
      requires old(Valid()) && Valid()
      requires streams == old(streams)[old(nextId) := stream] && unchanged(old(Repr()))
      ensures Value().streams == old(Value()).streams[old(nextId) := stream.Value()]
    {
    }

    /** None when the handle is unknown or the read fails. */
    method NextBatch(handle: nat) returns (batch: Option<seq<Row>>)
      requires Valid()
      modifies this, Repr()
      ensures Valid() && Repr() <= old(Repr())
      ensures Value() == if handle in old(Value()).streams then AfterRead(old(Value()), handle) else old(Value())
      ensures batch ==
              if handle !in old(Value()).streams then None
              else
                var x := old(Value()).streams[handle];
                var t := Take(x.rest, x.batchSize);
                if t.end == Failed then None else Some(t.batch)
    {
      if handle !in streams || streams[handle].closed {
        return None;
      }
      ghost var before := Value();
      var rows, end := ReadFrom(handle);
      if end == Exhausted {
        var _ := this.Close(handle);
        assert Value().streams == before.streams - {handle};
      }
      batch := if end == Failed then None else Some(rows);
    }

    method ReadFrom(handle: nat) returns (batch: seq<Row>, end: End)
      requires Valid() && handle in streams
      modifies Repr()
      ensures Valid()
      ensures var x := old(Value()).streams[handle];
              var t := Take(x.rest, x.batchSize);
              && batch == t.batch && end == t.end
              && Value() == old(Value()).(streams :=
                   old(Value()).streams[handle := Stream(t.rest, x.batchSize, x.rowsRead + |t.batch|)])
    {
      ghost var before := Value();
      var stream := streams[handle];
      batch, end := stream.ReadBatch();
      assert Value().streams == before.streams[handle := stream.Value()];
    }

    method Close(handle: nat) returns (wasOpen: bool)
      requires Valid()
      modifies this, Repr()
      ensures Valid() && Repr() <= old(Repr())
      ensures wasOpen <==> handle in old(streams)
      ensures streams == old(streams) - {handle} && databases == old(databases) && nextId == old(nextId)
      ensures Value() == old(Value()).(streams := old(Value()).streams - {handle})
    {
      if handle !in streams {
        NothingToClose(handle);
        return false;
      }
      Remove(handle);
      wasOpen := true;
    }

    lemma NothingToClose(handle: nat)
      requires Valid() && handle !in streams
      ensures streams - {handle} == streams && Value().streams - {handle} == Value().streams
    {
    }

    method Remove(handle: nat)
      requires Valid() && handle in streams
      modifies this, Repr()
      ensures Valid() && Repr() <= old(Repr())
      ensures streams == old(streams) - {handle} && databases == old(databases) && nextId == old(nextId)
      ensures Value() == old(Value()).(streams := old(Value()).streams - {handle})
    {
      ghost var before := Value();
      var stream := streams[handle];
      streams := streams - {handle};
      stream.closed := true;
      assert Value().streams == before.streams - {handle};
    }

    method CloseAll()
      requires Valid()
      modifies this, Repr()
      ensures Valid() && Repr() <= old(Repr())
      ensures Value() == old(Value()).(streams := map[], databases := {})
    {
      while streams != map[]
        invariant Valid() && Repr() <= old(Repr())
        invariant databases == old(databases) && nextId == old(nextId)
        decreases streams.Keys
      {
        var handle :| handle in streams;
        var _ := Close(handle);
        assert handle !in streams.Keys;
      }
      databases := {};
      assert Value().streams == map[];
    }

    method SqliteOpen() returns (handle: nat)
      requires Valid()
      modifies this`databases, this`nextId
      ensures Valid() && handle == old(nextId)
      ensures Value() == old(Value()).(databases := old(databases) + {old(nextId)}, nextId := old(nextId) + 1)
    {
      handle := nextId;
      nextId := nextId + 1;
      databases := databases + {handle};
    }

    method SqliteClose(handle: nat) returns (wasOpen: bool)
      requires Valid()
      modifies this`databases
      ensures Valid() && wasOpen == (handle in old(databases))
      ensures Value() == old(Value()).(databases := old(databases) - {handle})
    {
      wasOpen := handle in databases;
      databases := databases - {handle};
    }

    /** One call, whatever it is. `mine` is any set of objects that includes the open streams; `more`
        are those it opened. */
    method Do(e: Event<Row>, ghost mine: set<object>) returns (answer: Answer<Row>, ghost more: set<object>)
      requires Valid() && Repr() <= mine
      modifies this, mine
      ensures Valid() && fresh(more) && Repr() <= mine + more
      ensures Value() == Step(limits, old(Value()), e)
      ensures answer == Answered(limits, old(Value()), e)
    {
      match e {
        case Open(rows, size) =>
          var handle := OpenIterable(rows, size);
          answer := if handle.None? then Refused else Handle(handle.value);
        case Next(h) =>
          var batch := NextBatch(h);
          answer := if batch.None? then Refused else Batch(batch.value);
        case Close(h) =>
          var wasOpen := this.Close(h);
          answer := Closed(wasOpen);
        case CloseAll =>
          this.CloseAll();
          answer := Done;
        case OpenDatabase =>
          var handle := SqliteOpen();
          answer := Handle(handle);
        case CloseDatabase(h) =>
          var wasOpen := SqliteClose(h);
          answer := Closed(wasOpen);
      }
      more := Repr() - mine;
    }

    /** Any sequence of calls, failed reads included, leaves the manager in the specified state, each
        answered as specified. On a new manager and without a failed read LogsAreDelivered makes what
        is proved of every run true of these calls. */
    method DoAll(events: seq<Event<Row>>, ghost mine: set<object>) returns (answers: seq<Answer<Row>>)
      requires Valid() && Repr() <= mine
      modifies this, mine
      ensures Valid() && Value() == Steps(limits, old(Value()), events)
      ensures AreAnswers(limits, old(Value()), events, answers)
    {
      ghost var all, start := mine, Value();
      answers := [];
      for i := 0 to |events|
        invariant Valid() && Repr() <= all && fresh(all - mine)
        invariant Value() == Steps(limits, start, events[..i])
        invariant AreAnswers(limits, start, events[..i], answers)
      {
        var answer;
        ghost var more;
        answer, more := Do(events[i], all);
        OneMoreAnswer(limits, start, events, i, answers, answer);
        answers := answers + [answer];
        all := all + more;
      }
      assert events[..|events|] == events;
    }
  }

  // ----- sizes and refusals in other words -----

  /** A stream is opened when its batch size is between 1 and the limit, 100 when none or 0 is given,
      and fewer streams are open than allowed; nothing of it has been read then. */
  lemma OpensExactly<Row>(l: Limits, s: State<Row>, rows: seq<Item<Row>>, value: Option<int>)
    ensures var size := if value == None || value == Some(0) then 100 else value.value;
            var after := Opened(l, s, rows, value);
            && (after.Some? <==> 1 <= size <= l.maxBatchSize && |s.streams| < l.maxOpenStreams)
            && (after.Some? ==>
                  && after.value.nextId == s.nextId + 1 && after.value.databases == s.databases
                  && after.value.streams == s.streams[s.nextId := Stream(rows, size, 0)])
    ensures Start<Row>().state.nextId == 1
  {
  }

  /** A read that meets an oversize record after fewer rows than it was to read fails behind it; one
      that meets a broken one fails at the end of the source. */
  lemma {:induction false} ReadFailsAt<Row>(rows: seq<Row>, rest: seq<Item<Row>>, n: nat)
    requires |rows| < n
    ensures Take(Items(rows) + ([Item<Row>.Oversize] + rest), n) == Taken(rows, rest, Failed)
    ensures Take(Items(rows) + ([Item<Row>.Broken] + rest), n) == Taken(rows, [], Failed)
    decreases |rows|
  {
    if rows == [] {
      assert Items(rows) + ([Item<Row>.Oversize] + rest) == [Item<Row>.Oversize] + rest;
      assert Items(rows) + ([Item<Row>.Broken] + rest) == [Item<Row>.Broken] + rest;
      assert ([Item<Row>.Oversize] + rest)[1..] == rest;
    } else {
      ReadFailsAt(rows[1..], rest, n - 1);
      FirstItem(rows, [Item<Row>.Oversize] + rest);
      FirstItem(rows, [Item<Row>.Broken] + rest);
      assert [rows[0]] + rows[1..] == rows;
    }
  }

  lemma FirstItem<Row>(rows: seq<Row>, rest: seq<Item<Row>>)
    requires rows != []
    ensures var all := Items(rows) + rest; all[0] == Good(rows[0]) && all[1..] == Items(rows[1..]) + rest
  {
    ItemsAppend([rows[0]], rows[1..]);
    assert [rows[0]] + rows[1..] == rows;
    assert Items([rows[0]]) == [Good(rows[0])];
  }
}
