/** The compile cache: an ordered dictionary of at most 128 programs behind a lock.

    A compile takes the lock twice, to look up and to store, with the compilation in between; other
    threads run in the gap. The two sections are steps of a machine over any number of threads. */
module CompileCache {
  import opened Options

  const MAX_ENTRIES: nat := 128

  datatype Entry<K, P> = Entry(key: K, program: P)

  /** Oldest use first. */
  datatype Cache<K, P> = Cache(entries: seq<Entry<K, P>>, hits: nat, misses: nat)

  // ----- the two sections -----

  function Find<K(==), P>(es: seq<Entry<K, P>>, key: K): (i: Option<nat>)
    ensures i.Some? ==> i.value < |es| && es[i.value].key == key
    ensures i.None? ==> forall j :: 0 <= j < |es| ==> es[j].key != key
  {
    if es == [] then None
    else if es[|es| - 1].key == key then Some(|es| - 1)
    else Find(es[..|es| - 1], key)
  }

  /** The entries with the one for `e.key`, if any, replaced by `e` and moved to the end. */
  function Touched<K(==), P>(es: seq<Entry<K, P>>, e: Entry<K, P>): seq<Entry<K, P>> {
    match Find(es, e.key)
    case None => es + [e]
    case Some(i) => Without(es, i) + [e]
  }

  function Without<T>(s: seq<T>, i: nat): (r: seq<T>)
    requires i < |s|
    ensures |r| == |s| - 1
  {
    s[..i] + s[i + 1..]
  }

  function Trimmed<K, P>(es: seq<Entry<K, P>>): (r: seq<Entry<K, P>>)
    ensures |r| <= MAX_ENTRIES
  {
    if |es| > MAX_ENTRIES then Trimmed(es[1..]) else es
  }

  function LookedUp<K(==), P>(c: Cache<K, P>, key: K): Cache<K, P> {
    match Find(c.entries, key)
    case None => c.(misses := c.misses + 1)
    case Some(i) => c.(entries := Touched(c.entries, c.entries[i]), hits := c.hits + 1)
  }

  function Stored<K(==), P>(c: Cache<K, P>, key: K, program: P): Cache<K, P> {
    c.(entries := Trimmed(Touched(c.entries, Entry(key, program))))
  }

  /** The module's globals. `compile` is what compiling without the cache gives, None if it raises. */
  class Compiler<K(==, !new), P(!new)> {
    const compile: K -> Option<P>
    var entries: seq<Entry<K, P>>
    var hits: nat
    var misses: nat

    constructor (compile: K -> Option<P>)
      ensures this.compile == compile && State() == Cache([], 0, 0)
    {
      this.compile := compile;
      entries, hits, misses := [], 0, 0;
    }

    function State(): Cache<K, P>
      reads this
    {
      Cache(entries, hits, misses)
    }

    /** The first section: a hit is moved to the end. */
    method Lookup(key: K) returns (cached: Option<P>)
      modifies this
      ensures State() == LookedUp(old(State()), key)
      ensures match Find(old(entries), key)
              case None => cached == None
              case Some(i) => cached == Some(old(entries)[i].program)
      ensures (exists e :: e in old(entries) && e.key == key) <==> cached.Some?
      ensures cached.Some? ==>
                hits == old(hits) + 1 && misses == old(misses) && entries[|entries| - 1] == Entry(key, cached.value)
      ensures cached.None? ==> hits == old(hits) && misses == old(misses) + 1 && entries == old(entries)
    {
      var i := Find(entries, key);
      if i.Some? {
        var e := entries[i.value];
        entries := Without(entries, i.value) + [e];
        hits := hits + 1;
        return Some(e.program);
      }
      misses := misses + 1;
      cached := None;
    }

    /** The second section: insert or replace, move to the end, and drop from the front. */
    method Store(key: K, program: P)
      modifies this
      ensures State() == Stored(old(State()), key, program)
      ensures hits == old(hits) && misses == old(misses)
      ensures 0 < |entries| <= 128 && entries[|entries| - 1] == Entry(key, program)
      ensures |old(entries)| <= 127 ==> forall e :: e in old(entries) && e.key != key ==> e in entries
    {
      StoreByField(entries, Entry(key, program));

      var i := Find(entries, key);
      if i.Some? {
        entries := Without(entries, i.value) + [Entry(key, program)];
      } else {
        entries := entries + [Entry(key, program)];
      }
      while |entries| > MAX_ENTRIES
        invariant Trimmed(entries) == Trimmed(Touched(old(entries), Entry(key, program)))
        invariant hits == old(hits) && misses == old(misses)
      {
        entries := entries[1..];
      }
    }

    method Clear()
      modifies this
      ensures State() == Cache([], 0, 0)
    {
      entries, hits, misses := [], 0, 0;
    }

    /** One thread on its own: whatever is in a correct cache, the program is the uncached one. */
    method Compile(key: K) returns (program: Option<P>)
      requires Correct(compile, entries)
      modifies this
      ensures Correct(compile, entries)
      ensures program == compile(key)
    {
      CorrectSections(compile, State(), key);
      program := Lookup(key);
      if program.None? {
        program := compile(key);
        if program.Some? {
          CorrectSections(compile, State(), key);
          Store(key, program.value);
        }
      }
    }
  }

  /** The entry just used is last, and while there is room nothing else goes. */
  lemma StoreByField<K(!new), P(!new)>(es: seq<Entry<K, P>>, e: Entry<K, P>)
    ensures var after := Trimmed(Touched(es, e));
            && 0 < |after| <= 128 && after[|after| - 1] == e
            && (|es| <= 127 ==> forall x :: x in es && x.key != e.key ==> x in after)
  {
    TrimmedIsSuffix(Touched(es, e));
    match Find(es, e.key)
    case None =>
    case Some(i) =>
      forall x | x in es && x.key != e.key
        ensures x in Without(es, i)
      {
        var k :| 0 <= k < |es| && es[k] == x;
        assert x == if k < i then Without(es, i)[k] else Without(es, i)[k - 1];
      }
  }

  ghost predicate Correct<K(!new), P(!new)>(compile: K -> Option<P>, es: seq<Entry<K, P>>) {
    forall e :: e in es ==> compile(e.key) == Some(e.program)
  }

  lemma CorrectSections<K(!new), P(!new)>(compile: K -> Option<P>, c: Cache<K, P>, key: K)
    requires Correct(compile, c.entries)
    ensures Correct(compile, LookedUp(c, key).entries)
    ensures compile(key).Some? ==> Correct(compile, Stored(c, key, compile(key).value).entries)
  {
    if compile(key).Some? {
      TrimmedIsSuffix(Touched(c.entries, Entry(key, compile(key).value)));
    }
  }

  lemma {:induction false} TrimmedIsSuffix<K, P>(es: seq<Entry<K, P>>)
    ensures Trimmed(es) == es[|es| - |Trimmed(es)|..]
    ensures |Trimmed(es)| == if |es| > MAX_ENTRIES then MAX_ENTRIES else |es|
    decreases |es|
  {
    if |es| > MAX_ENTRIES {
      TrimmedIsSuffix(es[1..]);
    }
  }

  // ----- threads -----

  /** Lookup: a thread enters `compile` and runs the first section. Finish: a thread that missed has
      compiled, and runs the second section if the compilation did not raise. */
  datatype Event<K> = Lookup(thread: nat, key: K) | Finish(thread: nat) | Clear

  /** A program returned by `compile` to the thread that asked for the key. */
  datatype Answer<K, P> = Answer(thread: nat, key: K, program: P)

  /** `pending` are the keys being compiled between the sections. The rest only records what happened:
      `uses` and `lookups` are the keys found or stored and the number of lookups since the last clear,
      `answers` is everything ever returned. */
  datatype System<K, P> =
    System(cache: Cache<K, P>, pending: map<nat, K>, uses: seq<K>, lookups: nat, answers: seq<Answer<K, P>>)

  function Start<K, P>(): System<K, P> {
    System(Cache([], 0, 0), map[], [], 0, [])
  }

  function Apply<K(==), P>(compile: K -> Option<P>, s: System<K, P>, e: Event<K>): Option<System<K, P>> {
    match e
    case Lookup(t, key) =>
      if t in s.pending then None
      else
        (match Find(s.cache.entries, key)
         case Some(i) =>
           Some(System(LookedUp(s.cache, key), s.pending, s.uses + [key], s.lookups + 1,
                       s.answers + [Answer(t, key, s.cache.entries[i].program)]))
         case None =>
           Some(System(LookedUp(s.cache, key), s.pending[t := key], s.uses, s.lookups + 1, s.answers)))
    case Finish(t) =>
      if t !in s.pending then None
      else
        var key := s.pending[t];
        (match compile(key)
         case None => Some(s.(pending := s.pending - {t}))
         case Some(program) =>
           Some(System(Stored(s.cache, key, program), s.pending - {t}, s.uses + [key], s.lookups,
                       s.answers + [Answer(t, key, program)])))
    case Clear => Some(System(Cache([], 0, 0), s.pending, [], 0, s.answers))
  }

  function Run<K(==), P>(compile: K -> Option<P>, events: seq<Event<K>>): Option<System<K, P>> {
    if events == [] then Some(Start())
    else
      match Run(compile, events[..|events| - 1])
      case None => None
      case Some(s) => Apply(compile, s, events[|events| - 1])
  }

  // ----- least recent use -----

  /** When a key was last used, counted from 1; 0 when it was not. */
  function LastUse<K(==)>(uses: seq<K>, key: K): (n: nat)
    ensures n <= |uses|
  {
    if uses == [] then 0
    else if uses[|uses| - 1] == key then |uses|
    else LastUse(uses[..|uses| - 1], key)
  }

  /** The key was used before every entry of a full cache. */
  ghost predicate OlderThanAll<K(!new), P>(es: seq<Entry<K, P>>, uses: seq<K>, key: K) {
    |es| == MAX_ENTRIES && LastUse(uses, key) < LastUse(uses, es[0].key)
  }

  /** The entries are the keys used most recently, in the order of their last use; a used key is
      missing only when the cache is full of keys used after it. */
  ghost predicate MostRecent<K(!new), P>(es: seq<Entry<K, P>>, uses: seq<K>) {
    && |es| <= MAX_ENTRIES
    && Ordered(es, uses)
    && (forall key {:trigger OlderThanAll(es, uses, key)} {:trigger Find(es, key)} ::
          LastUse(uses, key) > 0 && Find(es, key).None? ==> OlderThanAll(es, uses, key))
  }

  ghost predicate Ordered<K(!new), P>(es: seq<Entry<K, P>>, uses: seq<K>) {
    && (forall i {:trigger Used(es, uses, i)} :: 0 <= i < |es| ==> Used(es, uses, i))
    && (forall i, j {:trigger UsedBefore(es, uses, i, j)} :: 0 <= i < j < |es| ==> UsedBefore(es, uses, i, j))
  }

  ghost predicate Used<K(!new), P>(es: seq<Entry<K, P>>, uses: seq<K>, i: int)
    requires 0 <= i < |es|
  {
    LastUse(uses, es[i].key) > 0
  }

  ghost predicate UsedBefore<K(!new), P>(es: seq<Entry<K, P>>, uses: seq<K>, i: int, j: int)
    requires 0 <= i < |es| && 0 <= j < |es|
  {
    LastUse(uses, es[i].key) < LastUse(uses, es[j].key)
  }

  lemma LastUseOfNext<K(!new)>(uses: seq<K>, last: K, key: K)
    ensures LastUse(uses + [last], key) == if key == last then |uses| + 1 else LastUse(uses, key)
  {
    assert (uses + [last])[..|uses|] == uses;
  }

  /** What stands at place `i` when place `f` was taken out. */
  lemma WithoutAt<T>(s: seq<T>, f: nat, i: nat)
    requires f < |s| && i < |s| - 1
    ensures Without(s, f)[i] == s[if i < f then i else i + 1]
  {
  }

  /** Where the entry at place `i` came from, unless it is the touched one. */
  function Origin<K(==), P>(es: seq<Entry<K, P>>, key: K, i: nat): nat {
    match Find(es, key)
    case None => i
    case Some(f) => if i < f then i else i + 1
  }

  /** Where the entry at place `k` goes, unless it is the touched one. */
  function Place<K(==), P>(es: seq<Entry<K, P>>, key: K, k: nat): nat {
    match Find(es, key)
    case None => k
    case Some(f) => if k > f then k - 1 else k
  }

  lemma TouchedAt<K(!new), P>(es: seq<Entry<K, P>>, e: Entry<K, P>, i: nat)
    requires i < |Touched(es, e)| - 1
    ensures Origin(es, e.key, i) < |es| && Touched(es, e)[i] == es[Origin(es, e.key, i)]
  {
    match Find(es, e.key)
    case None =>
    case Some(f) => WithoutAt(es, f, i);
  }

  lemma TouchedKeeps<K(!new), P>(es: seq<Entry<K, P>>, e: Entry<K, P>, k: nat)
    requires k < |es| && Find(es, e.key) != Some(k)
    ensures Place(es, e.key, k) < |Touched(es, e)| - 1 && Touched(es, e)[Place(es, e.key, k)] == es[k]
  {
    match Find(es, e.key)
    case None =>
    case Some(f) => WithoutKeeps(es, f, k);
  }

  lemma WithoutKeeps<T>(s: seq<T>, f: nat, k: nat)
    requires f < |s| && k < |s| && k != f
    ensures var i := if k > f then k - 1 else k; i < |s| - 1 && Without(s, f)[i] == s[k]
  {
    WithoutAt(s, f, if k > f then k - 1 else k);
  }

  /** Keys in the order of their uses are distinct, so none but the touched entry has its key. */
  lemma OtherKey<K(!new), P>(es: seq<Entry<K, P>>, uses: seq<K>, key: K, k: nat)
    requires Ordered(es, uses) && k < |es| && Find(es, key) != Some(k)
    ensures es[k].key != key
  {
    match Find(es, key)
    case None =>
    case Some(f) => assert if k < f then UsedBefore(es, uses, k, f) else UsedBefore(es, uses, f, k);
  }

  /** An entry other than the touched one keeps its last use. */
  lemma LastUseOfOther<K(!new), P>(es: seq<Entry<K, P>>, uses: seq<K>, e: Entry<K, P>, i: nat)
    requires Ordered(es, uses) && i < |Touched(es, e)| - 1
    ensures var k := Origin(es, e.key, i);
            k < |es| && LastUse(uses + [e.key], Touched(es, e)[i].key) == LastUse(uses, es[k].key) > 0
  {
    TouchedAt(es, e, i);
    var k := Origin(es, e.key, i);
    OtherKey(es, uses, e.key, k);
    LastUseOfNext(uses, e.key, es[k].key);
    assert Used(es, uses, k);
  }

  /** Using a key keeps the entries in the order of their last use. */
  lemma TouchedIsOrdered<K(!new), P>(es: seq<Entry<K, P>>, uses: seq<K>, e: Entry<K, P>)
    requires Ordered(es, uses)
    ensures Ordered(Touched(es, e), uses + [e.key])
  {
    var r, now := Touched(es, e), uses + [e.key];
    forall i | 0 <= i < |r|
      ensures Used(r, now, i)
    {
      TouchedUse(es, uses, e, i);
    }
    forall i, j | 0 <= i < j < |r|
      ensures UsedBefore(r, now, i, j)
    {
      TouchedUse(es, uses, e, i);
      TouchedUse(es, uses, e, j);
      if j < |r| - 1 {
        assert UsedBefore(es, uses, Origin(es, e.key, i), Origin(es, e.key, j));
      }
    }
  }

  lemma TouchedUse<K(!new), P>(es: seq<Entry<K, P>>, uses: seq<K>, e: Entry<K, P>, i: nat)
    requires Ordered(es, uses) && i < |Touched(es, e)|
    ensures var use := LastUse(uses + [e.key], Touched(es, e)[i].key);
            if i == |Touched(es, e)| - 1 then use == |uses| + 1
            else Origin(es, e.key, i) < |es| && 0 < use == LastUse(uses, es[Origin(es, e.key, i)].key)
  {
    if i == |Touched(es, e)| - 1 {
      LastUseOfNext(uses, e.key, e.key);
    } else {
      LastUseOfOther(es, uses, e, i);
    }
  }

  lemma TrimmedAt<K, P>(es: seq<Entry<K, P>>, i: nat)
    requires i < |Trimmed(es)|
    ensures |es| >= |Trimmed(es)| && Trimmed(es)[i] == es[|es| - |Trimmed(es)| + i]
  {
    TrimmedIsSuffix(es);
  }

  lemma TrimmedIsOrdered<K(!new), P>(es: seq<Entry<K, P>>, uses: seq<K>)
    requires Ordered(es, uses)
    ensures Ordered(Trimmed(es), uses)
  {
    var t := Trimmed(es);
    var cut := |es| - |t|;
    forall i | 0 <= i < |t|
      ensures Used(t, uses, i)
    {
      TrimmedAt(es, i);
      assert Used(es, uses, cut + i);
    }
    forall i, j | 0 <= i < j < |t|
      ensures UsedBefore(t, uses, i, j)
    {
      TrimmedAt(es, i);
      TrimmedAt(es, j);
      assert UsedBefore(es, uses, cut + i, cut + j);
    }
  }

  lemma TouchedIsMostRecent<K(!new), P>(es: seq<Entry<K, P>>, uses: seq<K>, e: Entry<K, P>)
    requires MostRecent(es, uses)
    ensures MostRecent(Trimmed(Touched(es, e)), uses + [e.key])
    ensures Find(es, e.key).Some? ==> Trimmed(Touched(es, e)) == Touched(es, e)
  {
    TouchedIsOrdered(es, uses, e);
    TrimmedIsOrdered(Touched(es, e), uses + [e.key]);
    TrimmedIsSuffix(Touched(es, e));
    forall key | LastUse(uses + [e.key], key) > 0 && Find(Trimmed(Touched(es, e)), key).None?
      ensures OlderThanAll(Trimmed(Touched(es, e)), uses + [e.key], key)
    {
      MissingIsOlder(es, uses, e, key);
    }
  }

  /** A used key that is not among the entries after a use was used before all of them. */
  lemma MissingIsOlder<K(!new), P>(es: seq<Entry<K, P>>, uses: seq<K>, e: Entry<K, P>, key: K)
    requires MostRecent(es, uses) && LastUse(uses + [e.key], key) > 0
    requires Find(Trimmed(Touched(es, e)), key).None?
    ensures OlderThanAll(Trimmed(Touched(es, e)), uses + [e.key], key)
  {
    NotTheLast(Touched(es, e), e, key);
    match Find(es, key)
    case Some(i) => DroppedIsOlder(es, uses, e, i);
    case None => AbsentIsOlder(es, uses, e, key);
  }

  lemma NotTheLast<K(!new), P>(es: seq<Entry<K, P>>, e: Entry<K, P>, key: K)
    requires es != [] && es[|es| - 1] == e && Find(Trimmed(es), key).None?
    ensures key != e.key
  {
    TrimmedIsSuffix(es);
    TrimmedAt(es, |Trimmed(es)| - 1);
  }

  /** An entry whose key is not left was cut off. */
  lemma MissingIsCut<K(!new), P>(es: seq<Entry<K, P>>, k: nat)
    requires k < |es| && Find(Trimmed(es), es[k].key).None?
    ensures k < |es| - |Trimmed(es)| && |Trimmed(es)| == MAX_ENTRIES
  {
    TrimmedIsSuffix(es);
    if k >= |es| - |Trimmed(es)| {
      KeptIsFound(es, k);
    }
  }

  lemma KeptIsFound<K(!new), P>(es: seq<Entry<K, P>>, k: nat)
    requires |es| - |Trimmed(es)| <= k < |es|
    ensures Find(Trimmed(es), es[k].key).Some?
  {
    TrimmedAt(es, k - (|es| - |Trimmed(es)|));
  }

  /** The key was dropped just now. */
  lemma DroppedIsOlder<K(!new), P>(es: seq<Entry<K, P>>, uses: seq<K>, e: Entry<K, P>, i: nat)
    requires Ordered(es, uses) && i < |es| && es[i].key != e.key
    requires Find(Trimmed(Touched(es, e)), es[i].key).None?
    ensures OlderThanAll(Trimmed(Touched(es, e)), uses + [e.key], es[i].key)
  {
    var r := Touched(es, e);
    var k, cut := Place(es, e.key, i), |r| - |Trimmed(r)|;
    TouchedKeeps(es, e, i);
    MissingIsCut(r, k);
    TouchedIsOrdered(es, uses, e);
    TrimmedAt(r, 0);
    assert UsedBefore(r, uses + [e.key], k, cut);
  }

  /** The key was not there before. */
  lemma AbsentIsOlder<K(!new), P>(es: seq<Entry<K, P>>, uses: seq<K>, e: Entry<K, P>, key: K)
    requires MostRecent(es, uses) && key != e.key && Find(es, key).None? && LastUse(uses + [e.key], key) > 0
    ensures OlderThanAll(Trimmed(Touched(es, e)), uses + [e.key], key)
  {
    var r := Touched(es, e);
    LastUseOfNext(uses, e.key, key);
    assert OlderThanAll(es, uses, key);
    TrimmedIsSuffix(r);
    var cut := |r| - |Trimmed(r)|;
    TrimmedAt(r, 0);
    LastUseOfOther(es, uses, e, cut);
    NotBeforeFirst(es, uses, Origin(es, e.key, cut));
  }

  lemma NotBeforeFirst<K(!new), P>(es: seq<Entry<K, P>>, uses: seq<K>, k: nat)
    requires Ordered(es, uses) && k < |es|
    ensures LastUse(uses, es[0].key) <= LastUse(uses, es[k].key)
  {
    if k > 0 {
      assert UsedBefore(es, uses, 0, k);
    }
  }

  // ----- what holds in every reachable state -----

  ghost predicate Invariant<K(!new), P(!new)>(compile: K -> Option<P>, s: System<K, P>) {
    && Correct(compile, s.cache.entries)
    && MostRecent(s.cache.entries, s.uses)
    && s.cache.hits + s.cache.misses == s.lookups
    && Truthful(compile, s.answers)
  }

  /** Every answer is the uncached program of the key that was asked for. */
  ghost predicate Truthful<K(!new), P(!new)>(compile: K -> Option<P>, answers: seq<Answer<K, P>>) {
    forall i :: 0 <= i < |answers| ==> compile(answers[i].key) == Some(answers[i].program)
  }

  lemma StepKeepsInvariant<K(!new), P(!new)>(compile: K -> Option<P>, s: System<K, P>, e: Event<K>)
    requires Invariant(compile, s) && Apply(compile, s, e).Some?
    ensures Invariant(compile, Apply(compile, s, e).value)
  {
    match e
    case Lookup(t, key) => LookupKeepsInvariant(compile, s, key);
    case Finish(t) =>
      if compile(s.pending[t]).Some? {
        StoreKeepsInvariant(compile, s, s.pending[t], compile(s.pending[t]).value);
      }
    case Clear =>
  }

  lemma LookupKeepsInvariant<K(!new), P(!new)>(compile: K -> Option<P>, s: System<K, P>, key: K)
    requires Invariant(compile, s)
    ensures var es := LookedUp(s.cache, key).entries;
            Correct(compile, es) && MostRecent(es, if Find(s.cache.entries, key).Some? then s.uses + [key] else s.uses)
  {
    CorrectSections(compile, s.cache, key);
    if Find(s.cache.entries, key).Some? {
      TouchedIsMostRecent(s.cache.entries, s.uses, s.cache.entries[Find(s.cache.entries, key).value]);
    }
  }

  lemma StoreKeepsInvariant<K(!new), P(!new)>(compile: K -> Option<P>, s: System<K, P>, key: K, program: P)
    requires Invariant(compile, s) && compile(key) == Some(program)
    ensures var es := Stored(s.cache, key, program).entries;
            Correct(compile, es) && MostRecent(es, s.uses + [key])
  {
    CorrectSections(compile, s.cache, key);
    TouchedIsMostRecent(s.cache.entries, s.uses, Entry(key, program));
  }

  /** After any interleaving: entries are what compiling gives, there are at most 128 of them, the most
      recently used ones, and hits and misses add up to the lookups since the last clear. */
  lemma {:induction false} EveryRunKeepsInvariant<K(!new), P(!new)>(compile: K -> Option<P>, events: seq<Event<K>>)
    requires Run(compile, events).Some?
    ensures Invariant(compile, Run(compile, events).value)
  {
    if events != [] {
      EveryRunKeepsInvariant(compile, events[..|events| - 1]);
      StepKeepsInvariant(compile, Run(compile, events[..|events| - 1]).value, events[|events| - 1]);
    }
  }

  /** Over any interleaving no thread is handed a program other than the one it asked for. */
  lemma {:induction false} AnswersAreCorrect<K(!new), P(!new)>(compile: K -> Option<P>, events: seq<Event<K>>, i: nat)
    requires Run(compile, events).Some? && i < |Run(compile, events).value.answers|
    ensures var a := Run(compile, events).value.answers[i]; compile(a.key) == Some(a.program)
  {
    EveryRunKeepsInvariant(compile, events);
  }

  /** The event after which the thread had its answer: a lookup of this key by this thread that hit, or
      the end of a compilation of this key by this thread. */
  ghost predicate AnsweredBy<K(!new), P(!new)>(compile: K -> Option<P>, events: seq<Event<K>>, n: nat, a: Answer<K, P>)
    requires n < |events|
  {
    var s := Run(compile, events[..n]);
    && s.Some?
    && match events[n]
       case Lookup(t, key) => a.thread == t && a.key == key && Find(s.value.cache.entries, key).Some?
       case Finish(t) => a.thread == t && t in s.value.pending && a.key == s.value.pending[t]
       case Clear => false
  }

  /** Answers go to threads that asked. */
  lemma {:induction false} AnswersWereAskedFor<K(!new), P(!new)>(compile: K -> Option<P>, events: seq<Event<K>>, i: nat)
    requires Run(compile, events).Some? && i < |Run(compile, events).value.answers|
    ensures exists n :: 0 <= n < |events| && AnsweredBy(compile, events, n, Run(compile, events).value.answers[i])
  {
    var last := |events| - 1;
    var init := events[..last];
    var a := Run(compile, events).value.answers[i];
    if i < |Run(compile, init).value.answers| {
      AnswersWereAskedFor(compile, init, i);
      var n :| 0 <= n < last && AnsweredBy(compile, init, n, a);
      assert init[..n] == events[..n];
      assert AnsweredBy(compile, events, n, a);
    } else {
      assert AnsweredBy(compile, events, last, a);
    }
  }
}
