/** A hash-chained double-entry ledger: create, post, verify, balance.

    A ledger is a value; posting returns a new one and leaves the old one as it was. The canonical
    hash and the decimal arithmetic on amount texts are parameters. */
module Ledger {
  import Money
  import opened Text
  import opened Options

  datatype Posting = Posting(account: string, amount: string)

  datatype Body = Body(id: string, currency: string, postings: seq<Posting>, memo: string, metadata: string,
                       previousHash: string)

  datatype Entry = Entry(body: Body, hash: string)

  datatype Ledger = Ledger(currency: string, entries: seq<Entry>, head: string)

  /** `quantize` rounds an amount text to a text with two decimals, `cents` reads any amount text in
      hundredths, rounded; both refuse the same texts. */
  datatype Amounts = Amounts(quantize: string -> Option<string>, cents: string -> Option<int>)

  /** Quantizing does not change what an amount is worth. */
  ghost predicate Lawful(a: Amounts) {
    forall t {:trigger a.quantize(t)} ::
      && (a.quantize(t).Some? <==> a.cents(t).Some?)
      && (a.quantize(t).Some? ==> a.cents(a.quantize(t).value) == a.cents(t))
  }

  datatype System = System(hash: Body -> string, amounts: Amounts)

  /** The hash before the first entry: 64 zeros. */
  function Genesis(): string {
    seq(64, i => '0')
  }

  /** No two bodies have the same hash, and none has the genesis value. */
  ghost predicate CollisionFree(sys: System) {
    && (forall x, y {:trigger sys.hash(x), sys.hash(y)} :: sys.hash(x) == sys.hash(y) ==> x == y)
    && (forall x {:trigger sys.hash(x)} :: sys.hash(x) != Genesis())
  }

  // ----- text -----

  function UpperChar(c: char): char {
    if 'a' <= c <= 'z' then (c as int - 32) as char else c
  }

  function Upper(s: string): string {
    seq(|s|, i requires 0 <= i < |s| => UpperChar(s[i]))
  }

  const MAX_CURRENCY := 12

  function Currency(s: string): Option<string> {
    var r := Upper(Strip(if s == "" then "USD" else s));
    if r == "" || |r| > MAX_CURRENCY then None else Some(r)
  }

  /** A normalised currency is its own normal form. */
  lemma {:induction false} CurrencyIsIdempotent(s: string)
    requires Currency(s).Some?
    ensures Currency(Currency(s).value) == Currency(s)
  {
    var stripped := Strip(if s == "" then "USD" else s);
    var r := Upper(stripped);
    StripEnds(if s == "" then "USD" else s);
    assert !IsSpace(r[0]) && !IsSpace(r[|r| - 1]);
    assert LStrip(IsSpace, r) == r && RStrip(IsSpace, r) == r;
    assert Upper(r) == r;
  }

  function Create(currency: string): Option<Ledger> {
    match Currency(currency)
    case None => None
    case Some(c) => Some(Ledger(c, [], Genesis()))
  }

  function HeadOf(l: Ledger): string {
    if l.head == "" then Genesis() else l.head
  }

  // ----- sums -----

  function CentsOf(sys: System, p: Posting): int {
    match sys.amounts.cents(p.amount)
    case None => 0
    case Some(c) => c
  }

  predicate Readable(sys: System, rows: seq<Posting>) {
    forall i :: 0 <= i < |rows| ==> sys.amounts.cents(rows[i].amount).Some?
  }

  function Total(sys: System, rows: seq<Posting>): int {
    if rows == [] then 0 else Total(sys, rows[..|rows| - 1]) + CentsOf(sys, rows[|rows| - 1])
  }

  /** What the rows for one account add up to. */
  function TotalFor(sys: System, rows: seq<Posting>, account: string): int {
    if rows == [] then 0
    else
      TotalFor(sys, rows[..|rows| - 1], account) +
      if rows[|rows| - 1].account == account then CentsOf(sys, rows[|rows| - 1]) else 0
  }

  // ----- sums in other words -----

  /** The cents the rows were given, as they are read. */
  function CentsGiven(sys: System, rows: seq<Posting>): (r: seq<int>)
    requires Readable(sys, rows)
    ensures |r| == |rows|
  {
    seq(|rows|, i requires 0 <= i < |rows| => sys.amounts.cents(rows[i].amount).value)
  }

  function Sum(xs: seq<int>): int {
    if xs == [] then 0 else xs[0] + Sum(xs[1..])
  }

  lemma SumOfOne(x: int)
    ensures Sum([x]) == x
  {
    assert [x][1..] == [];
  }

  lemma SumOfTwo(x: int, y: int)
    ensures Sum([x, y]) == x + y
  {
    assert [x, y][1..] == [y];
    SumOfOne(y);
  }

  lemma {:induction false} SumAppend(xs: seq<int>, ys: seq<int>)
    ensures Sum(xs + ys) == Sum(xs) + Sum(ys)
  {
    if xs == [] {
      assert xs + ys == ys;
    } else {
      assert (xs + ys)[1..] == xs[1..] + ys;
      SumAppend(xs[1..], ys);
    }
  }

  /** The total of rows is the sum of their cents. */
  lemma {:induction false} TotalIsSum(sys: System, rows: seq<Posting>)
    requires Readable(sys, rows)
    ensures Total(sys, rows) == Sum(CentsGiven(sys, rows))
  {
    if rows != [] {
      var init, last := rows[..|rows| - 1], rows[|rows| - 1];
      TotalIsSum(sys, init);
      var c := sys.amounts.cents(last.amount).value;
      assert CentsGiven(sys, rows) == CentsGiven(sys, init) + [c];
      SumAppend(CentsGiven(sys, init), [c]);
      SumOfOne(c);
    }
  }

  /** The rows of one account, in order. */
  function RowsOf(rows: seq<Posting>, account: string): seq<Posting> {
    if rows == [] then []
    else (if rows[0].account == account then [rows[0]] else []) + RowsOf(rows[1..], account)
  }

  /** What rows add up to for an account is the sum of the cents of its rows. */
  lemma TotalForIsSum(sys: System, rows: seq<Posting>, account: string)
    requires Readable(sys, RowsOf(rows, account))
    ensures TotalFor(sys, rows, account) == Sum(CentsGiven(sys, RowsOf(rows, account)))
  {
    TotalForIsTotal(sys, rows, account);
    TotalIsSum(sys, RowsOf(rows, account));
  }

  lemma {:induction false} TotalForIsTotal(sys: System, rows: seq<Posting>, account: string)
    ensures TotalFor(sys, rows, account) == Total(sys, RowsOf(rows, account))
  {
    if rows != [] {
      var init, last := rows[..|rows| - 1], rows[|rows| - 1];
      TotalForIsTotal(sys, init, account);
      assert init + [last] == rows;
      TotalOfSnoc(sys, init, last, account);
    }
  }

  lemma TotalOfSnoc(sys: System, init: seq<Posting>, last: Posting, account: string)
    ensures Total(sys, RowsOf(init + [last], account)) ==
            Total(sys, RowsOf(init, account)) + if last.account == account then CentsOf(sys, last) else 0
  {
    RowsOfSnoc(init, last, account);
    var before := RowsOf(init, account);
    if last.account == account {
      TotalSnoc(sys, before, last);
    } else {
      assert before + [] == before;
    }
  }

  lemma {:induction false} RowsOfSnoc(rows: seq<Posting>, last: Posting, account: string)
    ensures RowsOf(rows + [last], account) == RowsOf(rows, account) + if last.account == account then [last] else []
  {
    var all := rows + [last];
    if rows == [] {
      assert all == [last] && [last][1..] == [];
    } else {
      RowsOfSnoc(rows[1..], last, account);
      assert all[1..] == rows[1..] + [last];
      var front := if rows[0].account == account then [rows[0]] else [];
      var back := if last.account == account then [last] else [];
      assert RowsOf(all, account) == front + RowsOf(all[1..], account);
      InThree(front, RowsOf(rows[1..], account), back);
    }
  }

  lemma InThree<T>(a: seq<T>, b: seq<T>, c: seq<T>)
    ensures a + (b + c) == a + b + c
  {
  }

  // ----- verify -----

  datatype Reason = BadId | BrokenChain | BadCurrency | BadAmount | Unbalanced | HashMismatch | HeadMismatch

  datatype Verdict = Good(count: nat, head: string) | Bad(reason: Reason, index: nat)

  /** The first thing wrong with an entry, given the hash before it and the ids before it. */
  function EntryFault(sys: System, l: Ledger, e: Entry, expected: string, seen: set<string>): Option<Reason> {
    if e.body.id == "" || e.body.id in seen then Some(BadId)
    else if e.body.previousHash != expected then Some(BrokenChain)
    else if Currency(e.body.currency).None? || Currency(e.body.currency) != Currency(l.currency) then Some(BadCurrency)
    else if !Readable(sys, e.body.postings) then Some(BadAmount)
    else if Total(sys, e.body.postings) != 0 then Some(Unbalanced)
    else if e.hash != sys.hash(e.body) then Some(HashMismatch)
    else None
  }

  function IdsBefore(l: Ledger, i: nat): set<string>
    requires i <= |l.entries|
  {
    set k | 0 <= k < i :: l.entries[k].body.id
  }

  function HashBefore(l: Ledger, i: nat): string
    requires i <= |l.entries|
  {
    if i == 0 then Genesis() else l.entries[i - 1].hash
  }

  ghost predicate SoundEntry(sys: System, l: Ledger, i: nat)
    requires i < |l.entries|
  {
    && l.entries[i].body.id != ""
    && (forall k :: 0 <= k < i ==> l.entries[k].body.id != l.entries[i].body.id)
    && l.entries[i].body.previousHash == HashBefore(l, i)
    && Currency(l.entries[i].body.currency).Some?
    && Currency(l.entries[i].body.currency) == Currency(l.currency)
    && Readable(sys, l.entries[i].body.postings)
    && Total(sys, l.entries[i].body.postings) == 0
    && l.entries[i].hash == sys.hash(l.entries[i].body)
  }

  ghost predicate SoundUpTo(sys: System, l: Ledger, n: nat)
    requires n <= |l.entries|
  {
    forall i {:trigger SoundEntry(sys, l, i)} :: 0 <= i < n ==> SoundEntry(sys, l, i)
  }

  /** A ledger in which nothing is wrong, said about all entries at once. */
  ghost predicate Sound(sys: System, l: Ledger) {
    && SoundUpTo(sys, l, |l.entries|)
    && HeadOf(l) == HashBefore(l, |l.entries|)
  }

  method SumPostings(sys: System, rows: seq<Posting>) returns (total: Option<int>)
    ensures total == if Readable(sys, rows) then Some(Total(sys, rows)) else None
  {
    var sum := 0;
    for i := 0 to |rows|
      invariant Readable(sys, rows[..i]) && sum == Total(sys, rows[..i])
    {
      var c := sys.amounts.cents(rows[i].amount);
      if c.None? {
        return None;
      }
      assert rows[..i + 1][..i] == rows[..i] && rows[..i + 1][i] == rows[i];
      sum := sum + c.value;
    }
    assert rows[..|rows|] == rows;
    total := Some(sum);
  }

  /** One turn of the loop of verify. */
  method CheckEntry(sys: System, l: Ledger, e: Entry, expected: string, seen: set<string>)
    returns (fault: Option<Reason>)
    ensures fault == EntryFault(sys, l, e, expected, seen)
  {
    if e.body.id == "" || e.body.id in seen {
      return Some(BadId);
    }
    if e.body.previousHash != expected {
      return Some(BrokenChain);
    }
    var mine, its := Currency(e.body.currency), Currency(l.currency);
    if mine.None? || its.None? || mine != its {
      return Some(BadCurrency);
    }
    var total := SumPostings(sys, e.body.postings);
    if total.None? {
      return Some(BadAmount);
    }
    if total.value != 0 {
      return Some(Unbalanced);
    }
    if e.hash != sys.hash(e.body) {
      return Some(HashMismatch);
    }
    fault := None;
  }

  /** The loop accepts exactly the sound ledgers, and otherwise reports the first faulty entry. */
  method Verify(sys: System, l: Ledger) returns (v: Verdict)
    ensures v.Good? <==> Sound(sys, l)
    ensures v.Good? ==> v == Good(|l.entries|, HeadOf(l))
    ensures v.Bad? && v.reason != HeadMismatch ==>
              v.index < |l.entries| &&
              EntryFault(sys, l, l.entries[v.index], HashBefore(l, v.index), IdsBefore(l, v.index)) == Some(v.reason) &&
              SoundUpTo(sys, l, v.index)
  {
    var expected, seen: set<string> := Genesis(), {};
    for i := 0 to |l.entries|
      invariant expected == HashBefore(l, i) && seen == IdsBefore(l, i)
      invariant SoundUpTo(sys, l, i)
    {
      var fault := CheckEntry(sys, l, l.entries[i], expected, seen);
      FaultFree(sys, l, i);
      if fault.Some? {
        return Bad(fault.value, i);
      }
      seen := seen + {l.entries[i].body.id};
      expected := l.entries[i].hash;
    }
    if HeadOf(l) != expected {
      return Bad(HeadMismatch, |l.entries|);
    }
    v := Good(|l.entries|, expected);
  }

  /** Nothing is wrong with an entry exactly when it is sound. */
  lemma FaultFree(sys: System, l: Ledger, i: nat)
    requires i < |l.entries|
    ensures EntryFault(sys, l, l.entries[i], HashBefore(l, i), IdsBefore(l, i)) == None <==> SoundEntry(sys, l, i)
  {
    var id := l.entries[i].body.id;
    assert id in IdsBefore(l, i) <==> exists k :: 0 <= k < i && l.entries[k].body.id == id;
  }

  /** Ids present and different, each entry chained to the one before and to the head, one currency,
      rows that are read and add up to nothing, and hashes that are those of the bodies. */
  ghost predicate SoundByField(sys: System, l: Ledger) {
    && (forall i :: 0 <= i < |l.entries| ==> l.entries[i].body.id != "")
    && (forall i, k :: 0 <= k < i < |l.entries| ==> l.entries[k].body.id != l.entries[i].body.id)
    && (|l.entries| > 0 ==> l.entries[0].body.previousHash == Genesis())
    && (forall i :: 1 <= i < |l.entries| ==> l.entries[i].body.previousHash == l.entries[i - 1].hash)
    && (forall i :: 0 <= i < |l.entries| ==> Currency(l.entries[i].body.currency).Some?)
    && (forall i :: 0 <= i < |l.entries| ==> Currency(l.entries[i].body.currency) == Currency(l.currency))
    && (forall i :: 0 <= i < |l.entries| ==> Balanced(sys, l.entries[i].body.postings))
    && (forall i :: 0 <= i < |l.entries| ==> l.entries[i].hash == sys.hash(l.entries[i].body))
    && (if l.head == "" then Genesis() else l.head) ==
       if l.entries == [] then Genesis() else l.entries[|l.entries| - 1].hash
  }

  ghost predicate Balanced(sys: System, rows: seq<Posting>) {
    (forall i :: 0 <= i < |rows| ==> sys.amounts.cents(rows[i].amount).Some?) && Sum(CentsGiven(sys, rows)) == 0
  }

  /** What an entry is refused for: the first of these that is wrong with it. */
  lemma FirstFault(sys: System, l: Ledger, e: Entry, expected: string, seen: set<string>)
    ensures var b := e.body;
            var unreadable := exists i :: 0 <= i < |b.postings| && sys.amounts.cents(b.postings[i].amount).None?;
            EntryFault(sys, l, e, expected, seen) ==
            if b.id == "" || b.id in seen then Some(BadId)
            else if b.previousHash != expected then Some(BrokenChain)
            else if Currency(b.currency).None? || Currency(b.currency) != Currency(l.currency) then Some(BadCurrency)
            else if unreadable then Some(BadAmount)
            else if Sum(CentsGiven(sys, b.postings)) != 0 then Some(Unbalanced)
            else if e.hash != sys.hash(b) then Some(HashMismatch)
            else None
  {
    if Readable(sys, e.body.postings) {
      TotalIsSum(sys, e.body.postings);
    }
  }

  /** That is what a sound ledger is. */
  lemma SoundExactly(sys: System, l: Ledger)
    ensures Sound(sys, l) <==> SoundByField(sys, l)
  {
    forall i | 0 <= i < |l.entries|
      ensures Balanced(sys, l.entries[i].body.postings) <==>
              Readable(sys, l.entries[i].body.postings) && Total(sys, l.entries[i].body.postings) == 0
    {
      if Readable(sys, l.entries[i].body.postings) {
        TotalIsSum(sys, l.entries[i].body.postings);
      }
    }
    if Sound(sys, l) {
      SoundIds(sys, l);
      SoundChain(sys, l);
      SoundBodies(sys, l);
    }
    if SoundByField(sys, l) {
      forall i | 0 <= i < |l.entries|
        ensures SoundEntry(sys, l, i)
      {
      }
    }
  }

  lemma SoundIds(sys: System, l: Ledger)
    requires Sound(sys, l)
    ensures forall i :: 0 <= i < |l.entries| ==> l.entries[i].body.id != ""
    ensures forall i, k :: 0 <= k < i < |l.entries| ==> l.entries[k].body.id != l.entries[i].body.id
  {
    forall i | 0 <= i < |l.entries|
      ensures l.entries[i].body.id != "" && forall k :: 0 <= k < i ==> l.entries[k].body.id != l.entries[i].body.id
    {
      assert SoundEntry(sys, l, i);
    }
  }

  lemma SoundChain(sys: System, l: Ledger)
    requires Sound(sys, l)
    ensures |l.entries| > 0 ==> l.entries[0].body.previousHash == Genesis()
    ensures forall i :: 1 <= i < |l.entries| ==> l.entries[i].body.previousHash == l.entries[i - 1].hash
  {
    forall i | 0 <= i < |l.entries|
      ensures l.entries[i].body.previousHash == if i == 0 then Genesis() else l.entries[i - 1].hash
    {
      assert SoundEntry(sys, l, i);
    }
    if |l.entries| > 0 {
      assert SoundEntry(sys, l, 0) && HashBefore(l, 0) == Genesis();
    }
  }

  lemma SoundBodies(sys: System, l: Ledger)
    requires Sound(sys, l)
    ensures forall i :: 0 <= i < |l.entries| ==> Currency(l.entries[i].body.currency).Some?
    ensures forall i :: 0 <= i < |l.entries| ==> Currency(l.entries[i].body.currency) == Currency(l.currency)
    ensures forall i :: 0 <= i < |l.entries| ==> Balanced(sys, l.entries[i].body.postings)
    ensures forall i :: 0 <= i < |l.entries| ==> l.entries[i].hash == sys.hash(l.entries[i].body)
  {
    forall i | 0 <= i < |l.entries|
      ensures Currency(l.entries[i].body.currency).Some? && Currency(l.entries[i].body.currency) == Currency(l.currency)
      ensures Balanced(sys, l.entries[i].body.postings) && l.entries[i].hash == sys.hash(l.entries[i].body)
    {
      assert SoundEntry(sys, l, i);
      TotalIsSum(sys, l.entries[i].body.postings);
    }
  }

  /** The hash before the first entry is 64 zeros. */
  lemma GenesisIsZeros()
    ensures |Genesis()| == 64 && forall i :: 0 <= i < 64 ==> Genesis()[i] == '0'
  {
  }

  /** "USD" when no currency is given. */
  lemma CurrencyExamples()
    ensures Currency("") == Some("USD") && Currency(" ") == None
    ensures Currency(" eUr\n") == Some("EUR")
  {
    assert "" + "USD" + "" == "USD" && Currency("") == Currency("USD");
    CurrencyOf("", "USD", "", "USD");
    CurrencyOf(" ", "", "", "");
    assert " " + "" + "" == " ";
    EuroExample();
  }

  lemma EuroExample()
    ensures Currency(" eUr\n") == Some("EUR")
  {
    CurrencyOf(" ", "eUr", "\n", "EUR");
    assert " " + "eUr" + "\n" == " eUr\n";
  }

  /** A currency is its letters in upper case without the blanks around them, at most twelve of them. */
  lemma CurrencyOf(front: string, name: string, back: string, upper: string)
    requires (forall k :: 0 <= k < |front| ==> front[k] == ' ') && forall k :: 0 <= k < |back| ==> back[k] == '\n'
    requires (forall k :: 0 <= k < |name| ==> 'A' <= name[k] <= 'Z' || 'a' <= name[k] <= 'z') && |upper| == |name|
    requires forall k :: 0 <= k < |name| ==>
               upper[k] == if 'a' <= name[k] then (name[k] as int - 32) as char else name[k]
    requires front + name + back != ""
    ensures Currency(front + name + back) == if name == "" || |name| > 12 then None else Some(upper)
  {
    StripOnly(front, name, back);
    assert Upper(name) == upper;
  }

  // ----- post -----

  datatype Request = Request(id: string, postings: seq<Posting>, memo: string, metadata: string)

  /** The rows as they are stored: accounts stripped, amounts quantized. */
  function Normalized(sys: System, rows: seq<Posting>): Option<seq<Posting>> {
    if rows == [] then Some([])
    else
      var last := rows[|rows| - 1];
      match Normalized(sys, rows[..|rows| - 1])
      case None => None
      case Some(before) =>
        if Strip(last.account) == "" || sys.amounts.quantize(last.amount).None? then None
        else Some(before + [Posting(Strip(last.account), sys.amounts.quantize(last.amount).value)])
  }

  predicate HasId(l: Ledger, id: string) {
    exists i :: 0 <= i < |l.entries| && l.entries[i].body.id == id
  }

  /** The body a request turns into, unless it is refused. */
  function BodyOf(sys: System, l: Ledger, r: Request): Option<Body> {
    var id, rows := Strip(r.id), Normalized(sys, r.postings);
    if id == "" || HasId(l, id) || |r.postings| < 2 || rows.None? || Total(sys, rows.value) != 0 ||
       Currency(l.currency).None?
    then None
    else Some(Body(id, Currency(l.currency).value, rows.value, r.memo, r.metadata, HeadOf(l)))
  }

  function Posted(sys: System, l: Ledger, b: Body): Ledger {
    var e := Entry(b, sys.hash(b));
    Ledger(l.currency, l.entries + [e], e.hash)
  }

  /** The ledger after a post, field by field. */
  ghost predicate IsPosted(sys: System, l: Ledger, r: Request, out: Ledger) {
    var n := |l.entries|;
    && |out.entries| == n + 1
    && (forall k :: 0 <= k < n ==> out.entries[k] == l.entries[k])
    && out.currency == l.currency
    && out.head == out.entries[n].hash == sys.hash(out.entries[n].body)
    && var b := out.entries[n].body;
       && b.id == Strip(r.id)
       && Currency(l.currency) == Some(b.currency)
       && |b.postings| == |r.postings|
       && (forall k :: 0 <= k < |r.postings| ==> b.postings[k].account == Strip(r.postings[k].account))
       && (forall k :: 0 <= k < |r.postings| ==>
             && sys.amounts.quantize(r.postings[k].amount) == Some(b.postings[k].amount)
             && sys.amounts.cents(b.postings[k].amount) == sys.amounts.cents(r.postings[k].amount))
       && b.memo == r.memo && b.metadata == r.metadata
       && b.previousHash == if l.head == "" then Genesis() else l.head
  }

  /** When a post is accepted, and what it then is, without the function that decides it. */
  lemma PostedExactly(sys: System, l: Ledger, r: Request)
    requires Lawful(sys.amounts)
    ensures BodyOf(sys, l, r).Some? <==>
              && Strip(r.id) != ""
              && (forall k :: 0 <= k < |l.entries| ==> l.entries[k].body.id != Strip(r.id))
              && |r.postings| >= 2
              && (forall k :: 0 <= k < |r.postings| ==> Strip(r.postings[k].account) != "")
              && (forall k :: 0 <= k < |r.postings| ==> sys.amounts.cents(r.postings[k].amount).Some?)
              && Sum(CentsGiven(sys, r.postings)) == 0
              && Currency(l.currency).Some?
    ensures BodyOf(sys, l, r).Some? ==> IsPosted(sys, l, r, Posted(sys, l, BodyOf(sys, l, r).value))
  {
    NormalizedExactly(sys, r.postings);
    if Normalized(sys, r.postings).Some? {
      TotalIsSum(sys, r.postings);
    }
  }

  lemma {:induction false} NormalizedExactly(sys: System, rows: seq<Posting>)
    requires Lawful(sys.amounts)
    ensures Normalized(sys, rows).Some? <==> RowsPostable(sys, rows)
    ensures Normalized(sys, rows).Some? ==> AreStored(sys, rows, Normalized(sys, rows).value)
  {
    if rows != [] {
      var m := |rows| - 1;
      NormalizedExactly(sys, rows[..m]);
      OneMorePostable(sys, rows, m);
      assert sys.amounts.quantize(rows[m].amount).Some? <==> sys.amounts.cents(rows[m].amount).Some?;
      if Normalized(sys, rows).Some? {
        OneMoreStored(sys, rows, m, Normalized(sys, rows[..m]).value, Normalized(sys, rows).value);
      }
    }
  }

  ghost predicate AreStored(sys: System, rows: seq<Posting>, n: seq<Posting>) {
    && |n| == |rows| && Total(sys, n) == Total(sys, rows)
    && forall k :: 0 <= k < |rows| ==>
         n[k].account == Strip(rows[k].account) && Some(n[k].amount) == sys.amounts.quantize(rows[k].amount)
  }

  lemma OneMoreStored(sys: System, rows: seq<Posting>, m: nat, before: seq<Posting>, after: seq<Posting>)
    requires Lawful(sys.amounts) && |rows| == m + 1 && AreStored(sys, rows[..m], before)
    requires sys.amounts.quantize(rows[m].amount).Some?
    requires after == before + [Posting(Strip(rows[m].account), sys.amounts.quantize(rows[m].amount).value)]
    ensures AreStored(sys, rows, after)
  {
    TotalSnoc(sys, before, after[m]);
    assert after[m].amount == sys.amounts.quantize(rows[m].amount).value;
  }

  lemma OneMorePostable(sys: System, rows: seq<Posting>, m: nat)
    requires |rows| == m + 1
    ensures RowsPostable(sys, rows) <==>
            RowsPostable(sys, rows[..m]) && Strip(rows[m].account) != "" && sys.amounts.cents(rows[m].amount).Some?
  {
  }

  ghost predicate RowsPostable(sys: System, rows: seq<Posting>) {
    (forall k :: 0 <= k < |rows| ==> Strip(rows[k].account) != "") && Readable(sys, rows)
  }

  method Post(sys: System, l: Ledger, r: Request) returns (out: Option<Ledger>)
    requires Lawful(sys.amounts)
    ensures out.Some? <==> BodyOf(sys, l, r).Some?
    ensures out.Some? ==> out.value == Posted(sys, l, BodyOf(sys, l, r).value)
    ensures out.Some? <==>
              && Strip(r.id) != ""
              && (forall k :: 0 <= k < |l.entries| ==> l.entries[k].body.id != Strip(r.id))
              && |r.postings| >= 2
              && (forall k :: 0 <= k < |r.postings| ==> Strip(r.postings[k].account) != "")
              && (forall k :: 0 <= k < |r.postings| ==> sys.amounts.cents(r.postings[k].amount).Some?)
              && Sum(CentsGiven(sys, r.postings)) == 0
              && Currency(l.currency).Some?
    ensures out.Some? ==> IsPosted(sys, l, r, out.value)
  {
    PostedExactly(sys, l, r);
    var id := Strip(r.id);
    if id == "" {
      return None;
    }
    for i := 0 to |l.entries|
      invariant forall k :: 0 <= k < i ==> l.entries[k].body.id != id
    {
      if l.entries[i].body.id == id {
        return None;
      }
    }
    if |r.postings| < 2 {
      return None;
    }
    var rows, total := NormalizeRows(sys, r.postings);
    if rows.None? || total != 0 {
      return None;
    }
    var currency := Currency(l.currency);
    if currency.None? {
      return None;
    }
    var body := Body(id, currency.value, rows.value, r.memo, r.metadata, HeadOf(l));
    var entry := Entry(body, sys.hash(body));
    out := Some(Ledger(l.currency, l.entries + [entry], entry.hash));
  }

  method NormalizeRows(sys: System, postings: seq<Posting>) returns (rows: Option<seq<Posting>>, total: int)
    requires Lawful(sys.amounts)
    ensures rows == Normalized(sys, postings)
    ensures rows.Some? ==> total == Total(sys, rows.value)
  {
    var normalized: seq<Posting> := [];
    total := 0;
    for i := 0 to |postings|
      invariant Normalized(sys, postings[..i]) == Some(normalized) && total == Total(sys, normalized)
    {
      NormalizedStep(sys, postings, i);
      var account := Strip(postings[i].account);
      var amount := sys.amounts.quantize(postings[i].amount);
      if account == "" || amount.None? {
        NormalizedPrefix(sys, postings, i + 1);
        return None, total;
      }
      var cents := sys.amounts.cents(postings[i].amount);
      var row := Posting(account, amount.value);
      TotalSnoc(sys, normalized, row);
      normalized, total := normalized + [row], total + cents.value;
    }
    assert postings[..|postings|] == postings;
    rows := Some(normalized);
  }

  lemma NormalizedStep(sys: System, rows: seq<Posting>, i: nat)
    requires i < |rows| && Normalized(sys, rows[..i]).Some?
    ensures Normalized(sys, rows[..i + 1]) ==
            if Strip(rows[i].account) == "" || sys.amounts.quantize(rows[i].amount).None? then None
            else Some(Normalized(sys, rows[..i]).value +
                      [Posting(Strip(rows[i].account), sys.amounts.quantize(rows[i].amount).value)])
  {
    assert rows[..i + 1][..i] == rows[..i];
  }

  lemma TotalSnoc(sys: System, rows: seq<Posting>, row: Posting)
    ensures Total(sys, rows + [row]) == Total(sys, rows) + CentsOf(sys, row)
  {
    assert (rows + [row])[..|rows|] == rows;
  }

  lemma {:induction false} NormalizedPrefix(sys: System, rows: seq<Posting>, n: nat)
    requires n <= |rows| && Normalized(sys, rows[..n]) == None
    ensures Normalized(sys, rows) == None
    decreases |rows|
  {
    if n == |rows| {
      assert rows[..n] == rows;
    } else {
      var init := rows[..|rows| - 1];
      assert init[..n] == rows[..n];
      NormalizedPrefix(sys, init, n);
    }
  }

  lemma {:induction false} NormalizedIsReadable(sys: System, rows: seq<Posting>)
    requires Lawful(sys.amounts) && Normalized(sys, rows).Some?
    ensures Readable(sys, Normalized(sys, rows).value) && |Normalized(sys, rows).value| == |rows|
  {
    if rows != [] {
      NormalizedIsReadable(sys, rows[..|rows| - 1]);
    }
  }

  /** Posting to a sound ledger gives a sound ledger, one entry longer, whose head is the new hash. */
  lemma {:induction false} PostKeepsSound(sys: System, l: Ledger, r: Request)
    requires Lawful(sys.amounts) && Sound(sys, l) && BodyOf(sys, l, r).Some?
    requires forall x :: sys.hash(x) != ""
    ensures var b := BodyOf(sys, l, r).value;
            var out := Posted(sys, l, b);
            Sound(sys, out) && |out.entries| == |l.entries| + 1 && HeadOf(out) == sys.hash(b)
  {
    var b := BodyOf(sys, l, r).value;
    var out := Posted(sys, l, b);
    NormalizedIsReadable(sys, r.postings);
    CurrencyIsIdempotent(l.currency);
    assert out.entries[..|l.entries|] == l.entries;
    forall i | 0 <= i < |out.entries|
      ensures SoundEntry(sys, out, i)
    {
      if i < |l.entries| {
        assert SoundEntry(sys, l, i);
        assert out.entries[i] == l.entries[i] && HashBefore(out, i) == HashBefore(l, i);
      } else {
        assert out.entries[i] == Entry(b, sys.hash(b));
        assert HashBefore(out, i) == HashBefore(l, i);
      }
    }
  }

  /** Replaying requests from a fresh ledger; None when one is refused. */
  function Replay(sys: System, l: Ledger, rs: seq<Request>): Option<Ledger> {
    if rs == [] then Some(l)
    else
      match Replay(sys, l, rs[..|rs| - 1])
      case None => None
      case Some(l1) =>
        match BodyOf(sys, l1, rs[|rs| - 1])
        case None => None
        case Some(b) => Some(Posted(sys, l1, b))
  }

  /** Every ledger reached from create by successful posts is sound, has one entry a post, and its
      head is the hash of the last one. */
  lemma {:induction false} ReachedLedgerIsSound(sys: System, currency: string, rs: seq<Request>)
    requires Lawful(sys.amounts) && (forall x :: sys.hash(x) != "")
    requires Create(currency).Some? && Replay(sys, Create(currency).value, rs).Some?
    ensures var l := Replay(sys, Create(currency).value, rs).value;
            Sound(sys, l) && |l.entries| == |rs| && l.head == HashBefore(l, |rs|)
  {
    var l0 := Create(currency).value;
    if rs != [] {
      ReachedLedgerIsSound(sys, currency, rs[..|rs| - 1]);
      var l1 := Replay(sys, l0, rs[..|rs| - 1]).value;
      PostKeepsSound(sys, l1, rs[|rs| - 1]);
    } else {
      assert l0.head[0] == '0';
    }
  }

  // ----- balances -----

  function BalanceUpTo(sys: System, l: Ledger, account: string, n: nat): int
    requires n <= |l.entries|
  {
    if n == 0 then 0
    else BalanceUpTo(sys, l, account, n - 1) + TotalFor(sys, l.entries[n - 1].body.postings, account)
  }

  function BalanceOf(sys: System, l: Ledger, account: string): int {
    BalanceUpTo(sys, l, account, |l.entries|)
  }

  ghost predicate ReadableFor(sys: System, rows: seq<Posting>, account: string) {
    forall i :: 0 <= i < |rows| && rows[i].account == account ==> sys.amounts.cents(rows[i].amount).Some?
  }

  method Balance(sys: System, l: Ledger, account: string) returns (r: Option<int>)
    ensures r.Some? <==>
              Currency(l.currency).Some? &&
              forall i :: 0 <= i < |l.entries| ==> ReadableFor(sys, l.entries[i].body.postings, Strip(account))
    ensures r.Some? ==> r.value == BalanceOf(sys, l, Strip(account))
  {
    var name, total := Strip(account), 0;
    for i := 0 to |l.entries|
      invariant total == BalanceUpTo(sys, l, name, i)
      invariant forall k :: 0 <= k < i ==> ReadableFor(sys, l.entries[k].body.postings, name)
    {
      var part := SumFor(sys, l.entries[i].body.postings, name);
      if part.None? {
        return None;
      }
      total := total + part.value;
    }
    r := if Currency(l.currency).None? then None else Some(total);
  }

  method SumFor(sys: System, rows: seq<Posting>, name: string) returns (r: Option<int>)
    ensures r.Some? <==> ReadableFor(sys, rows, name)
    ensures r.Some? ==> r.value == TotalFor(sys, rows, name)
  {
    var total := 0;
    for j := 0 to |rows|
      invariant ReadableFor(sys, rows[..j], name) && total == TotalFor(sys, rows[..j], name)
    {
      assert rows[..j + 1][..j] == rows[..j] && rows[..j + 1][j] == rows[j];
      if rows[j].account == name {
        var c := sys.amounts.cents(rows[j].amount);
        if c.None? {
          return None;
        }
        total := total + c.value;
      }
    }
    assert rows[..|rows|] == rows;
    r := Some(total);
  }

  lemma {:induction false} BalanceOfPrefix(sys: System, l: Ledger, out: Ledger, account: string, n: nat)
    requires n <= |l.entries| && l.entries <= out.entries
    ensures BalanceUpTo(sys, out, account, n) == BalanceUpTo(sys, l, account, n)
  {
    if n > 0 {
      BalanceOfPrefix(sys, l, out, account, n - 1);
    }
  }

  /** A post moves every account's balance by exactly its rows. */
  lemma {:induction false} PostMovesBalance(sys: System, l: Ledger, b: Body, account: string)
    ensures BalanceOf(sys, Posted(sys, l, b), account) ==
            BalanceOf(sys, l, account) + TotalFor(sys, b.postings, account)
  {
    BalanceOfPrefix(sys, l, Posted(sys, l, b), account, |l.entries|);
  }

  /** The rows of a request count in cents as they were given, whatever the stored text looks like. */
  lemma {:induction false} NormalizedKeepsCents(sys: System, rows: seq<Posting>, account: string)
    requires Lawful(sys.amounts) && Normalized(sys, rows).Some?
    ensures TotalFor(sys, Normalized(sys, rows).value, account) ==
            TotalFor(sys, seq(|rows|, i requires 0 <= i < |rows| => Posting(Strip(rows[i].account), rows[i].amount)),
                     account)
  {
    var stripped := seq(|rows|, i requires 0 <= i < |rows| => Posting(Strip(rows[i].account), rows[i].amount));
    if rows != [] {
      var init := rows[..|rows| - 1];
      NormalizedKeepsCents(sys, init, account);
      assert stripped[..|rows| - 1] ==
             seq(|init|, i requires 0 <= i < |init| => Posting(Strip(init[i].account), init[i].amount));
      var n := Normalized(sys, rows).value;
      assert n[..|n| - 1] == Normalized(sys, init).value;
    }
  }

  // ----- double entry: nothing is created or lost -----

  function SumOver(sys: System, rows: seq<Posting>, accounts: seq<string>): int {
    if accounts == [] then 0
    else SumOver(sys, rows, accounts[..|accounts| - 1]) + TotalFor(sys, rows, accounts[|accounts| - 1])
  }

  function SumOfBalances(sys: System, l: Ledger, accounts: seq<string>): int {
    if accounts == [] then 0
    else SumOfBalances(sys, l, accounts[..|accounts| - 1]) + BalanceOf(sys, l, accounts[|accounts| - 1])
  }

  /** A list of accounts without repetitions. */
  predicate NoRepeats(accounts: seq<string>) {
    forall i, j :: 0 <= i < j < |accounts| ==> accounts[i] != accounts[j]
  }

  lemma {:induction false} SumOverSnoc(sys: System, rows: seq<Posting>, p: Posting, accounts: seq<string>)
    requires NoRepeats(accounts)
    ensures SumOver(sys, rows + [p], accounts) ==
            SumOver(sys, rows, accounts) + if p.account in accounts then CentsOf(sys, p) else 0
  {
    if accounts != [] {
      var n := |accounts| - 1;
      assert NoRepeats(accounts[..n]);
      SumOverSnoc(sys, rows, p, accounts[..n]);
      assert (rows + [p])[..|rows|] == rows;
      assert p.account in accounts <==> p.account in accounts[..n] || p.account == accounts[n];
      assert accounts[n] !in accounts[..n];
    }
  }

  lemma {:induction false} SumOverNothing(sys: System, accounts: seq<string>)
    ensures SumOver(sys, [], accounts) == 0
  {
    if accounts != [] {
      SumOverNothing(sys, accounts[..|accounts| - 1]);
    }
  }

  /** Summed over all accounts, the rows add up to their total. */
  lemma {:induction false} SumOverIsTotal(sys: System, rows: seq<Posting>, accounts: seq<string>)
    requires NoRepeats(accounts) && forall i :: 0 <= i < |rows| ==> rows[i].account in accounts
    ensures SumOver(sys, rows, accounts) == Total(sys, rows)
  {
    if rows == [] {
      SumOverNothing(sys, accounts);
    } else {
      var init, p := rows[..|rows| - 1], rows[|rows| - 1];
      SumOverIsTotal(sys, init, accounts);
      SumOverSnoc(sys, init, p, accounts);
      assert init + [p] == rows;
    }
  }

  lemma {:induction false} SumOfBalancesSnoc(sys: System, l: Ledger, n: nat, accounts: seq<string>)
    requires n < |l.entries|
    ensures var before, after := l.(entries := l.entries[..n]), l.(entries := l.entries[..n + 1]);
            SumOfBalances(sys, after, accounts) ==
            SumOfBalances(sys, before, accounts) + SumOver(sys, l.entries[n].body.postings, accounts)
  {
    var before, after := l.(entries := l.entries[..n]), l.(entries := l.entries[..n + 1]);
    if accounts != [] {
      var k := |accounts| - 1;
      SumOfBalancesSnoc(sys, l, n, accounts[..k]);
      BalanceOfPrefix(sys, before, after, accounts[k], n);
    }
  }

  lemma {:induction false} SumOfNoEntries(sys: System, l: Ledger, accounts: seq<string>)
    requires l.entries == []
    ensures SumOfBalances(sys, l, accounts) == 0
  {
    if accounts != [] {
      SumOfNoEntries(sys, l, accounts[..|accounts| - 1]);
    }
  }

  ghost predicate Covers(l: Ledger, accounts: seq<string>) {
    forall i, j :: 0 <= i < |l.entries| && 0 <= j < |l.entries[i].body.postings| ==>
      l.entries[i].body.postings[j].account in accounts
  }

  /** Conservation: in a sound ledger the balances of all accounts add up to zero. */
  lemma {:induction false} BalancesSumToZero(sys: System, l: Ledger, accounts: seq<string>)
    requires Sound(sys, l) && NoRepeats(accounts) && Covers(l, accounts)
    ensures SumOfBalances(sys, l, accounts) == 0
  {
    SumToZeroUpTo(sys, l, |l.entries|, accounts);
    assert l.(entries := l.entries[..|l.entries|]) == l;
  }

  lemma {:induction false} SumToZeroUpTo(sys: System, l: Ledger, n: nat, accounts: seq<string>)
    requires n <= |l.entries| && Sound(sys, l) && NoRepeats(accounts) && Covers(l, accounts)
    ensures SumOfBalances(sys, l.(entries := l.entries[..n]), accounts) == 0
  {
    if n == 0 {
      SumOfNoEntries(sys, l.(entries := l.entries[..0]), accounts);
    } else {
      SumToZeroUpTo(sys, l, n - 1, accounts);
      SumOfBalancesSnoc(sys, l, n - 1, accounts);
      assert SoundEntry(sys, l, n - 1);
      SumOverIsTotal(sys, l.entries[n - 1].body.postings, accounts);
    }
  }

  // ----- the head fixes the history -----

  lemma {:induction false} SameHistoryUpTo(sys: System, a: Ledger, n: nat, b: Ledger, k: nat)
    requires CollisionFree(sys) && Sound(sys, a) && Sound(sys, b)
    requires n <= |a.entries| && k <= |b.entries| && HashBefore(a, n) == HashBefore(b, k)
    ensures a.entries[..n] == b.entries[..k]
  {
    if n > 0 {
      LastHash(sys, a, n);
    }
    if k > 0 {
      LastHash(sys, b, k);
    }
    if n > 0 && k > 0 {
      var x, y := a.entries[n - 1], b.entries[k - 1];
      assert x.body == y.body;
      SameHistoryUpTo(sys, a, n - 1, b, k - 1);
      assert a.entries[..n] == a.entries[..n - 1] + [x];
      assert b.entries[..k] == b.entries[..k - 1] + [y];
    }
  }

  lemma LastHash(sys: System, l: Ledger, n: nat)
    requires CollisionFree(sys) && Sound(sys, l) && 0 < n <= |l.entries|
    ensures var e := l.entries[n - 1];
            HashBefore(l, n) == e.hash == sys.hash(e.body) != Genesis() && e.body.previousHash == HashBefore(l, n - 1)
  {
    assert SoundEntry(sys, l, n - 1);
  }

  /** Two ledgers that both verify and share their head have the same entries: under a fixed head no
      entry can be edited, dropped, inserted or reordered. */
  lemma {:induction false} HeadDeterminesHistory(sys: System, a: Ledger, b: Ledger)
    requires CollisionFree(sys) && Sound(sys, a) && Sound(sys, b) && HeadOf(a) == HeadOf(b)
    ensures a.entries == b.entries
  {
    SameHistoryUpTo(sys, a, |a.entries|, b, |b.entries|);
    assert a.entries[..|a.entries|] == a.entries && b.entries[..|b.entries|] == b.entries;
  }

  // ----- the assumptions about amounts can be met -----

  /** Money's plain decimals, rounded half away from zero as `_amount` asks. */
  const PLAIN_AMOUNTS: Amounts :=
    Amounts(
      t => match Money.Plain(t) case None => None case Some(d) => Some(Money.Format(Money.Signed(d))),
      t => match Money.Plain(t) case None => None case Some(d) => Some(Money.Signed(d)))

  /** Formatting and reading back a rounded amount does not change it, so they are lawful. */
  lemma {:induction false} PlainAmountsAreLawful()
    ensures Lawful(PLAIN_AMOUNTS)
  {
    forall t {:trigger PLAIN_AMOUNTS.quantize(t)}
      ensures PLAIN_AMOUNTS.quantize(t).Some? <==> PLAIN_AMOUNTS.cents(t).Some?
      ensures PLAIN_AMOUNTS.quantize(t).Some? ==>
                PLAIN_AMOUNTS.cents(PLAIN_AMOUNTS.quantize(t).value) == PLAIN_AMOUNTS.cents(t)
    {
      if Money.Plain(t).Some? {
        var c := Money.Signed(Money.Plain(t).value);
        Money.FormatSplits(c);
        Money.DigitsValue((if c < 0 then -c else c) / 100);
        assert Money.Signed(Money.Plain(Money.Format(c)).value) == c;
      }
    }
  }
}
