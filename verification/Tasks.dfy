/** The cooperative scheduler as a state machine over task values.

    This is the specification the VM of Scheduler.dfy is proved against; what is proved here about
    every run of the machine therefore holds of the VM's buffers. */
module Tasks {
  import opened Options

  datatype FunctionRef = FunctionRef(address: nat, localCount: nat)

  datatype Frame = Frame(frameId: nat, returnPc: nat, base: nat, localBase: nat, localCount: nat,
                         function_: FunctionRef)

  const UINT32_MAX: nat := 0xFFFF_FFFF

  /** What a task is, apart from where its buffers are. A `waiting` of 0 is the null pointer. */
  datatype Task<V> = Task(
    id: nat, pc: nat, active: bool, finished: bool, blocked: bool, waiting: nat, result: V,
    stack: seq<V>, frames: seq<Frame>, locals: seq<V>)

  /** The buffers of the current task are those of the VM. `saved` says that the task's table entry
      describes them as they are. */
  datatype State<V> = State(tasks: seq<Task<V>>, current: nat, saved: bool)

  ghost predicate Ok<V(!new)>(s: State<V>) {
    s.current < |s.tasks| && forall i :: 0 <= i < |s.tasks| ==> s.tasks[i].id == i && s.tasks[i].active
  }

  datatype Op<V> =
    | Execute(stack: seq<V>, frames: seq<Frame>, locals: seq<V>)  // any execution of the current task
    | Block(waiting: nat)
    | Finish(result: V)
    | Wake(native: nat)
    | Spawn(fn: FunctionRef)
    | Save(pc: nat)
    | Load(index: nat)

  predicate Runnable<V>(t: Task<V>) {
    t.active && !t.finished && !t.blocked
  }

  predicate Woken<V>(t: Task<V>, native: nat) {
    t.active && t.blocked && (native == 0 || t.waiting == native)
  }

  function WakeTask<V>(t: Task<V>, native: nat): Task<V> {
    if Woken(t, native) then t.(blocked := false, waiting := 0) else t
  }

  /** The locals a new task starts with: copies of the spawner's, padded with none. */
  function InheritedLocals<V>(locals: seq<V>, count: nat, none: V): (r: seq<V>)
    ensures |r| == if |locals| > count then |locals| else count
  {
    if |locals| >= count then locals else locals + seq(count - |locals|, i => none)
  }

  function NewTask<V>(id: nat, fn: FunctionRef, locals: seq<V>, none: V): Task<V> {
    Task(id, fn.address, true, false, false, 0, none, [],
         [Frame(0, UINT32_MAX, 0, 0, fn.localCount, fn)], InheritedLocals(locals, fn.localCount, none))
  }

  /** Loading a task over one that is not saved would lose its work; the VM always saves first. */
  predicate Enabled<V>(s: State<V>, op: Op<V>) {
    op.Load? && op.index < |s.tasks| ==> s.saved
  }

  function Apply<V>(s: State<V>, op: Op<V>, none: V): State<V>
    requires s.current < |s.tasks|
  {
    var t := s.tasks[s.current];
    match op
    case Execute(stack, frames, locals) =>
      State(s.tasks[s.current := t.(stack := stack, frames := frames, locals := locals)], s.current, false)
    case Block(waiting) => s.(tasks := s.tasks[s.current := t.(blocked := true, waiting := waiting)])
    case Finish(result) => s.(tasks := s.tasks[s.current := t.(finished := true, result := result)])
    case Wake(native) => s.(tasks := seq(|s.tasks|, i requires 0 <= i < |s.tasks| => WakeTask(s.tasks[i], native)))
    case Spawn(fn) => s.(tasks := s.tasks + [NewTask(|s.tasks|, fn, t.locals, none)])
    case Save(pc) => State(s.tasks[s.current := t.(pc := pc)], s.current, true)
    case Load(index) => if index < |s.tasks| then s.(current := index) else s
  }

  ghost predicate AllEnabled<V>(s: State<V>, ops: seq<Op<V>>, none: V)
    requires s.current < |s.tasks|
    decreases |ops|
  {
    ops == [] || (Enabled(s, ops[0]) && AllEnabled(Apply(s, ops[0], none), ops[1..], none))
  }

  function Run<V>(s: State<V>, ops: seq<Op<V>>, none: V): (r: State<V>)
    requires s.current < |s.tasks|
    ensures |s.tasks| <= |r.tasks| && r.current < |r.tasks|
    decreases |ops|
  {
    if ops == [] then s else Run(Apply(s, ops[0], none), ops[1..], none)
  }

  // ----- invariants of every run -----

  /** In every reachable state each task's id is its index in the table, and it is active. */
  lemma {:induction false} IdsAreIndexes<V(!new)>(s: State<V>, ops: seq<Op<V>>, none: V)
    requires Ok(s)
    ensures Ok(Run(s, ops, none))
    decreases |ops|
  {
    if ops != [] {
      IdsAreIndexes(Apply(s, ops[0], none), ops[1..], none);
    }
  }

  /** What only a task's own execution may change. */
  ghost predicate SameWork<V(!new)>(a: Task<V>, b: Task<V>) {
    a.id == b.id && a.pc == b.pc && a.stack == b.stack && a.frames == b.frames && a.locals == b.locals &&
    a.result == b.result && a.finished == b.finished && a.active == b.active
  }

  ghost predicate NeverLoads<V(!new)>(ops: seq<Op<V>>, t: nat) {
    forall k :: 0 <= k < |ops| ==> ops[k] != Load(t)
  }

  /** Whatever the other tasks do, a task that is not loaded keeps its pc, stack, frames, locals and
      result; only wake-ups reach it. */
  lemma {:induction false} SuspendedTaskIsKept<V(!new)>(s: State<V>, ops: seq<Op<V>>, t: nat, none: V)
    requires s.current < |s.tasks| && t < |s.tasks| && t != s.current && NeverLoads(ops, t)
    ensures Run(s, ops, none).current != t
    ensures SameWork(Run(s, ops, none).tasks[t], s.tasks[t])
    ensures s.tasks[t].blocked || !Run(s, ops, none).tasks[t].blocked
    decreases |ops|
  {
    if ops != [] {
      assert ops[0] != Load(t);
      forall k | 0 <= k < |ops[1..]|
        ensures ops[1..][k] != Load(t)
      {
        assert ops[1..][k] == ops[k + 1];
      }
      SuspendedTaskIsKept(Apply(s, ops[0], none), ops[1..], t, none);
    }
  }

  lemma {:induction false} RunAppend<V(!new)>(s: State<V>, a: seq<Op<V>>, b: seq<Op<V>>, none: V)
    requires s.current < |s.tasks|
    ensures Run(s, a + b, none) == Run(Run(s, a, none), b, none)
    decreases |a|
  {
    if a == [] {
      assert a + b == b;
    } else {
      assert (a + b)[0] == a[0] && (a + b)[1..] == a[1..] + b;
      RunAppend(Apply(s, a[0], none), a[1..], b, none);
    }
  }

  /** A context switch and back: the current task saves, another task is loaded, anything at all
      happens that does not load the first one, and then it is loaded again. It resumes at the saved
      pc with exactly the stack, frames and locals it had. */
  lemma {:induction false} ResumesWhereItStopped<V(!new)>(s: State<V>, pc: nat, other: nat, ops: seq<Op<V>>, none: V)
    requires s.current < |s.tasks| && other < |s.tasks| && other != s.current && NeverLoads(ops, s.current)
    ensures var back := Run(s, [Save(pc), Load(other)] + ops + [Load(s.current)], none);
            && back.current == s.current
            && SameWork(back.tasks[s.current], s.tasks[s.current].(pc := pc))
  {
    var t := s.current;
    var saved := Apply(s, Save(pc), none);
    var away := Apply(saved, Load(other), none);
    var out: seq<Op<V>>, back: seq<Op<V>> := [Save(pc), Load(other)], [Load(t)];
    assert out + ops + back == out + (ops + back);
    RunAppend(s, out, ops + back, none);
    assert out[1..] == [Load(other)] && out[1..][1..] == [];
    assert Run(s, out, none) == Run(saved, out[1..], none) == away;
    RunAppend(away, ops, back, none);
    SuspendedTaskIsKept(away, ops, t, none);
    var before := Run(away, ops, none);
    assert back[1..] == [];
    assert Run(before, back, none) == Apply(before, Load(t), none);
  }

  // ----- blocking and waking, field by field -----

  /** A task that waits for a pointer becomes runnable, unless it has finished, when that pointer's
      waiters are woken, and when everyone is; a wake-up for another pointer leaves it as it is. */
  lemma WakingReaches<V(!new)>(s: State<V>, native: nat, t: nat, none: V)
    requires s.current < |s.tasks| && t < |s.tasks| && s.tasks[t].active && s.tasks[t].blocked
    ensures var before, after := s.tasks[t], Apply(s, Wake(native), none).tasks[t];
            && (native == 0 || native == before.waiting ==>
                  !after.blocked && after.waiting == 0 && (!before.finished ==> Runnable(after)))
            && (native != 0 && native != before.waiting ==> after == before)
  {
  }

  /** What is not blocked is not changed by waking, nor is what is inactive. */
  lemma WakingLeavesOthers<V(!new)>(s: State<V>, native: nat, t: nat, none: V)
    requires s.current < |s.tasks| && t < |s.tasks| && !(s.tasks[t].active && s.tasks[t].blocked)
    ensures Apply(s, Wake(native), none).tasks[t] == s.tasks[t]
  {
  }

  ghost predicate NeverWakes<V(!new)>(ops: seq<Op<V>>, native: nat) {
    forall k :: 0 <= k < |ops| ==> ops[k] != Wake(native) && ops[k] != Wake(0)
  }

  /** Over any run in which it is not loaded, a blocked task stays blocked, waiting for what it waited
      for, until that pointer's waiters or everyone are woken. */
  lemma {:induction false} BlockedUntilWoken<V(!new)>(s: State<V>, ops: seq<Op<V>>, t: nat, none: V)
    requires s.current < |s.tasks| && t < |s.tasks| && t != s.current && NeverLoads(ops, t)
    requires s.tasks[t].blocked && NeverWakes(ops, s.tasks[t].waiting)
    ensures var r := Run(s, ops, none); r.tasks[t].blocked && r.tasks[t].waiting == s.tasks[t].waiting
    ensures !Runnable(Run(s, ops, none).tasks[t])
    decreases |ops|
  {
    if ops != [] {
      assert ops[0] != Load(t) && ops[0] != Wake(s.tasks[t].waiting) && ops[0] != Wake(0);
      forall k | 0 <= k < |ops[1..]|
        ensures ops[1..][k] != Load(t) && ops[1..][k] != Wake(s.tasks[t].waiting) && ops[1..][k] != Wake(0)
      {
        assert ops[1..][k] == ops[k + 1];
      }
      BlockedUntilWoken(Apply(s, ops[0], none), ops[1..], t, none);
    }
  }

  /** What each operation does to the current task, field by field; apart from a spawned task and what
      is woken, nothing else of the table changes. */
  lemma OperationsByField<V(!new)>(s: State<V>, op: Op<V>, none: V)
    requires s.current < |s.tasks|
    ensures var c, z := s.current, Apply(s, op, none);
            var t := s.tasks[c];
            && (op.Block? ==> z.tasks[c] == t.(blocked := true, waiting := op.waiting))
            && (op.Finish? ==> z.tasks[c] == t.(finished := true, result := op.result))
            && (op.Save? ==> z.tasks[c] == t.(pc := op.pc) && z.saved)
            && (op.Execute? ==> z.tasks[c] == t.(stack := op.stack, frames := op.frames, locals := op.locals))
            && (op.Execute? ==> !z.saved)
            && (op.Load? ==> z.tasks == s.tasks && z.current == if op.index < |s.tasks| then op.index else c)
            && (!op.Load? ==> z.current == c)
            && (!op.Save? && !op.Execute? ==> z.saved == s.saved)
            && (!op.Wake? ==> forall i :: 0 <= i < |s.tasks| && i != c ==> z.tasks[i] == s.tasks[i])
            && |z.tasks| == |s.tasks| + if op.Spawn? then 1 else 0
  {
  }

  /** A spawned task starts at its function's address with an empty stack, one frame that returns
      nowhere, and the spawner's locals, padded with none up to the number its function has. */
  lemma SpawnedByField<V(!new)>(s: State<V>, fn: FunctionRef, none: V)
    requires s.current < |s.tasks|
    ensures var locals, t := s.tasks[s.current].locals, Apply(s, Spawn(fn), none).tasks[|s.tasks|];
            && t.id == |s.tasks| && t.pc == fn.address && t.stack == [] && t.result == none
            && t.active && !t.finished && !t.blocked && t.waiting == 0
            && t.frames == [Frame(0, 4294967295, 0, 0, fn.localCount, fn)]
            && |t.locals| >= fn.localCount && |t.locals| >= |locals|
            && (|t.locals| == fn.localCount || |t.locals| == |locals|)
            && forall i :: 0 <= i < |t.locals| ==> t.locals[i] == if i < |locals| then locals[i] else none
  {
  }

  // ----- round robin -----

  /** The task `i` places after the current one. */
  function Ahead(current: nat, i: nat, n: nat): nat
    requires n > 0
  {
    (current + i) % n
  }

  /** The first runnable task at distance `i` or more. */
  function NextFrom<V>(s: State<V>, i: nat): (r: Option<nat>)
    requires 1 <= i <= |s.tasks| + 1 && s.current < |s.tasks|
    ensures r.Some? ==> r.value < |s.tasks|
    decreases |s.tasks| + 1 - i
  {
    if i > |s.tasks| then None
    else
      var idx := Ahead(s.current, i, |s.tasks|);
      if Runnable(s.tasks[idx]) then Some(idx) else NextFrom(s, i + 1)
  }

  function NextRunnable<V>(s: State<V>): Option<nat>
    requires s.current < |s.tasks|
  {
    NextFrom(s, 1)
  }

  function RunnableCount<V>(tasks: seq<Task<V>>, n: nat): nat
    requires n <= |tasks|
  {
    if n == 0 then 0 else RunnableCount(tasks, n - 1) + if Runnable(tasks[n - 1]) then 1 else 0
  }

  /** How far ahead of the current task a task is, the current one itself being last. */
  function Distance(current: nat, t: nat, n: nat): (d: nat)
    requires current < n && t < n
    ensures 1 <= d <= n
  {
    if t > current then t - current else t + n - current
  }

  lemma {:induction false} AheadAtDistance(current: nat, i: nat, n: nat)
    requires current < n && 1 <= i <= n
    ensures Ahead(current, i, n) < n && Distance(current, Ahead(current, i, n), n) == i
    ensures Ahead(current, i, n) == if current + i < n then current + i else current + i - n
  {
    if current + i < n {
      SmallMod(current + i, n);
    } else {
      SmallMod(current + i - n, n);
      assert (current + i) % n == (current + i - n) % n by {
        ModShift(current + i - n, n);
      }
    }
  }

  lemma SmallMod(a: nat, n: nat)
    requires a < n
    ensures a % n == a
  {
  }

  lemma ModShift(a: nat, n: nat)
    requires a < n
    ensures (a + n) % n == a
  {
    assert (a + n) / n == 1;
  }

  lemma AtDistance(current: nat, t: nat, n: nat)
    requires current < n && t < n
    ensures Ahead(current, Distance(current, t, n), n) == t
  {
    AheadAtDistance(current, Distance(current, t, n), n);
  }

  lemma {:induction false} NextFromIsFirst<V(!new)>(s: State<V>, i: nat)
    requires 1 <= i <= |s.tasks| + 1 && s.current < |s.tasks|
    ensures var r, n := NextFrom(s, i), |s.tasks|;
            && (r.Some? ==> Runnable(s.tasks[r.value]) && i <= Distance(s.current, r.value, n))
            && (forall t :: 0 <= t < n && Runnable(s.tasks[t]) && i <= Distance(s.current, t, n) ==>
                  r.Some? && Distance(s.current, r.value, n) <= Distance(s.current, t, n))
    decreases |s.tasks| + 1 - i
  {
    var n := |s.tasks|;
    if i <= n {
      AheadAtDistance(s.current, i, n);
      var idx := Ahead(s.current, i, n);
      if !Runnable(s.tasks[idx]) {
        NextFromIsFirst(s, i + 1);
        forall t | 0 <= t < n && Runnable(s.tasks[t]) && i <= Distance(s.current, t, n)
          ensures i + 1 <= Distance(s.current, t, n)
        {
          AtDistance(s.current, t, n);
        }
      }
    }
  }

  /** next_runnable returns the runnable task that comes first in cyclic order after the current one. */
  lemma {:induction false} NextRunnableIsFirst<V(!new)>(s: State<V>)
    requires s.current < |s.tasks|
    ensures var r, n := NextRunnable(s), |s.tasks|;
            && (r.Some? ==> Runnable(s.tasks[r.value]))
            && (forall t :: 0 <= t < n && Runnable(s.tasks[t]) ==>
                  r.Some? && Distance(s.current, r.value, n) <= Distance(s.current, t, n))
  {
    NextFromIsFirst(s, 1);
  }

  lemma {:induction false} CountIsZero<V(!new)>(tasks: seq<Task<V>>, n: nat)
    requires n <= |tasks|
    ensures RunnableCount(tasks, n) == 0 <==> forall i :: 0 <= i < n ==> !Runnable(tasks[i])
  {
    if n > 0 {
      CountIsZero(tasks, n - 1);
    }
  }

  /** It fails exactly when runnable_count is 0. */
  lemma {:induction false} NoNextMeansNoneRunnable<V(!new)>(s: State<V>)
    requires s.current < |s.tasks|
    ensures NextRunnable(s) == None <==> RunnableCount(s.tasks, |s.tasks|) == 0
  {
    NextRunnableIsFirst(s);
    CountIsZero(s.tasks, |s.tasks|);
  }

  /** Runnable tasks, counted as a set of indexes. */
  lemma {:induction false} CountOfIndexes<V(!new)>(tasks: seq<Task<V>>, n: nat)
    requires n <= |tasks|
    ensures RunnableCount(tasks, n) ==
            |set i | 0 <= i < n && tasks[i].active && !tasks[i].finished && !tasks[i].blocked|
  {
    if n > 0 {
      CountOfIndexes(tasks, n - 1);
      var before := set i | 0 <= i < n - 1 && tasks[i].active && !tasks[i].finished && !tasks[i].blocked;
      var after := set i | 0 <= i < n && tasks[i].active && !tasks[i].finished && !tasks[i].blocked;
      assert after == before + if Runnable(tasks[n - 1]) then {n - 1} else {};
    }
  }

  // ----- fairness -----

  /** One turn: the current task does anything but spawn or switch, saves, and the next runnable
      task is loaded. */
  datatype Turn<V> = Turn(ops: seq<Op<V>>, pc: nat)

  ghost predicate IsTurn<V(!new)>(t: Turn<V>) {
    forall k :: 0 <= k < |t.ops| ==> !t.ops[k].Spawn? && !t.ops[k].Load?
  }

  function Chosen<V>(s: State<V>, t: Turn<V>, none: V): (r: State<V>)
    requires s.current < |s.tasks|
    ensures r.current < |r.tasks|
  {
    Apply(Run(s, t.ops, none), Save(t.pc), none)
  }

  function TakeTurn<V>(s: State<V>, t: Turn<V>, none: V): (r: State<V>)
    requires s.current < |s.tasks|
    ensures r.current < |r.tasks|
  {
    var s1 := Chosen(s, t, none);
    match NextRunnable(s1)
    case None => s1
    case Some(idx) => Apply(s1, Load(idx), none)
  }

  /** A turn in which the current task does nothing but yield. */
  lemma TurnOfSave<V>(s: State<V>, pc: nat, none: V)
    requires s.current < |s.tasks|
    ensures var s1 := Apply(s, Save(pc), none);
            s1.saved && |s1.tasks| == |s.tasks| && s1.current == s.current &&
            TakeTurn(s, Turn([], pc), none) ==
            match NextRunnable(s1)
            case None => s1
            case Some(idx) => Apply(s1, Load(idx), none)
  {
  }

  /** Task `t` is runnable whenever a turn of the run chooses, and is not chosen. */
  ghost predicate PassedOver<V(!new)>(s: State<V>, turns: seq<Turn<V>>, t: nat, none: V)
    requires s.current < |s.tasks|
    decreases |turns|
  {
    turns == [] ||
    (var s1 := Chosen(s, turns[0], none);
     && IsTurn(turns[0]) && t < |s1.tasks| && Runnable(s1.tasks[t])
     && TakeTurn(s, turns[0], none).current != t
     && PassedOver(TakeTurn(s, turns[0], none), turns[1..], t, none))
  }

  lemma {:induction false} OpsKeepTable<V(!new)>(s: State<V>, ops: seq<Op<V>>, none: V)
    requires s.current < |s.tasks|
    requires forall k :: 0 <= k < |ops| ==> !ops[k].Spawn? && !ops[k].Load?
    ensures var r := Run(s, ops, none); r.current == s.current && |r.tasks| == |s.tasks|
    decreases |ops|
  {
    if ops != [] {
      assert !ops[0].Spawn? && !ops[0].Load?;
      forall k | 0 <= k < |ops[1..]|
        ensures !ops[1..][k].Spawn? && !ops[1..][k].Load?
      {
        assert ops[1..][k] == ops[k + 1];
      }
      OpsKeepTable(Apply(s, ops[0], none), ops[1..], none);
    }
  }

  /** A turn that passes a runnable task over brings the current position closer to it. */
  lemma {:induction false} TurnComesCloser<V(!new)>(s: State<V>, turn: Turn<V>, t: nat, none: V)
    requires s.current < |s.tasks| && t < |s.tasks| && IsTurn(turn)
    requires Runnable(Chosen(s, turn, none).tasks[t]) && TakeTurn(s, turn, none).current != t
    ensures var n, s2 := |s.tasks|, TakeTurn(s, turn, none);
            |s2.tasks| == n && Distance(s2.current, t, n) < Distance(s.current, t, n)
  {
    OpsKeepTable(s, turn.ops, none);
    NextRunnableIsFirst(Chosen(s, turn, none));
  }

  /** Fairness: a task that is runnable at every choice is loaded within as many turns as there are
      tasks, since it cannot be passed over that often. */
  lemma {:induction false} RunnableTaskIsLoaded<V(!new)>(s: State<V>, turns: seq<Turn<V>>, t: nat, none: V)
    requires s.current < |s.tasks| && t < |s.tasks|
    requires PassedOver(s, turns, t, none)
    ensures |turns| < Distance(s.current, t, |s.tasks|) <= |s.tasks|
    decreases |turns|
  {
    if turns != [] {
      OpsKeepTable(s, turns[0].ops, none);
      TurnComesCloser(s, turns[0], t, none);
      RunnableTaskIsLoaded(TakeTurn(s, turns[0], none), turns[1..], t, none);
    }
  }
}
