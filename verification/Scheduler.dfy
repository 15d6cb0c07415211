/** The VM side of the scheduler: a context switch moves buffer pointers between the VM and the task
    table and copies nothing.

    `Abs` is the state of Tasks.dfy the object stands for. That running the current task changes
    nothing about the others is not assumed: it follows from every task owning its buffers alone,
    which `Valid` says and every method keeps. A null buffer is an empty one here. */
module Scheduler {
  import opened Tasks
  import opened Options

  /** A table entry. Its buffers are meaningful for every task but the current one. */
  datatype Slot<V> = Slot(
    id: nat, pc: nat, active: bool, finished: bool, blocked: bool, waiting: nat, result: V,
    stack: array<V>, stackLen: nat,
    frames: array<Frame>, frameLen: nat,
    locals: array<V>, localsLen: nat)

  /** Writes `s` to the front of a buffer, reallocating it when it is too small. */
  method Refill<T(0)>(a: array<T>, s: seq<T>) returns (b: array<T>)
    modifies a
    ensures |s| <= b.Length && b[..|s|] == s
    ensures b == a || fresh(b)
  {
    b := a;
    if a.Length < |s| {
      var next := if a.Length == 0 then 16 else a.Length * 2;
      b := new T[if next < |s| then |s| else next];
    }
    for i := 0 to |s|
      invariant b[..i] == s[..i]
    {
      b[i] := s[i];
    }
    assert s[..|s|] == s;
  }

  /** The three buffers a task owns. */
  datatype Owner<V> = Owner(stack: array<V>, frames: array<Frame>, locals: array<V>) {
    ghost function Set(): set<object> {
      {stack as object, frames as object, locals as object}
    }

    ghost predicate Distinct() {
      stack != locals && stack as object != frames as object && locals as object != frames as object
    }
  }

  ghost predicate Apart<V>(owners: seq<Owner<V>>, i: nat, j: nat)
    requires i < |owners| && j < |owners|
  {
    owners[i].Set() !! owners[j].Set()
  }

  /** No buffer belongs to two tasks, nor to one task twice. */
  ghost predicate Isolated<V>(owners: seq<Owner<V>>) {
    (forall i {:trigger owners[i].Distinct()} :: 0 <= i < |owners| ==> owners[i].Distinct()) &&
    forall i, j {:trigger Apart(owners, i, j)} :: 0 <= i < |owners| && 0 <= j < |owners| && i != j ==>
    Apart(owners, i, j)
  }

  ghost function AllBuffers<V>(owners: seq<Owner<V>>): set<object> {
    set i, o | 0 <= i < |owners| && o in owners[i].Set() :: o
  }

  lemma OwnedInAll<V>(owners: seq<Owner<V>>, i: nat)
    requires i < |owners|
    ensures owners[i].Set() <= AllBuffers(owners)
  {
  }

  lemma ReplaceOwner<V>(owners: seq<Owner<V>>, c: nat, own: Owner<V>)
    requires c < |owners| && Isolated(owners) && own.Distinct()
    requires forall i {:trigger owners[i].Set()} :: 0 <= i < |owners| && i != c ==> owners[i].Set() !! own.Set()
    ensures Isolated(owners[c := own]) && AllBuffers(owners[c := own]) <= AllBuffers(owners) + own.Set()
  {
    var after := owners[c := own];
    forall o | o in AllBuffers(after)
      ensures o in AllBuffers(owners) + own.Set()
    {
      var i :| 0 <= i < |after| && o in after[i].Set();
      assert i != c ==> after[i] == owners[i];
    }
    forall i, j | 0 <= i < |after| && 0 <= j < |after| && i != j
      ensures Apart(after, i, j)
    {
      assert Apart(owners, i, j);
    }
    forall i | 0 <= i < |after|
      ensures after[i].Distinct()
    {
      assert owners[i].Distinct();
    }
  }

  lemma BuffersAppend<V>(owners: seq<Owner<V>>, own: Owner<V>)
    ensures AllBuffers(owners + [own]) == AllBuffers(owners) + own.Set()
  {
    var after := owners + [own];
    forall o
      ensures o in AllBuffers(after) <==> o in AllBuffers(owners) + own.Set()
    {
      if o in AllBuffers(owners) {
        var i :| 0 <= i < |owners| && o in owners[i].Set();
        assert after[i] == owners[i];
      }
      if o in own.Set() {
        assert after[|owners|] == own;
      }
    }
  }

  lemma AddOwner<V>(owners: seq<Owner<V>>, own: Owner<V>)
    requires Isolated(owners) && own.Distinct()
    requires forall i {:trigger owners[i].Set()} :: 0 <= i < |owners| ==> owners[i].Set() !! own.Set()
    ensures Isolated(owners + [own])
  {
    var after := owners + [own];
    forall i, j | 0 <= i < |after| && 0 <= j < |after| && i != j
      ensures Apart(after, i, j)
    {
      if i < |owners| && j < |owners| {
        assert Apart(owners, i, j);
      }
    }
    forall i | 0 <= i < |after|
      ensures after[i].Distinct()
    {
      assert i < |owners| ==> owners[i].Distinct();
    }
  }

  class VM<V(0,!new)> {
    const none: V
    var stack: array<V>
    var stackLen: nat
    var frames: array<Frame>
    var frameLen: nat
    var locals: array<V>
    var localsLen: nat
    var tasks: seq<Slot<V>>
    var taskCap: nat
    var current: nat
    var nextTaskId: nat
    var switches: nat
    /** The current task's table entry describes its buffers as they are. */
    ghost var saved: bool

    /** Who owns what: the current task's buffers are the VM's, the others' are in the table. */
    ghost function Owners(): (o: seq<Owner<V>>)
      reads this
      ensures |o| == |tasks|
    {
      var ts, c, own := tasks, current, Owner(stack, frames, locals);
      seq(|ts|, i requires 0 <= i < |ts| => if i == c then own else Owner(ts[i].stack, ts[i].frames, ts[i].locals))
    }

    ghost function Buffers(): set<object>
      reads this
    {
      AllBuffers(Owners())
    }

    ghost predicate EntryFits(i: nat)
      requires i < |tasks|
      reads this
    {
      var t := tasks[i];
      t.stackLen <= t.stack.Length && t.frameLen <= t.frames.Length && t.localsLen <= t.locals.Length
    }

    /** A table entry with the VM's own buffers in it. */
    ghost predicate Matches(t: Slot<V>)
      reads this
    {
      t.stack == stack && t.stackLen == stackLen && t.frames == frames && t.frameLen == frameLen &&
      t.locals == locals && t.localsLen == localsLen
    }

    ghost predicate Valid()
      reads this
    {
      && current < |tasks| <= taskCap
      && nextTaskId == |tasks|
      && (forall i {:trigger tasks[i].id} :: 0 <= i < |tasks| ==> tasks[i].id == i && tasks[i].active)
      && stackLen <= stack.Length && frameLen <= frames.Length && localsLen <= locals.Length
      && (forall i {:trigger EntryFits(i)} :: 0 <= i < |tasks| && i != current ==> EntryFits(i))
      && (saved ==> Matches(tasks[current]))
      && Isolated(Owners())
    }

    /** How much of its three buffers a task uses. */
    ghost function Used(i: nat): (nat, nat, nat)
      requires i < |tasks|
      reads this
    {
      if i == current then (stackLen, frameLen, localsLen)
      else (tasks[i].stackLen, tasks[i].frameLen, tasks[i].localsLen)
    }

    /** A task as a value: its flags, and the contents of the buffers it owns. */
    ghost function View(i: nat): Task<V>
      requires Valid() && i < |tasks|
      reads this, Owners()[i].Set()
    {
      var t, o, n := tasks[i], Owners()[i], Used(i);
      assert i != current ==> EntryFits(i);
      Task(t.id, t.pc, t.active, t.finished, t.blocked, t.waiting, t.result,
           o.stack[..n.0], o.frames[..n.1], o.locals[..n.2])
    }

    ghost function Views(n: nat): (r: seq<Task<V>>)
      requires Valid() && n <= |tasks|
      reads this, Buffers()
      ensures |r| == n && forall i :: 0 <= i < n ==> r[i] == View(i)
    {
      if n == 0 then [] else
        OwnedInAll(Owners(), n - 1);
        Views(n - 1) + [View(n - 1)]
    }

    ghost function Abs(): (s: State<V>)
      requires Valid()
      reads this, Buffers()
      ensures |s.tasks| == |tasks| && s.current == current && s.saved == saved
    {
      State(Views(|tasks|), current, saved)
    }

    /** mvm_init: no tasks, empty buffers. */
    constructor (none: V)
      ensures this.none == none && tasks == [] && taskCap == 0 && current == 0 && nextTaskId == 0
      ensures stackLen == frameLen == localsLen == 0
      ensures fresh(Owner(stack, frames, locals).Set()) && Owner(stack, frames, locals).Distinct()
    {
      this.none := none;
      stack, frames, locals := new V[0], new Frame[0], new V[0];
      stackLen, frameLen, localsLen := 0, 0, 0;
      tasks, taskCap, current, nextTaskId, switches := [], 0, 0, 0, 0;
      saved := false;
    }

    method EnsureTasks(cap: nat)
      modifies this`taskCap
      ensures taskCap >= cap && taskCap >= old(taskCap)
    {
      if taskCap < cap {
        var next := if taskCap > 0 then taskCap * 2 else 8;
        taskCap := if next < cap then cap else next;
      }
    }

    /** mellowrt_scheduler_bootstrap: the running program becomes task 0, unless there is a table
        already. */
    method Bootstrap()
      modifies this`tasks, this`taskCap, this`current, this`nextTaskId, this`saved
      ensures old(taskCap) > 0 ==> unchanged(this)
      ensures old(taskCap) == 0 ==>
                tasks == [Slot(0, 0, true, false, false, 0, none, stack, stackLen, frames, frameLen, locals, localsLen)]
      ensures old(taskCap) == 0 && BuffersFit() ==>
                Valid() &&
                Abs() == State([Task(0, 0, true, false, false, 0, none,
                                     stack[..stackLen], frames[..frameLen], locals[..localsLen])], 0, true)
    {
      if taskCap > 0 {
        return;
      }
      EnsureTasks(1);
      tasks := [Slot(0, 0, true, false, false, 0, none, stack, stackLen, frames, frameLen, locals, localsLen)];
      current, nextTaskId := 0, 1;
      saved := true;
    }

    /** The VM's own buffers are three, and long enough. */
    ghost predicate BuffersFit()
      reads this
    {
      stackLen <= stack.Length && frameLen <= frames.Length && localsLen <= locals.Length &&
      Owner(stack, frames, locals).Distinct()
    }

    /** A table entry with the VM's buffers and a pc written into it. */
    function SavedSlot(t: Slot<V>, pc: nat): Slot<V>
      reads this
    {
      t.(pc := pc, stack := stack, stackLen := stackLen, frames := frames, frameLen := frameLen,
         locals := locals, localsLen := localsLen)
    }

    /** mellowrt_task_save_from_vm, for any index. Saving the current task is the machine's Save; saving
        over any other gives that task the current one's buffers, and is exactly what breaks `Valid`. */
    method Save(index: nat, pc: nat)
      modifies this`tasks, this`saved
      ensures tasks ==
              if index < old(|tasks|) then old(tasks)[index := SavedSlot(old(tasks)[index], pc)] else old(tasks)
      ensures old(Valid()) ==> (Valid() <==> index == current || index >= |tasks|)
      ensures old(Valid()) && Valid() ==>
                Buffers() == old(Buffers()) &&
                Abs() == if index < old(|tasks|) then Apply(old(Abs()), Op<V>.Save(pc), none) else old(Abs())
    {
      if index >= |tasks| {
        return;
      }
      tasks := tasks[index := SavedSlot(tasks[index], pc)];
      if index == current {
        saved := true;
        SavedCurrent(pc);
      } else {
        SavedOther(index);
      }
    }

    twostate lemma SavedCurrent(pc: nat)
      requires unchanged(`stack, `stackLen, `frames, `frameLen, `locals, `localsLen, `current, `taskCap, `nextTaskId)
      requires current < old(|tasks|) && tasks == old(tasks)[current := SavedSlot(old(tasks)[current], pc)] && saved
      requires unchanged(old(Buffers()))
      ensures old(Valid()) ==>
                Valid() && Buffers() == old(Buffers()) && Abs() == Apply(old(Abs()), Op<V>.Save(pc), none)
    {
      if old(Valid()) {
        assert Owners() == old(Owners());
        forall i | 0 <= i < |tasks| && i != current
          ensures EntryFits(i)
        {
          assert old(EntryFits(i));
        }
        SavedViews(pc);
      }
    }

    twostate lemma SavedViews(pc: nat)
      requires unchanged(`stack, `stackLen, `frames, `frameLen, `locals, `localsLen, `current)
      requires old(Valid()) && Valid() && Owners() == old(Owners()) && saved && unchanged(old(Buffers()))
      requires tasks == old(tasks)[current := SavedSlot(old(tasks)[current], pc)]
      ensures Abs() == Apply(old(Abs()), Op<V>.Save(pc), none)
    {
      var was := old(Abs()).tasks;
      forall i | 0 <= i < |tasks|
        ensures View(i) == if i == current then was[i].(pc := pc) else was[i]
      {
        OwnedInAll(old(Owners()), i);
        SameContents(i);
      }
      assert Abs().tasks == was[current := was[current].(pc := pc)];
    }

    /** Buffers that did not change, used as far as before, hold what they held. */
    twostate lemma SameContents(i: nat)
      requires old(Valid()) && Valid() && i < |tasks| && i < old(|tasks|)
      requires Owners()[i] == old(Owners()[i]) && Used(i) == old(Used(i))
      requires unchanged(old(Owners()[i]).stack, old(Owners()[i]).frames, old(Owners()[i]).locals)
      ensures var v, w := View(i), old(View(i)); v.stack == w.stack && v.frames == w.frames && v.locals == w.locals
    {
      var o, n := Owners()[i], Used(i);
      assert (i != current ==> EntryFits(i)) && (i != old(current) ==> old(EntryFits(i)));
      assert o.stack[..n.0] == old(o.stack[..n.0]);
      assert o.frames[..n.1] == old(o.frames[..n.1]);
      assert o.locals[..n.2] == old(o.locals[..n.2]);
    }

    lemma SavedOther(index: nat)
      requires index < |tasks| && index != current && Matches(tasks[index])
      ensures !Valid()
    {
      if current < |tasks| {
        var o := Owners();
        assert o[index] == o[current] && stack as object in o[index].Set();
        assert !Apart(o, index, current);
      }
    }

    /** The pointer moves of a load. */
    method TakeBuffers(index: nat)
      requires index < |tasks|
      modifies this`current, this`stack, this`stackLen, this`frames, this`frameLen, this`locals, this`localsLen
      ensures current == index && Matches(tasks[index])
    {
      var t := tasks[index];
      current := index;
      stack, stackLen := t.stack, t.stackLen;
      frames, frameLen := t.frames, t.frameLen;
      locals, localsLen := t.locals, t.localsLen;
    }

    /** Every task still owns the buffers it owned, and uses as much of them. */
    twostate predicate NothingLost()
      reads this
    {
      |tasks| == old(|tasks|) &&
      forall i {:trigger Used(i)} :: 0 <= i < |tasks| ==> Owners()[i] == old(Owners()[i]) && Used(i) == old(Used(i))
    }

    /** mellowrt_task_load_into_vm, for any index: the VM takes what the table says. That is the
        machine's Load when the current task is saved. No work is lost exactly when the current
        task's entry describes its buffers; UnsavedWorkIsLost is a run in which it does not. */
    method Load(index: nat)
      modifies this`current, this`stack, this`stackLen, this`frames, this`frameLen, this`locals, this`localsLen
      ensures if index < |tasks| then current == index && Matches(tasks[index]) else unchanged(this)
      ensures index < |tasks| && old(current) < |tasks| ==> (NothingLost() <==> old(Matches(tasks[current])))
      ensures old(Valid()) && Enabled(old(Abs()), Op<V>.Load(index)) ==>
                Valid() && Buffers() == old(Buffers()) && Abs() == Apply(old(Abs()), Op<V>.Load(index), none)
    {
      if index >= |tasks| {
        return;
      }
      TakeBuffers(index);
      LostExactly(index);
      Loaded(index);
    }

    twostate lemma LostExactly(index: nat)
      requires unchanged(`tasks) && index < |tasks| && current == index && Matches(tasks[index])
      ensures old(current) < |tasks| ==> (NothingLost() <==> old(Matches(tasks[current])))
    {
      var from := old(current);
      if from < |tasks| {
        assert Used(from) == Used(from);
        assert Owners()[from] == Owner(tasks[from].stack, tasks[from].frames, tasks[from].locals);
        assert old(Owners()[from]) == old(Owner(stack, frames, locals));
      }
    }

    twostate lemma Loaded(index: nat)
      requires unchanged(`tasks, `taskCap, `nextTaskId, `saved)
      requires index < |tasks| && current == index && Matches(tasks[index]) && unchanged(old(Buffers()))
      ensures old(Valid()) && old(saved) ==>
                Valid() && Buffers() == old(Buffers()) && Abs() == Apply(old(Abs()), Op<V>.Load(index), none)
    {
      if old(Valid()) && old(saved) {
        var from := old(current);
        assert old(Matches(tasks[from])) && (index != from ==> old(EntryFits(index)));
        forall i | 0 <= i < |tasks|
          ensures Owners()[i] == old(Owners()[i])
        {
        }
        assert Owners() == old(Owners());
        forall i | 0 <= i < |tasks| && i != current
          ensures EntryFits(i)
        {
          assert i != from ==> old(EntryFits(i));
        }
        LoadedViews(index);
      }
    }

    twostate lemma LoadedViews(index: nat)
      requires unchanged(`tasks, `saved) && old(Valid()) && Valid() && old(saved) && Owners() == old(Owners())
      requires index < |tasks| && current == index && Matches(tasks[index]) && old(Matches(tasks[current])) &&
               unchanged(old(Buffers()))
      ensures Abs() == Apply(old(Abs()), Op<V>.Load(index), none)
    {
      forall i | 0 <= i < |tasks|
        ensures View(i) == old(Abs()).tasks[i]
      {
        OwnedInAll(old(Owners()), i);
        SameContents(i);
      }
      assert Abs().tasks == old(Abs()).tasks;
    }

    /** Any execution of the current task: its buffers get new contents, reallocated as needed. */
    method Execute(newStack: seq<V>, newFrames: seq<Frame>, newLocals: seq<V>)
      requires Valid()
      modifies this`stack, this`stackLen, this`frames, this`frameLen, this`locals, this`localsLen, this`saved
      modifies stack, frames, locals
      ensures Valid() && fresh(Buffers() - old(Buffers()))
      ensures Abs() == Apply(old(Abs()), Op<V>.Execute(newStack, newFrames, newLocals), none)
    {
      ghost var was, owners := Abs(), Owners();
      ExecuteBuffers(newStack, newFrames, newLocals);
      forall i | 0 <= i < |tasks| && i != current
        ensures View(i) == was.tasks[i]
      {
        assert Apart(owners, i, current);
        KeptView(i);
      }
      ExecutedViews(was, newStack, newFrames, newLocals);
    }

    /** One task has new contents, the others look as they did. */
    lemma ExecutedViews(was: State<V>, newStack: seq<V>, newFrames: seq<Frame>, newLocals: seq<V>)
      requires Valid() && was.current == current && |was.tasks| == |tasks| && !saved
      requires forall i {:trigger View(i)} :: 0 <= i < |tasks| && i != current ==> View(i) == was.tasks[i]
      requires View(current) == was.tasks[current].(stack := newStack, frames := newFrames, locals := newLocals)
      ensures Abs() == Apply(was, Op<V>.Execute(newStack, newFrames, newLocals), none)
    {
      assert Abs().tasks == Apply(was, Op<V>.Execute(newStack, newFrames, newLocals), none).tasks;
    }

    /** A task whose entry and buffers did not change looks the same. */
    twostate lemma KeptView(i: nat)
      requires old(Valid()) && Valid() && i < |tasks| && tasks == old(tasks) && current == old(current) && i != current
      requires Owners()[i] == old(Owners()[i])
      requires unchanged(old(Owners()[i]).stack, old(Owners()[i]).frames, old(Owners()[i]).locals)
      ensures View(i) == old(View(i))
    {
      SameContents(i);
    }

    method ExecuteBuffers(newStack: seq<V>, newFrames: seq<Frame>, newLocals: seq<V>)
      requires Valid()
      modifies this`stack, this`stackLen, this`frames, this`frameLen, this`locals, this`localsLen, this`saved
      modifies stack, frames, locals
      ensures Valid() && fresh(Buffers() - old(Buffers())) && !saved
      ensures Owners() == old(Owners())[current := Owner(stack, frames, locals)]
      ensures stackLen == |newStack| && stack[..stackLen] == newStack
      ensures frameLen == |newFrames| && frames[..frameLen] == newFrames
      ensures localsLen == |newLocals| && locals[..localsLen] == newLocals
    {
      ghost var owners := Owners();
      RefillAll(newStack, newFrames, newLocals);
      ghost var own := Owner(stack, frames, locals);
      assert Owners() == owners[current := own];
      forall i {:trigger owners[i].Set()} | 0 <= i < |owners| && i != current
        ensures owners[i].Set() !! own.Set()
      {
        assert Apart(owners, i, current);
        assert owners[current] == old(Owner(stack, frames, locals));
      }
      ReplaceOwner(owners, current, own);
      OwnedInAll(owners, current);
      forall i | 0 <= i < |tasks| && i != current
        ensures EntryFits(i)
      {
        assert old(EntryFits(i));
      }
    }

    method RefillAll(newStack: seq<V>, newFrames: seq<Frame>, newLocals: seq<V>)
      requires Valid()
      modifies this`stack, this`stackLen, this`frames, this`frameLen, this`locals, this`localsLen, this`saved
      modifies stack, frames, locals
      ensures !saved
      ensures stackLen == |newStack| <= stack.Length && stack[..stackLen] == newStack
      ensures frameLen == |newFrames| <= frames.Length && frames[..frameLen] == newFrames
      ensures localsLen == |newLocals| <= locals.Length && locals[..localsLen] == newLocals
      ensures stack == old(stack) || fresh(stack)
      ensures frames == old(frames) || fresh(frames)
      ensures locals == old(locals) || fresh(locals)
      ensures Owner(stack, frames, locals).Distinct()
      ensures fresh(Owner(stack, frames, locals).Set() - old(Owner(stack, frames, locals).Set()))
    {
      assert Owners()[current].Distinct();
      saved := false;
      stack := Refill(stack, newStack);
      stackLen := |newStack|;
      frames := Refill(frames, newFrames);
      frameLen := |newFrames|;
      locals := Refill(locals, newLocals);
      localsLen := |newLocals|;
    }

    /** Two tables that agree on ids, activity and buffers make the same owners and are valid together. */
    ghost predicate SameTable(a: seq<Slot<V>>, b: seq<Slot<V>>) {
      |a| == |b| &&
      forall i {:trigger a[i]} {:trigger b[i]} :: 0 <= i < |a| ==>
        && a[i].id == b[i].id && a[i].active == b[i].active
        && a[i].stack == b[i].stack && a[i].stackLen == b[i].stackLen
        && a[i].frames == b[i].frames && a[i].frameLen == b[i].frameLen
        && a[i].locals == b[i].locals && a[i].localsLen == b[i].localsLen
    }

    /** Changing flags of table entries keeps everything in its place. */
    twostate lemma FlagsOnly()
      requires old(Valid()) && SameTable(old(tasks), tasks)
      requires unchanged(`stack, `stackLen, `frames, `frameLen, `locals, `localsLen, `current, `taskCap, `nextTaskId,
                         `saved)
      ensures Valid() && Owners() == old(Owners())
    {
      assert Owners() == old(Owners());
      forall i | 0 <= i < |tasks| && i != current
        ensures EntryFits(i)
      {
        assert old(EntryFits(i));
      }
    }

    /** What can change of a task's view while the buffers stay as they are: its flags and result. */
    twostate lemma FlagViews()
      requires old(Valid()) && Valid() && SameTable(old(tasks), tasks) && Owners() == old(Owners())
      requires unchanged(`stackLen, `frameLen, `localsLen, `current) && unchanged(old(Buffers()))
      ensures forall i {:trigger View(i)} :: 0 <= i < |tasks| ==>
                View(i) == Flagged(old(View(i)), tasks[i])
    {
      forall i | 0 <= i < |tasks|
        ensures View(i) == Flagged(old(View(i)), tasks[i])
      {
        OwnedInAll(old(Owners()), i);
        SameContents(i);
      }
    }

    /** Both at once. */
    twostate lemma FlagsChanged()
      requires old(Valid()) && SameTable(old(tasks), tasks) && unchanged(old(Buffers()))
      requires unchanged(`stack, `stackLen, `frames, `frameLen, `locals, `localsLen, `current, `taskCap, `nextTaskId,
                         `saved)
      ensures Valid() && Buffers() == old(Buffers())
      ensures forall i {:trigger View(i)} :: 0 <= i < |tasks| ==> View(i) == Flagged(old(View(i)), tasks[i])
    {
      FlagsOnly();
      FlagViews();
    }

    ghost function Flagged(v: Task<V>, t: Slot<V>): Task<V> {
      v.(pc := t.pc, finished := t.finished, blocked := t.blocked, waiting := t.waiting, result := t.result)
    }

    /** Flags of the current task, written in place. */
    method Flag(blocked: bool, finished: bool, waiting: nat, result: V)
      requires Valid()
      modifies this`tasks
      ensures Valid() && Buffers() == old(Buffers())
      ensures var was := old(Abs());
              Abs() == was.(tasks := was.tasks[current := was.tasks[current].(
                blocked := blocked, finished := finished, waiting := waiting, result := result)])
    {
      ghost var was := Abs();
      tasks := tasks[current := tasks[current].(blocked := blocked, finished := finished, waiting := waiting,
                                                result := result)];
      FlagsChanged();
      assert Abs().tasks == was.tasks[current := Flagged(was.tasks[current], tasks[current])];
    }

    method Block(waiting: nat)
      requires Valid()
      modifies this`tasks
      ensures Valid() && Buffers() == old(Buffers())
      ensures Abs() == Apply(old(Abs()), Op<V>.Block(waiting), none)
    {
      var t := tasks[current];
      assert View(current).finished == t.finished && View(current).result == t.result;
      Flag(true, t.finished, waiting, t.result);
    }

    method Finish(result: V)
      requires Valid()
      modifies this`tasks
      ensures Valid() && Buffers() == old(Buffers())
      ensures Abs() == Apply(old(Abs()), Op<V>.Finish(result), none)
    {
      var t := tasks[current];
      assert View(current).blocked == t.blocked && View(current).waiting == t.waiting;
      Flag(t.blocked, true, t.waiting, result);
    }

    /** mellowrt_scheduler_unblock_native_waiters; 0 is the null pointer and wakes everyone. */
    method Wake(native: nat)
      requires Valid()
      modifies this`tasks
      ensures Valid() && Buffers() == old(Buffers())
      ensures Abs() == Apply(old(Abs()), Op<V>.Wake(native), none)
      ensures |tasks| == old(|tasks|)
      ensures forall i :: 0 <= i < |tasks| ==>
                var was, now := old(tasks)[i], tasks[i];
                && (!was.active ==> now == was)
                && (was.active ==> (now.blocked <==> was.blocked && native != 0 && was.waiting != native))
                && now.waiting == (if was.blocked && !now.blocked then 0 else was.waiting)
                && now == was.(blocked := now.blocked, waiting := now.waiting)
    {
      ghost var was, table := Abs(), tasks;
      WakeSlots(native);
      FlagsChanged();
      WokenViews(was.tasks, table, native);
      assert Abs().tasks == Apply(was, Op<V>.Wake(native), none).tasks;
    }

    /** The loop over the table. */
    method WakeSlots(native: nat)
      modifies this`tasks
      ensures |tasks| == old(|tasks|) && forall k :: 0 <= k < |tasks| ==> tasks[k] == WokenSlot(old(tasks)[k], native)
      ensures forall i :: 0 <= i < |tasks| ==>
                var was, now := old(tasks)[i], tasks[i];
                && (!was.active ==> now == was)
                && (was.active ==> (now.blocked <==> was.blocked && native != 0 && was.waiting != native))
                && now.waiting == (if was.blocked && !now.blocked then 0 else was.waiting)
                && now == was.(blocked := now.blocked, waiting := now.waiting)
    {
      ghost var table := tasks;
      for i := 0 to |tasks|
        invariant |tasks| == |table|
        invariant forall k :: i <= k < |tasks| ==> tasks[k] == table[k]
        invariant forall k :: 0 <= k < i ==> tasks[k] == WokenSlot(table[k], native)
      {
        var t := tasks[i];
        if t.active && t.blocked && (native == 0 || t.waiting == native) {
          tasks := tasks[i := t.(blocked := false, waiting := 0)];
        }
      }
    }

    /** Flags changed slot by slot are flags changed task by task. */
    lemma WokenViews(was: seq<Task<V>>, table: seq<Slot<V>>, native: nat)
      requires Valid() && |was| == |table| == |tasks|
      requires forall k :: 0 <= k < |tasks| ==> tasks[k] == WokenSlot(table[k], native)
      requires forall k {:trigger View(k)} :: 0 <= k < |tasks| ==> View(k) == Flagged(was[k], tasks[k])
      requires forall k :: 0 <= k < |was| ==> Flagged(was[k], table[k]) == was[k] && was[k].active == table[k].active
      ensures |Views(|tasks|)| == |was| && forall k :: 0 <= k < |was| ==> Views(|tasks|)[k] == WakeTask(was[k], native)
    {
    }

    ghost function WokenSlot(t: Slot<V>, native: nat): Slot<V> {
      if t.active && t.blocked && (native == 0 || t.waiting == native) then t.(blocked := false, waiting := 0) else t
    }

    /** mellowrt_scheduler_next_runnable; None is (size_t)-1. */
    method NextRunnable() returns (next: Option<nat>)
      requires Valid()
      modifies this`switches
      ensures Valid() && Abs() == old(Abs())
      ensures next == Tasks.NextRunnable(old(Abs()))
      ensures match next
              case None => forall i :: 0 <= i < |tasks| ==> !tasks[i].active || tasks[i].finished || tasks[i].blocked
              case Some(n) =>
                && n < |tasks| && tasks[n].active && !tasks[n].finished && !tasks[n].blocked
                && forall i :: Between(i, n) ==> !tasks[i].active || tasks[i].finished || tasks[i].blocked
      ensures switches == old(switches) + if next.Some? && next.value != current then 1 else 0
    {
      next := FirstRunnable();
      FirstInTable(next);
      if next.Some? && next.value != current {
        switches := switches + 1;
      }
      OnlyCounted();
    }

    /** Allocation alone changes nothing. */
    twostate lemma SameState()
      requires old(Valid()) && unchanged(this)
      requires forall i {:trigger old(Owners())[i]} :: 0 <= i < old(|tasks|) ==>
                 var o := old(Owners())[i]; unchanged(o.stack) && unchanged(o.frames) && unchanged(o.locals)
      ensures Valid() && Owners() == old(Owners()) && Abs() == old(Abs())
    {
      assert Owners() == old(Owners());
      forall i | 0 <= i < |tasks| && i != current
        ensures EntryFits(i)
      {
        assert old(EntryFits(i));
      }
      forall i | 0 <= i < |tasks|
        ensures View(i) == old(View(i))
      {
        SameContents(i);
      }
      assert Abs().tasks == old(Abs()).tasks;
    }

    twostate lemma OnlyCounted()
      requires old(Valid()) && unchanged(old(Buffers()))
      requires unchanged(`tasks, `taskCap, `current, `nextTaskId, `saved, `stack, `stackLen, `frames, `frameLen,
                         `locals, `localsLen)
      ensures Valid() && Abs() == old(Abs())
    {
      FlagsChanged();
      assert Abs().tasks == old(Abs()).tasks;
    }

    /** Index `i` comes after the current one and before `j`, going round. */
    predicate Between(i: int, j: nat)
      reads this
    {
      0 <= i < |tasks| && if current < j then current < i < j else i > current || i < j
    }

    lemma FirstInTable(next: Option<nat>)
      requires Valid() && next == Tasks.NextRunnable(Abs())
      ensures match next
              case None => forall i :: 0 <= i < |tasks| ==> !tasks[i].active || tasks[i].finished || tasks[i].blocked
              case Some(n) =>
                && n < |tasks| && tasks[n].active && !tasks[n].finished && !tasks[n].blocked
                && forall i :: Between(i, n) ==> !tasks[i].active || tasks[i].finished || tasks[i].blocked
    {
      var s := Abs();
      NextRunnableIsFirst(s);
      forall i | 0 <= i < |tasks|
        ensures s.tasks[i] == View(i)
        ensures Runnable(s.tasks[i]) <==> tasks[i].active && !tasks[i].finished && !tasks[i].blocked
      {
      }
    }

    lemma CountInTable()
      requires Valid()
      ensures Tasks.RunnableCount(Abs().tasks, |Abs().tasks|) ==
              |set i | 0 <= i < |tasks| && tasks[i].active && !tasks[i].finished && !tasks[i].blocked|
    {
      var s := Abs();
      CountOfIndexes(s.tasks, |s.tasks|);
      forall i | 0 <= i < |tasks|
        ensures s.tasks[i].active == tasks[i].active && s.tasks[i].finished == tasks[i].finished
        ensures s.tasks[i].blocked == tasks[i].blocked
      {
        assert s.tasks[i] == View(i);
      }
      assert (set i | 0 <= i < |s.tasks| && s.tasks[i].active && !s.tasks[i].finished && !s.tasks[i].blocked) ==
             (set i | 0 <= i < |tasks| && tasks[i].active && !tasks[i].finished && !tasks[i].blocked);
    }

    method FirstRunnable() returns (next: Option<nat>)
      requires Valid()
      ensures next == Tasks.NextRunnable(Abs())
    {
      ghost var s := Abs();
      var i := 1;
      while i <= |tasks|
        invariant 1 <= i <= |tasks| + 1
        invariant Tasks.NextRunnable(s) == NextFrom(s, i)
      {
        var idx := (current + i) % |tasks|;
        assert idx == Ahead(s.current, i, |s.tasks|) && s.tasks[idx] == View(idx);
        if tasks[idx].active && !tasks[idx].finished && !tasks[idx].blocked {
          return Some(idx);
        }
        i := i + 1;
      }
      next := None;
    }

    /** mellowrt_scheduler_runnable_count. */
    method RunnableCount() returns (count: nat)
      requires Valid()
      ensures count == Tasks.RunnableCount(Abs().tasks, |Abs().tasks|)
      ensures count == |set i | 0 <= i < |tasks| && tasks[i].active && !tasks[i].finished && !tasks[i].blocked|
    {
      ghost var s := Abs();
      count := 0;
      for i := 0 to |tasks|
        invariant count == Tasks.RunnableCount(s.tasks, i)
      {
        assert s.tasks[i] == View(i);
        if tasks[i].active && !tasks[i].finished && !tasks[i].blocked {
          count := count + 1;
        }
      }
      CountInTable();
    }

    /** mellowrt_scheduler_spawn: a task with fresh buffers, its locals copied from the spawner. */
    method Spawn(fn: FunctionRef) returns (id: nat)
      requires Valid()
      modifies this`tasks, this`taskCap, this`nextTaskId
      ensures Valid() && fresh(Buffers() - old(Buffers())) && old(tasks) <= tasks
      ensures id == old(|tasks|) == old(nextTaskId)
      ensures Abs() == Apply(old(Abs()), Op<V>.Spawn(fn), none)
    {
      ghost var was := Abs();
      assert was.tasks[current] == View(current);
      assert Apply(was, Op<V>.Spawn(fn), none) ==
             was.(tasks := was.tasks + [NewTask(nextTaskId, fn, was.tasks[current].locals, none)]);
      var slot := NewSlot(fn, was.tasks[current].locals);
      SameState();
      id := nextTaskId;
      AppendTask(slot, NewTask(id, fn, was.tasks[current].locals, none));
    }

    /** `view` is the new entry as a value. */
    method AppendTask(slot: Slot<V>, ghost view: Task<V>)
      requires Valid() && slot.id == nextTaskId && slot.active
      requires slot.stackLen <= slot.stack.Length && slot.frameLen <= slot.frames.Length &&
               slot.localsLen <= slot.locals.Length
      requires Owner(slot.stack, slot.frames, slot.locals).Distinct()
      requires Owner(slot.stack, slot.frames, slot.locals).Set() !! Buffers()
      requires view == Task(slot.id, slot.pc, slot.active, slot.finished, slot.blocked, slot.waiting, slot.result,
                            slot.stack[..slot.stackLen], slot.frames[..slot.frameLen], slot.locals[..slot.localsLen])
      modifies this`tasks, this`taskCap, this`nextTaskId
      ensures Valid() && |tasks| == nextTaskId == old(|tasks|) + 1 && old(tasks) <= tasks
      ensures Buffers() == old(Buffers()) + Owner(slot.stack, slot.frames, slot.locals).Set()
      ensures Abs() == old(Abs()).(tasks := old(Abs()).tasks + [view])
    {
      Append(slot);
      AppendedViews(slot);
    }

    twostate lemma AppendedViews(slot: Slot<V>)
      requires old(Valid()) && Valid() && tasks == old(tasks) + [slot]
      requires unchanged(`stack, `stackLen, `frames, `frameLen, `locals, `localsLen, `current, `saved) &&
               unchanged(old(Buffers()))
      requires Owners() == old(Owners()) + [Owner(slot.stack, slot.frames, slot.locals)]
      requires slot.stackLen <= slot.stack.Length && slot.frameLen <= slot.frames.Length &&
               slot.localsLen <= slot.locals.Length
      ensures Abs() == old(Abs()).(tasks := old(Abs()).tasks +
                [Task(slot.id, slot.pc, slot.active, slot.finished, slot.blocked, slot.waiting, slot.result,
                      slot.stack[..slot.stackLen], slot.frames[..slot.frameLen], slot.locals[..slot.localsLen])])
    {
      var was, n := old(Abs()).tasks, old(|tasks|);
      forall i | 0 <= i < n
        ensures View(i) == was[i]
      {
        OwnedInAll(old(Owners()), i);
        assert Owners()[i] == old(Owners())[i];
        SameContents(i);
      }
      assert Owners()[n] == Owner(slot.stack, slot.frames, slot.locals) && tasks[n] == slot;
      assert Abs().tasks == was + [View(n)];
    }

    /** The table grows by an entry whose buffers nobody has. */
    method Append(slot: Slot<V>)
      requires Valid() && slot.id == nextTaskId && slot.active
      requires slot.stackLen <= slot.stack.Length && slot.frameLen <= slot.frames.Length &&
               slot.localsLen <= slot.locals.Length
      requires Owner(slot.stack, slot.frames, slot.locals).Distinct()
      requires Owner(slot.stack, slot.frames, slot.locals).Set() !! Buffers()
      modifies this`tasks, this`taskCap, this`nextTaskId
      ensures Valid() && tasks == old(tasks) + [slot]
      ensures Owners() == old(Owners()) + [Owner(slot.stack, slot.frames, slot.locals)]
      ensures Buffers() == old(Buffers()) + Owner(slot.stack, slot.frames, slot.locals).Set()
    {
      ghost var owners, own := Owners(), Owner(slot.stack, slot.frames, slot.locals);
      EnsureTasks(|tasks| + 1);
      tasks := tasks + [slot];
      nextTaskId := nextTaskId + 1;
      assert Owners() == owners + [own];
      forall i {:trigger owners[i].Set()} | 0 <= i < |owners|
        ensures owners[i].Set() !! own.Set()
      {
        OwnedInAll(owners, i);
      }
      AddOwner(owners, own);
      forall i | 0 <= i < |tasks| && i != current
        ensures EntryFits(i)
      {
        assert i < |owners| ==> old(EntryFits(i));
      }
      BuffersAppend(owners, own);
    }

    method NewSlot(fn: FunctionRef, ghost inherited: seq<V>) returns (slot: Slot<V>)
      requires Valid() && inherited == locals[..localsLen]
      ensures fresh(Owner(slot.stack, slot.frames, slot.locals).Set()) &&
              Owner(slot.stack, slot.frames, slot.locals).Distinct()
      ensures Owner(slot.stack, slot.frames, slot.locals).Set() !! Buffers()
      ensures slot.stackLen <= slot.stack.Length && slot.frameLen <= slot.frames.Length &&
              slot.localsLen <= slot.locals.Length
      ensures Task(slot.id, slot.pc, slot.active, slot.finished, slot.blocked, slot.waiting, slot.result,
                   slot.stack[..slot.stackLen], slot.frames[..slot.frameLen], slot.locals[..slot.localsLen]) ==
              NewTask(nextTaskId, fn, inherited, none)
    {
      var newStack, newFrames := new V[0], new Frame[1];
      newFrames[0] := Frame(0, UINT32_MAX, 0, 0, fn.localCount, fn);
      var count := if localsLen > fn.localCount then localsLen else fn.localCount;
      var newLocals := new V[if count > 0 then count else 1];
      for i := 0 to count
        invariant newFrames[0] == Frame(0, UINT32_MAX, 0, 0, fn.localCount, fn)
        invariant forall k :: 0 <= k < i ==> newLocals[k] == if k < localsLen then inherited[k] else none
      {
        newLocals[i] := if i < localsLen then locals[i] else none;
      }
      slot := Slot(nextTaskId, fn.address, true, false, false, 0, none, newStack, 0, newFrames, 1, newLocals, count);
      assert newFrames[..1] == [Frame(0, UINT32_MAX, 0, 0, fn.localCount, fn)];
      assert newLocals[..count] == InheritedLocals(inherited, fn.localCount, none);
    }

    /** What the VM does when the current task yields: save, choose, load. */
    method Yield(pc: nat)
      requires Valid()
      modifies this
      ensures Valid()
      ensures Abs() == TakeTurn(old(Abs()), Turn([], pc), none)
    {
      ghost var s1 := Apply(Abs(), Op<V>.Save(pc), none);
      TurnOfSave(Abs(), pc, none);
      Save(current, pc);
      assert Abs() == s1;
      var next := NextRunnable();
      assert Abs() == s1;
      if next.Some? {
        Load(next.value);
      }
    }

    /** One operation of the VM. `mine` is any set of objects that includes all its buffers; `more`
        are those it allocated. */
    method Do(op: Op<V>, ghost mine: set<object>) returns (ghost more: set<object>)
      requires Valid() && Enabled(Abs(), op) && Buffers() <= mine
      modifies this, mine
      ensures Valid() && fresh(more) && Buffers() <= mine + more
      ensures Abs() == Apply(old(Abs()), op, none)
    {
      OwnedInAll(Owners(), current);
      match op {
        case Execute(s, f, l) => Execute(s, f, l);
        case Block(waiting) => Block(waiting);
        case Finish(result) => Finish(result);
        case Wake(native) => Wake(native);
        case Spawn(fn) => var _ := Spawn(fn);
        case Save(pc) => Save(current, pc);
        case Load(index) => Load(index);
      }
      more := Buffers() - mine;
    }

    /** Any interleaving of the operations leaves every task with buffers of its own and the object in
        the state the machine of Tasks.dfy reaches: what is proved there about every run is true of
        the buffers here. */
    method DoAll(ops: seq<Op<V>>, ghost mine: set<object>)
      requires Valid() && AllEnabled(Abs(), ops, none) && Buffers() <= mine
      modifies this, mine
      ensures Valid()
      ensures Abs() == Run(old(Abs()), ops, none)
    {
      ghost var all := mine;
      for i := 0 to |ops|
        invariant Valid() && Buffers() <= all && fresh(all - mine)
        invariant AllEnabled(Abs(), ops[i..], none)
        invariant Run(Abs(), ops[i..], none) == Run(old(Abs()), ops, none)
      {
        assert ops[i..][0] == ops[i] && ops[i..][1..] == ops[i + 1..];
        ghost var more := Do(ops[i], all);
        all := all + more;
      }
    }
  }

  /** The condition of Load matters: a task that executes and is switched away from without being
      saved comes back with what its table entry says, however much it had pushed since. */
  method UnsavedWorkIsLost<V(0,!new)>(vm: VM<V>, pushed: seq<V>, other: nat) returns (ghost before: State<V>)
    requires vm.Valid() && other < |vm.tasks|
    modifies vm, vm.stack, vm.frames, vm.locals
    ensures before.current < |before.tasks| && before.tasks[before.current].stack == pushed
    ensures vm.current == before.current < |vm.tasks| && vm.tasks == old(vm.tasks) && vm.Matches(vm.tasks[vm.current])
    ensures vm.stackLen == old(vm.tasks[vm.current].stackLen)
  {
    vm.Execute(pushed, [], []);
    before := vm.Abs();
    var c := vm.current;
    vm.Load(other);
    vm.Load(c);
  }
}
