/**
  The scheduler's list of tasks: a doubly linked chain with head, tail and current, changed by
  task_new, task_list_remove and rotation. Removal repairs only one of the two links.
 */
module TaskList {

  class Task {
    var next: Task?
    var prev: Task?

    /** kzalloc: both links null. */
    constructor ()
      ensures next == null && prev == null
    {
      next, prev := null, null;
    }
  }

  ghost predicate Distinct(ts: seq<Task>) {
    forall i, j :: 0 <= i < j < |ts| ==> ts[i] != ts[j]
  }

  /** The next links from `head` on run through `ts` and end there. */
  ghost predicate Forward(head: Task?, ts: seq<Task>)
    reads ts
  {
    && (ts == [] <==> head == null)
    && (ts != [] ==> head == ts[0] && ts[|ts| - 1].next == null)
    && (forall i :: 0 <= i < |ts| - 1 ==> ts[i].next == ts[i + 1])
  }

  /** The prev links mirror the chain. */
  ghost predicate Backward(ts: seq<Task>)
    reads ts
  {
    && (ts != [] ==> ts[0].prev == null)
    && (forall i {:trigger ts[i].prev} :: 1 <= i < |ts| ==> ts[i].prev == ts[i - 1])
  }

  /** The links of a list at one moment, as values. */
  ghost predicate Links(ts: seq<Task>, nexts: seq<Task?>, prevs: seq<Task?>)
    reads ts
  {
    |nexts| == |prevs| == |ts| && forall i {:trigger ts[i]} :: 0 <= i < |ts| ==> ts[i].next == nexts[i] && ts[i].prev == prevs[i]
  }

  lemma ReadLinks(ts: seq<Task>) returns (nexts: seq<Task?>, prevs: seq<Task?>)
    ensures Links(ts, nexts, prevs)
  {
    if ts == [] {
      nexts, prevs := [], [];
    } else {
      var n := |ts| - 1;
      nexts, prevs := ReadLinks(ts[..n]);
      assert forall i :: 0 <= i < n ==> ts[..n][i] == ts[i];
      nexts, prevs := nexts + [ts[n].next], prevs + [ts[n].prev];
    }
  }

  /** With these next links the chain from `head` on runs through `ts` and ends there. */
  ghost predicate Chain(head: Task?, ts: seq<Task>, nexts: seq<Task?>) {
    && |nexts| == |ts|
    && (ts == [] <==> head == null)
    && (ts != [] ==> head == ts[0] && nexts[|ts| - 1] == null)
    && (forall i :: 0 <= i < |ts| - 1 ==> nexts[i] == ts[i + 1])
  }

  /** These prev links mirror the chain. */
  ghost predicate Mirror(ts: seq<Task>, prevs: seq<Task?>) {
    && |prevs| == |ts|
    && (ts != [] ==> prevs[0] == null)
    && (forall i :: 1 <= i < |ts| ==> prevs[i] == ts[i - 1])
  }

  lemma LinksMean(head: Task?, ts: seq<Task>, nexts: seq<Task?>, prevs: seq<Task?>)
    requires Links(ts, nexts, prevs)
    ensures Forward(head, ts) <==> Chain(head, ts, nexts)
    ensures Backward(ts) <==> Mirror(ts, prevs)
  {
    if Mirror(ts, prevs) {
      forall i | 1 <= i < |ts| ensures ts[i].prev == ts[i - 1] {}
    }
    if Backward(ts) {
      forall i | 1 <= i < |ts| ensures prevs[i] == ts[i - 1] {
        assert ts[i].prev == ts[i - 1];
      }
    }
    if Forward(head, ts) {
      forall i | 0 <= i < |ts| - 1 ensures nexts[i] == ts[i + 1] {
        assert ts[i].next == ts[i + 1];
      }
    }
  }

  /** The chain, the tail and the current task are right. */
  ghost predicate LinkedAs(head: Task?, tail: Task?, current: Task?, ts: seq<Task>)
    reads ts
  {
    && Distinct(ts) && Forward(head, ts)
    && (ts != [] ==> tail == ts[|ts| - 1] && current != null && current in ts)
    && (ts == [] ==> current == null)
  }

  function Without<T>(ts: seq<T>, i: nat): (r: seq<T>)
    requires i < |ts|
    ensures |r| == |ts| - 1
  {
    ts[..i] + ts[i + 1..]
  }

  /** Next position in round-robin order. */
  function Successor(i: nat, n: nat): (j: nat)
    requires i < n
    ensures j < n
  {
    (i + 1) % n
  }

  class Scheduler {
    var head: Task?
    var tail: Task?
    var current: Task?
    /** The chain from head to tail. */
    ghost var tasks: seq<Task>

    /** Every forward path works. */
    ghost predicate Linked()
      reads this, tasks
    {
      LinkedAs(head, tail, current, tasks)
    }

    /** In addition the prev links are right and the empty list has no tail. */
    ghost predicate FullyLinked()
      reads this, tasks
    {
      Linked() && Backward(tasks) && (tasks == [] ==> tail == null)
    }

    constructor ()
      ensures FullyLinked() && tasks == []
    {
      head, tail, current := null, null, null;
      tasks := [];
    }

    /** The list as a value. */
    ghost predicate Represents(s: ListState)
      reads this, s.ts
    {
      Ends(head, tail, current) == s.ends && tasks == s.ts && Links(s.ts, s.nexts, s.prevs)
    }

    lemma Snapshot() returns (s: ListState)
      ensures Represents(s)
    {
      var nexts, prevs := ReadLinks(tasks);
      s := ListState(Ends(head, tail, current), tasks, nexts, prevs);
    }

    /**
      The linking part of task_new on the block that kzalloc returned. The block is no task of the
      list, but it may be one that was removed before.
     */
    method TaskNew(task: Task, ghost s: ListState)
      requires Linked() && task !in tasks && Represents(s)
      modifies this, tail, task
      ensures Linked() && (old(FullyLinked()) ==> FullyLinked()) && tasks == old(tasks) + [task]
      ensures current == if old(tasks) == [] then task else old(current)
      ensures LinkedState(s) && Represents(Apply(s, New(task)))
    {
      assert |s.prevs| == |s.ts|;
      hide Chain, Mirror, Forward, Backward, LinkedAs, LinkedOver, Apply, Links;
      LinkedMeans(s.ends, s.ts, s.nexts, s.prevs);
      ghost var s' := NewState(s, task);
      LinksMean(head, s.ts, s.nexts, s.prevs);
      PutLast(task, s);
      tasks := tasks + [task];
      LinkedMeans(s'.ends, s'.ts, s'.nexts, s'.prevs);
      LinksMean(head, s'.ts, s'.nexts, s'.prevs);
    }

    /** The pointer updates of task_new. */
    method PutLast(task: Task, ghost s: ListState)
      requires Represents(s) && task !in s.ts && Distinct(s.ts) && (head == null <==> s.ts == [])
      requires s.ts != [] ==> tail == s.ts[|s.ts| - 1]
      modifies this`head, this`tail, this`current, tail, task
      ensures if s.ts == [] then Ends(head, tail, current) == Ends(task, task, task) && Links([task], [null], [null])
        else
          && Ends(head, tail, current) == s.ends.(tail := task)
          && Links(s.ts + [task], s.nexts[|s.ts| - 1 := task] + [null], s.prevs + [s.ends.tail])
    {
      task.next := null;
      task.prev := null;
      if head == null {
        head := task;
        tail := task;
        current := task;
        return;
      }
      tail.next := task;
      task.prev := tail;
      tail := task;
    }

    /** task_get_next: the successor of current, and the head behind the last task. */
    method TaskGetNext() returns (task: Task?)
      requires Linked() && current != null
      ensures forall i :: 0 <= i < |tasks| && tasks[i] == current ==> task == tasks[Successor(i, |tasks|)]
    {
      if current.next == null {
        task := head;
      } else {
        task := current.next;
      }
      forall i | 0 <= i < |tasks| && tasks[i] == current ensures task == tasks[Successor(i, |tasks|)] {
        if i < |tasks| - 1 { SmallSuccessor(i, |tasks|); } else { LastSuccessor(|tasks|); }
      }
    }

    /** task_next up to the switch. An empty list panics in the source. */
    method TaskNext(ghost s: ListState)
      requires Linked() && tasks != [] && Represents(s)
      modifies this`current
      ensures Linked() && (old(FullyLinked()) ==> FullyLinked())
      ensures forall i :: 0 <= i < |tasks| && tasks[i] == old(current) ==> current == tasks[Successor(i, |tasks|)]
      ensures LinkedState(s) && Represents(Apply(s, Rotate))
    {
      hide Chain, Mirror, Forward, Backward, LinkedAs, LinkedOver, Apply, Successor;
      LinkedMeans(s.ends, s.ts, s.nexts, s.prevs);
      ghost var i := RotateState(s);
      var nextTask := TaskGetNext();
      current := nextTask;
      ghost var s' := Apply(s, Rotate);
      assert Represents(s');
      LinkedMeans(s'.ends, s'.ts, s'.nexts, s'.prevs);
    }

    /** n rotations of an n-task list visit every task exactly once and come back to the start. */
    method RotateAll() returns (ghost visited: seq<Task>)
      requires Linked() && tasks != []
      modifies this`current
      ensures Linked() && current == old(current)
      ensures Distinct(visited) && multiset(visited) == multiset(tasks)
    {
      hide Represents, Apply, Turn, Successor, Mirror, Chain, Backward;
      ghost var ts := tasks;
      ghost var start :| 0 <= start < |ts| && ts[start] == current;
      FullTurn(start, |ts|);
      visited := [];
      ghost var at := start;
      var n := CountTasks();
      var k := 0;
      while k < n
        invariant 0 <= k <= n && n == |ts| && tasks == ts && Linked() && |visited| == k
        invariant at == Turn(start, k, n) && current == ts[at]
        invariant visited == seq(k, j requires 0 <= j < k => ts[Turn(start, j + 1, n)])
      {
        TurnStep(start, k, n);
        ghost var s := Snapshot();
        TaskNext(s);
        at := Successor(at, n);
        visited := visited + [current];
        k := k + 1;
      }
      Revolution(ts, visited, start);
    }

    method CountTasks() returns (n: nat)
      requires Linked()
      ensures n == |tasks|
    {
      n := 0;
      var t := head;
      while t != null
        invariant 0 <= n <= |tasks| && t == if n < |tasks| then tasks[n] else null
        decreases |tasks| - n
      {
        n := n + 1;
        t := t.next;
      }
    }

    /**
      task_list_remove on a chain whose prev links may already be stale. The task leaves the chain
      exactly when its own prev link is right; then head, tail and current are right too, and the
      prev links stay right exactly when the task was the last one.
     */
    method TaskListRemove(task: Task, ghost i: nat, ghost s: ListState)
      requires Linked() && i < |tasks| && tasks[i] == task && Represents(s)
      modifies this, task.prev
      ensures tasks == Without(old(tasks), i)
      ensures Forward(head, tasks) <==> PrevIsRight(old(task.prev), old(tasks), i)
      ensures Linked() <==> PrevIsRight(old(task.prev), old(tasks), i)
      ensures Linked() ==>
        && current == CurrentAfter(old(current), old(tasks), i)
        && (old(Backward(tasks)) ==> (Backward(tasks) <==> i == |old(tasks)| - 1))
      ensures old(FullyLinked()) ==> (FullyLinked() <==> i == |old(tasks)| - 1)
      ensures LinkedState(s) && Represents(Apply(s, Remove(i)))
      ensures WritesOutside(old(task.prev), old(tasks)) ==> old(task.prev).next == old(task.next)
      ensures forall t: Task :: t in old(tasks) && t != old(task.prev) ==> t.next == old(t.next) && t.prev == old(t.prev)
    {
      hide Without, Mirror, Chain, Forward, Backward, LinkedAs, Redirected, CurrentAfter, PrevIsRight, LinkedOver, Cut;
      ghost var ts, prev, ends, nexts, prevs := tasks, task.prev, s.ends, s.nexts, s.prevs;
      LinksMean(head, ts, nexts, prevs);
      LinkedMeans(ends, ts, nexts, prevs);
      Unlink(task, ts, nexts, prevs);
      AfterCut(ts, i, ends, Ends(head, tail, current), nexts, Redirected(ts, nexts, prev, nexts[i]), prevs);
      LinksWithout(ts, i, Redirected(ts, nexts, prev, nexts[i]), prevs);
      tasks := Without(ts, i);
    }

    /**
      Because the successor keeps its prev link to the removed task, removing it next works only at
      the head of the list. Elsewhere the freed task stays on the chain.
     */
    method RemoveThenSuccessor(task: Task, successor: Task, ghost i: nat, ghost s: ListState)
      requires FullyLinked() && i + 1 < |tasks| && tasks[i] == task && tasks[i + 1] == successor && Represents(s)
      modifies this, tasks
      ensures tasks == Without(Without(old(tasks), i), i)
      ensures Linked() <==> i == 0
    {
      ghost var ts := tasks;
      Neighbours(ts, i);
      TaskListRemove(task, i, s);
      TaskListRemove(successor, i, Apply(s, Remove(i)));
    }

    /** The pointer updates of task_list_remove: at most one next link, of the task that prev names. */
    method Unlink(task: Task, ghost ts: seq<Task>, ghost nexts: seq<Task?>, ghost prevs: seq<Task?>)
      requires current != null && Links(ts, nexts, prevs)
      modifies this, task.prev
      ensures tasks == old(tasks)
      ensures Ends(head, tail, current) == Cut(old(Ends(head, tail, current)), task, old(task.next), old(task.prev))
      ensures Links(ts, Redirected(ts, nexts, old(task.prev), old(task.next)), prevs)
      ensures old(task.prev) != null ==> old(task.prev).next == old(task.next)
    {
      ghost var prev, next := task.prev, task.next;
      if task.prev != null {
        task.prev.next := task.next;
      }
      assert task.next == next && Links(ts, Redirected(ts, nexts, prev, next), prevs);
      if task == head {
        head := task.next;
      }
      if task == tail {
        tail := task.prev;
      }
      if task == current {
        if current.next == null {
          current := head;
        } else {
          current := current.next;
        }
      }
    }
  }

  datatype Ends = Ends(head: Task?, tail: Task?, current: Task?)

  /** Head, tail and current after the removal of `task` with these links. */
  ghost function Cut(e: Ends, task: Task, next: Task?, prev: Task?): (r: Ends) {
    var head := if task == e.head then next else e.head;
    var tail := if task == e.tail then prev else e.tail;
    Ends(head, tail, if task != e.current then e.current else if next == null then head else next)
  }

  /**
    The prev link of task i does no harm: it names the task in front of it, or, for the head, no
    task behind it.
   */
  ghost predicate PrevIsRight(prev: Task?, ts: seq<Task>, i: nat)
    requires i < |ts|
  {
    if i == 0 then prev !in ts[1..] else prev == ts[i - 1]
  }

  /** The removal writes a next link into a block that is no task of the list any more. */
  ghost predicate WritesOutside(prev: Task?, ts: seq<Task>) {
    prev != null && prev !in ts
  }

  /** A removal that keeps the list linked writes outside it exactly when it removes a head with a stale prev link. */
  lemma RightRemovalWritesOutside(prev: Task?, ts: seq<Task>, i: nat)
    requires i < |ts| && PrevIsRight(prev, ts, i)
    ensures WritesOutside(prev, ts) <==> i == 0 && prev != null && prev != ts[0]
  {
    if i == 0 { assert ts == [ts[0]] + ts[1..]; }
  }

  /** Removing the current task moves on to its successor in round-robin order. */
  ghost function CurrentAfter(current: Task?, ts: seq<Task>, i: nat): (r: Task?)
    requires i < |ts|
  {
    if current != ts[i] then current else if |ts| == 1 then null else ts[Successor(i, |ts|)]
  }

  ghost predicate LinkedOver(e: Ends, ts: seq<Task>, nexts: seq<Task?>) {
    && Distinct(ts) && Chain(e.head, ts, nexts)
    && (ts != [] ==> e.tail == ts[|ts| - 1] && e.current != null && e.current in ts)
    && (ts == [] ==> e.current == null)
  }

  lemma LinkedMeans(e: Ends, ts: seq<Task>, nexts: seq<Task?>, prevs: seq<Task?>)
    requires Links(ts, nexts, prevs)
    ensures LinkedAs(e.head, e.tail, e.current, ts) <==> LinkedOver(e, ts, nexts)
    ensures forall i {:trigger nexts[i]} :: 0 <= i < |ts| ==> ts[i].next == nexts[i] && ts[i].prev == prevs[i]
    ensures LinkedOver(e, ts, nexts) && ts != [] ==> e.current != null
  {
    hide Forward, Chain;
    LinksMean(e.head, ts, nexts, prevs);
  }

  // ---------------------------------------------------------------- runs

  /** Ends, tasks and the links of the tasks. */
  datatype ListState = ListState(ends: Ends, ts: seq<Task>, nexts: seq<Task?>, prevs: seq<Task?>)

  ghost predicate LinkedState(s: ListState) {
    LinkedOver(s.ends, s.ts, s.nexts) && |s.prevs| == |s.ts|
  }

  /** task_new on a block, task_next, and task_list_remove of the i-th task. */
  datatype Step = New(task: Task) | Rotate | Remove(i: nat)

  ghost predicate Legal(ts: seq<Task>, op: Step) {
    match op
    case New(task) => task !in ts
    case Rotate => ts != []
    case Remove(i) => i < |ts|
  }

  function TasksAfter(ts: seq<Task>, op: Step): seq<Task>
    requires Legal(ts, op)
  {
    match op
    case New(task) => ts + [task]
    case Rotate => ts
    case Remove(i) => Without(ts, i)
  }

  ghost function Apply(s: ListState, op: Step): (r: ListState)
    requires LinkedState(s) && Legal(s.ts, op)
    ensures r.ts == TasksAfter(s.ts, op) && |r.nexts| == |r.prevs| == |r.ts|
  {
    match op
    case New(task) =>
      if s.ts == [] then ListState(Ends(task, task, task), [task], [null], [null])
      else ListState(s.ends.(tail := task), s.ts + [task], s.nexts[|s.ts| - 1 := task] + [null], s.prevs + [s.ends.tail])
    case Rotate =>
      var i :| 0 <= i < |s.ts| && s.ts[i] == s.ends.current;
      s.(ends := s.ends.(current := if s.nexts[i] == null then s.ends.head else s.nexts[i]))
    case Remove(i) =>
      ListState(Cut(s.ends, s.ts[i], s.nexts[i], s.prevs[i]), Without(s.ts, i),
                Without(Redirected(s.ts, s.nexts, s.prevs[i], s.nexts[i]), i), Without(s.prevs, i))
  }

  ghost predicate LegalRun(ts: seq<Task>, ops: seq<Step>)
    decreases |ops|
  {
    ops == [] || (Legal(ts, ops[0]) && LegalRun(TasksAfter(ts, ops[0]), ops[1..]))
  }

  /** The list is linked now and after every step. */
  ghost predicate StaysLinked(s: ListState, ops: seq<Step>)
    requires LegalRun(s.ts, ops)
    decreases |ops|
  {
    LinkedState(s) && (ops == [] || StaysLinked(Apply(s, ops[0]), ops[1..]))
  }

  /** The task that each task was put behind. */
  function BornAfter(ts: seq<Task>, born: seq<Task?>, op: Step): (r: seq<Task?>)
    requires Legal(ts, op) && |born| == |ts|
    ensures |r| == |TasksAfter(ts, op)|
  {
    match op
    case New(task) => born + [if ts == [] then null else ts[|ts| - 1]]
    case Rotate => born
    case Remove(i) => Without(born, i)
  }

  /**
    What can be told from the calls alone: whenever a task is removed, it is still behind the task
    that it was put behind, or it is the head and that task is not on the list again.
   */
  ghost predicate RightRun(ts: seq<Task>, born: seq<Task?>, ops: seq<Step>)
    requires LegalRun(ts, ops) && |born| == |ts|
    decreases |ops|
  {
    ops == [] || (
      && (ops[0].Remove? ==> PrevIsRight(born[ops[0].i], ts, ops[0].i))
      && RightRun(TasksAfter(ts, ops[0]), BornAfter(ts, born, ops[0]), ops[1..]))
  }

  /** The list with a new last task. */
  lemma NewState(s: ListState, task: Task) returns (r: ListState)
    requires LinkedState(s) && task !in s.ts
    ensures r == Apply(s, New(task)) && LinkedState(r) && r.ts == s.ts + [task]
    ensures r.ends.current == if s.ts == [] then task else s.ends.current
    ensures Distinct(s.ts) && (s.ends.head == null <==> s.ts == [])
    ensures if s.ts == [] then r == ListState(Ends(task, task, task), [task], [null], [null])
      else
        && s.ends.tail == s.ts[|s.ts| - 1]
        && r == ListState(s.ends.(tail := task), s.ts + [task], s.nexts[|s.ts| - 1 := task] + [null], s.prevs + [s.ends.tail])
    ensures Mirror(s.ts, s.prevs) ==> Mirror(r.ts, r.prevs)
  {
    r := Apply(s, New(task));
  }

  /** The list with the next task current; `i` is where the current task was. */
  lemma RotateState(s: ListState) returns (i: nat)
    requires LinkedState(s) && s.ts != []
    ensures i < |s.ts| && s.ts[i] == s.ends.current && LinkedState(Apply(s, Rotate))
    ensures Apply(s, Rotate) == s.(ends := s.ends.(current := s.ts[Successor(i, |s.ts|)]))
    ensures forall j :: 0 <= j < |s.ts| && s.ts[j] == s.ends.current ==> j == i
  {
    i :| i < |s.ts| && s.ts[i] == s.ends.current;
    if i < |s.ts| - 1 { SmallSuccessor(i, |s.ts|); } else { LastSuccessor(|s.ts|); }
  }

  lemma StepStaysLinked(s: ListState, op: Step)
    requires LinkedState(s) && Legal(s.ts, op)
    ensures LinkedState(Apply(s, op)) <==> op.Remove? ==> PrevIsRight(s.prevs[op.i], s.ts, op.i)
    ensures Apply(s, op).prevs == BornAfter(s.ts, s.prevs, op)
  {
    match op
    case New(task) =>
    case Rotate =>
    case Remove(i) =>
      hide Without, Redirected, Cut, Chain, PrevIsRight;
      EndsCut(s.ts, i, s.ends, Cut(s.ends, s.ts[i], s.nexts[i], s.prevs[i]), s.nexts,
              Redirected(s.ts, s.nexts, s.prevs[i], s.nexts[i]), s.prevs[i]);
  }

  /**
    Every run of task_new, rotations and removals of any tasks: the list stays linked after every
    step if and only if each removal is right in this sense.
   */
  lemma {:induction false} EveryRunStaysLinkedExactly(s: ListState, ops: seq<Step>)
    requires LinkedState(s) && LegalRun(s.ts, ops)
    ensures StaysLinked(s, ops) <==> RightRun(s.ts, s.prevs, ops)
    decreases |ops|
  {
    hide LinkedState, Apply, BornAfter, TasksAfter, Legal, PrevIsRight;
    if ops != [] {
      StepStaysLinked(s, ops[0]);
      if LinkedState(Apply(s, ops[0])) { EveryRunStaysLinkedExactly(Apply(s, ops[0]), ops[1..]); }
    }
  }

  /** A new task at the address of a removed head makes the removal of the next head go wrong. */
  lemma ReusedAddressBreaks(a: Task, b: Task)
    requires a != b
    ensures var ops := [New(a), New(b), Remove(0), New(a), Remove(0)];
      LegalRun([], ops) && !RightRun([], [], ops)
  {
    RunCons([a, b], [null, a], Remove(0), [New(a), Remove(0)]);
    RunCons([b], [a], New(a), [Remove(0)]);
    RunCons([b, a], [a, b], Remove(0), []);
    RunCons([a], [null], New(b), [Remove(0), New(a), Remove(0)]);
    RunCons([], [], New(a), [New(b), Remove(0), New(a), Remove(0)]);
  }

  /** Three calls that keep the list linked, and a fourth whose write goes into the block of the removed head. */
  lemma SecondHeadWritesIntoFreedBlock(a: Task, b: Task)
    requires a != b
    ensures var ops := [New(a), New(b), Remove(0), Remove(0)];
      LegalRun([], ops) && RightRun([], [], ops)
    ensures TasksAfter([a, b], Remove(0)) == [b] && BornAfter([a, b], [null, a], Remove(0)) == [a] && WritesOutside(a, [b])
  {
    RunCons([b], [a], Remove(0), []);
    RunCons([a, b], [null, a], Remove(0), [Remove(0)]);
    RunCons([a], [null], New(b), [Remove(0), Remove(0)]);
    RunCons([], [], New(a), [New(b), Remove(0), Remove(0)]);
  }

  lemma RunCons(ts: seq<Task>, born: seq<Task?>, op: Step, rest: seq<Step>)
    requires Legal(ts, op) && |born| == |ts| && LegalRun(TasksAfter(ts, op), rest)
    ensures LegalRun(ts, [op] + rest)
    ensures RightRun(ts, born, [op] + rest) ==
      ((op.Remove? ==> PrevIsRight(born[op.i], ts, op.i)) && RightRun(TasksAfter(ts, op), BornAfter(ts, born, op), rest))
  {
    assert ([op] + rest)[1..] == rest;
  }

  /** What the redirected links mean for the other tasks. */
  lemma AfterCut(ts: seq<Task>, i: nat, e: Ends, e': Ends, nexts: seq<Task?>, nexts': seq<Task?>, prevs: seq<Task?>)
    requires i < |ts| == |nexts| == |prevs| && LinkedOver(e, ts, nexts) && Links(ts, nexts', prevs)
    requires nexts' == Redirected(ts, nexts, prevs[i], nexts[i]) && e' == Cut(e, ts[i], nexts[i], prevs[i])
    ensures Forward(e'.head, Without(ts, i)) <==> PrevIsRight(prevs[i], ts, i)
    ensures LinkedAs(e'.head, e'.tail, e'.current, Without(ts, i)) <==> PrevIsRight(prevs[i], ts, i)
    ensures PrevIsRight(prevs[i], ts, i) ==> e'.current == CurrentAfter(e.current, ts, i)
    ensures Mirror(ts, prevs) ==> (Backward(Without(ts, i)) <==> i == |ts| - 1)
    ensures Mirror(ts, prevs) ==> PrevIsRight(prevs[i], ts, i) && (Without(ts, i) == [] ==> e'.tail == null)
  {
    hide Without, Mirror, Chain, Forward, Backward, LinkedAs, Redirected, CurrentAfter, PrevIsRight, LinkedOver, Cut;
    EndsCut(ts, i, e, e', nexts, nexts', prevs[i]);
    if Mirror(ts, prevs) {
      LinkedIsDistinct(e, ts, nexts);
      MirrorIsRight(ts, i, prevs, e, nexts);
      BackCut(ts, i, prevs);
    }
    LinkedHasChain(e', Without(ts, i), Without(nexts', i));
    LinksWithout(ts, i, nexts', prevs);
    LinksMean(e'.head, Without(ts, i), Without(nexts', i), Without(prevs, i));
    LinkedMeans(e', Without(ts, i), Without(nexts', i), Without(prevs, i));
  }

  lemma MirrorIsRight(ts: seq<Task>, i: nat, prevs: seq<Task?>, e: Ends, nexts: seq<Task?>)
    requires i < |ts| == |nexts| && Mirror(ts, prevs) && LinkedOver(e, ts, nexts)
    ensures PrevIsRight(prevs[i], ts, i)
    ensures Without(ts, i) == [] ==> Cut(e, ts[i], nexts[i], prevs[i]).tail == null
  {
  }

  lemma LinkedHasChain(e: Ends, ts: seq<Task>, nexts: seq<Task?>)
    ensures LinkedOver(e, ts, nexts) ==> Chain(e.head, ts, nexts)
  {
  }

  lemma LinkedIsDistinct(e: Ends, ts: seq<Task>, nexts: seq<Task?>)
    requires LinkedOver(e, ts, nexts)
    ensures Distinct(ts)
  {
  }

  lemma EndsCut(ts: seq<Task>, i: nat, e: Ends, e': Ends, nexts: seq<Task?>, nexts': seq<Task?>, prev: Task?)
    requires i < |ts| == |nexts| && LinkedOver(e, ts, nexts)
    requires nexts' == Redirected(ts, nexts, prev, nexts[i]) && e' == Cut(e, ts[i], nexts[i], prev)
    ensures Chain(e'.head, Without(ts, i), Without(nexts', i)) <==> PrevIsRight(prev, ts, i)
    ensures PrevIsRight(prev, ts, i) ==>
      LinkedOver(e', Without(ts, i), Without(nexts', i)) && e'.current == CurrentAfter(e.current, ts, i)
  {
    hide Redirected, Without, Successor;
    assert e'.head == if i == 0 then nexts[i] else e.head;
    ChainCut(e.head, e'.head, ts, i, nexts, nexts', prev);
    ListCut(ts, i);
  }

  /** The next links after `prev->next = to`. */
  ghost function Redirected(ts: seq<Task>, nexts: seq<Task?>, prev: Task?, to: Task?): (r: seq<Task?>)
    requires |nexts| == |ts|
    ensures |r| == |ts|
  {
    seq(|ts|, k requires 0 <= k < |ts| => if ts[k] == prev then to else nexts[k])
  }

  /**
    A chain with one next link redirected past task i (the link of `prev`) runs through the other
    tasks exactly when it was the right link to redirect.
   */
  lemma ChainCut(head: Task?, head': Task?, ts: seq<Task>, i: nat, nexts: seq<Task?>, nexts': seq<Task?>, prev: Task?)
    requires Distinct(ts) && i < |ts| == |nexts| && Chain(head, ts, nexts)
    requires nexts' == Redirected(ts, nexts, prev, nexts[i])
    requires head' == if i == 0 then nexts[i] else head
    ensures Chain(head', Without(ts, i), Without(nexts', i)) <==> PrevIsRight(prev, ts, i)
  {
    if PrevIsRight(prev, ts, i) {
      RightCut(head, head', ts, i, nexts, nexts', prev);
    } else if i == 0 {
      WrongHeadCut(head', ts, nexts, nexts', prev);
    } else {
      WrongCut(head', ts, i, nexts, nexts', prev);
    }
  }

  lemma RightCut(head: Task?, head': Task?, ts: seq<Task>, i: nat, nexts: seq<Task?>, nexts': seq<Task?>, prev: Task?)
    requires Distinct(ts) && i < |ts| == |nexts| && Chain(head, ts, nexts)
    requires nexts' == Redirected(ts, nexts, prev, nexts[i]) && PrevIsRight(prev, ts, i)
    requires head' == if i == 0 then nexts[i] else head
    ensures Chain(head', Without(ts, i), Without(nexts', i))
  {
    var rest, links := Without(ts, i), Without(nexts', i);
    forall k | 0 <= k < |rest| ensures links[k] == if k < |rest| - 1 then rest[k + 1] else null {
      var j := if k < i then k else k + 1;
      assert rest[k] == ts[j] && links[k] == nexts'[j];
      assert nexts'[j] == if i > 0 && j == i - 1 then nexts[i] else nexts[j];
    }
  }

  /** A head whose prev link names a task behind it redirects that task's next link. */
  lemma WrongHeadCut(head': Task?, ts: seq<Task>, nexts: seq<Task?>, nexts': seq<Task?>, prev: Task?)
    requires Distinct(ts) && 1 < |ts| == |nexts| && prev in ts[1..] && nexts[0] == ts[1]
    requires nexts' == Redirected(ts, nexts, prev, nexts[0])
    ensures !Chain(head', Without(ts, 0), Without(nexts', 0))
  {
    var rest, links := Without(ts, 0), Without(nexts', 0);
    var j :| 1 <= j < |ts| && ts[j] == prev;
    assert rest[j - 1] == ts[j] && links[j - 1] == nexts'[j] == ts[1];
    assert j < |ts| - 1 ==> rest[j] == ts[j + 1];
  }

  lemma WrongCut(head': Task?, ts: seq<Task>, i: nat, nexts: seq<Task?>, nexts': seq<Task?>, prev: Task?)
    requires Distinct(ts) && 0 < i < |ts| == |nexts| && prev != ts[i - 1] && nexts[i - 1] == ts[i]
    requires nexts' == Redirected(ts, nexts, prev, nexts[i])
    ensures !Chain(head', Without(ts, i), Without(nexts', i))
  {
    var rest, links := Without(ts, i), Without(nexts', i);
    assert rest[i - 1] == ts[i - 1] && links[i - 1] == nexts'[i - 1] == ts[i];
    assert i < |ts| - 1 ==> rest[i] == ts[i + 1];
  }

  /** The prev links of the other tasks are right exactly when the removed task was the last. */
  lemma BackCut(ts: seq<Task>, i: nat, prevs: seq<Task?>)
    requires Distinct(ts) && i < |ts| && Mirror(ts, prevs)
    ensures Mirror(Without(ts, i), Without(prevs, i)) <==> i == |ts| - 1
  {
    var rest, links := Without(ts, i), Without(prevs, i);
    assert forall k :: 0 <= k < i ==> rest[k] == ts[k] && links[k] == prevs[k];
    if i < |ts| - 1 {
      assert links[i] == ts[i];
    }
  }

  lemma LinksWithout(ts: seq<Task>, i: nat, nexts: seq<Task?>, prevs: seq<Task?>)
    requires i < |ts| && Links(ts, nexts, prevs)
    ensures Links(Without(ts, i), Without(nexts, i), Without(prevs, i))
  {
  }

  lemma Neighbours(ts: seq<Task>, i: nat)
    requires Distinct(ts) && i + 1 < |ts|
    ensures Without(ts, i)[i] == ts[i + 1] && ts[i] !in Without(ts, i)
    ensures i > 0 ==> Without(ts, i)[i - 1] == ts[i - 1]
  {
  }

  /** Who is left, who is last, and who follows. */
  lemma ListCut(ts: seq<Task>, i: nat)
    requires Distinct(ts) && i < |ts|
    ensures var rest := Without(ts, i);
      && Distinct(rest) && (forall t :: t in rest <==> t in ts && t != ts[i])
      && (i == |ts| - 1 && i > 0 ==> rest[|rest| - 1] == ts[i - 1])
      && (i < |ts| - 1 ==> rest[|rest| - 1] == ts[|ts| - 1])
    ensures Successor(i, |ts|) == if i < |ts| - 1 then i + 1 else 0
  {
    if i < |ts| - 1 { SmallSuccessor(i, |ts|); } else { LastSuccessor(|ts|); }
  }

  lemma SmallSuccessor(i: nat, n: nat)
    requires i + 1 < n
    ensures Successor(i, n) == i + 1
  {
  }

  lemma LastSuccessor(n: nat)
    requires n >= 1
    ensures Successor(n - 1, n) == 0
  {
  }

  /** Position after k rotations. */
  function Turn(start: nat, k: nat, n: nat): (j: nat)
    requires start < n
    ensures j < n
  {
    if start + k < n then start + k else (start + k) % n
  }

  lemma TurnIs(start: nat, k: nat, n: nat)
    requires start < n && k <= n
    ensures Turn(start, k, n) == if start + k < n then start + k else start + k - n
  {
    if start + k >= n {
      assert start + k == n + (start + k - n);
      ModOnce(start + k, n);
    }
  }

  lemma ModOnce(x: nat, n: nat)
    requires n <= x < 2 * n
    ensures x % n == x - n
  {
  }

  lemma TurnStep(start: nat, k: nat, n: nat)
    requires start < n && k < n
    ensures Turn(start, k + 1, n) == Successor(Turn(start, k, n), n)
  {
    TurnIs(start, k, n);
    TurnIs(start, k + 1, n);
    var t := Turn(start, k, n);
    if t < n - 1 { SmallSuccessor(t, n); } else { LastSuccessor(n); }
  }

  lemma FullTurn(start: nat, n: nat)
    requires start < n
    ensures Turn(start, n, n) == start && Turn(start, 0, n) == start
  {
    TurnIs(start, n, n);
  }

  /** The visiting order is the list cut behind the start and swapped. */
  lemma Revolution(ts: seq<Task>, visited: seq<Task>, start: nat)
    requires Distinct(ts) && start < |ts| && |visited| == |ts|
    requires visited == seq(|ts|, j requires 0 <= j < |ts| => ts[Turn(start, j + 1, |ts|)])
    ensures Distinct(visited) && multiset(visited) == multiset(ts)
  {
    var n := |ts|;
    forall j | 0 <= j < n ensures visited[j] == (ts[start + 1..] + ts[..start + 1])[j] {
      TurnIs(start, j + 1, n);
    }
    assert visited == ts[start + 1..] + ts[..start + 1];
    assert ts == ts[..start + 1] + ts[start + 1..];
  }
}
