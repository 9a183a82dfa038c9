/**
  task_new and task_free on memory: the task structures are blocks of the heap, linked through their own
  words and the two ends of the list.
 */
module TaskMachine {
  import opened HeapTable
  import opened Memory
  import opened KernelState
  import opened KernelMachine
  import opened AddressSpace
  import opened ProcessMemory
  import opened Chunks
  import opened ProgramImage
  import opened Ownership
  import opened TaskLinks
  import opened KernelRuns
  import I = Isolation
  import HT = HeapTheory
  import P = Paging

  /** task_head and task_tail */
  class TaskEnds {
    var head: Word
    var tail: Word

    constructor ()
      ensures head == 0 && tail == 0
    {
      head, tail := 0, 0;
    }
  }

  /** task_init behind the page directory, on the words of the structure. */
  method TaskFields(k: Machine, f: nat, directory: Word, ip: Word, process: Word)
    requires k.ram.Length == FRAMES && f < FRAMES
    modifies k.ram
    ensures k.Mem() == old(k.Mem())[f := TaskInit(old(k.Mem())[f], directory, ip, process, 0)]
  {
    hide SetWord;
    k.ram[f] := SetWord(k.ram[f], DIRECTORY, directory);
    k.ram[f] := SetWord(k.ram[f], IP, ip);
    k.ram[f] := SetWord(k.ram[f], CS, USER_CODE_SEGMENT);
    k.ram[f] := SetWord(k.ram[f], ESP, STACK_TOP);
    k.ram[f] := SetWord(k.ram[f], SS, USER_DATA_SEGMENT);
    k.ram[f] := SetWord(k.ram[f], PROCESS, process);
  }

  /** The stores of task_new through task_tail, in their order. */
  method TaskLink(k: Machine, f: nat, tail: Word, task: Word)
    requires k.ram.Length == FRAMES && f < FRAMES
    modifies k.ram
    ensures k.Mem() == Linked(old(k.Mem()), f, tail, task)
  {
    hide SetWord;
    var t := tail / PAGE_SIZE;
    k.ram[t] := SetWord(k.ram[t], NEXT, task);
    k.ram[f] := SetWord(k.ram[f], PREV, tail);
  }

  function Linked(m: Ram, f: nat, tail: Word, task: Word): Ram
    requires f < FRAMES
  {
    var m1 := StoreNext(m, tail / PAGE_SIZE, task);
    m1[f := SetWord(m1[f], PREV, tail)]
  }

  /** The prev link may as well be set first. */
  lemma LinkOrder(m: Ram, f: nat, directory: Word, ip: Word, process: Word, tail: Word, task: Word)
    requires f < FRAMES && WordAt(m[f], PREV) == 0
    ensures Linked(m[f := TaskInit(m[f], directory, ip, process, 0)], f, tail, task)
      == StoreNext(m[f := TaskInit(m[f], directory, ip, process, tail)], tail / PAGE_SIZE, task)
  {
    hide SetWord, WordAt;
    var p := TaskInit(m[f], directory, ip, process, 0);
    assert WordAt(p, PREV) == 0;
    if tail == 0 { SetWordSame(p, PREV); }
    var t := tail / PAGE_SIZE;
    if t == f {
      WordsCommute(p, task, tail);
    }
    SetWordSame(SetWord(p, NEXT, task), PREV);
  }

  lemma WordsCommute(p: Page, next: Word, prev: Word)
    ensures SetWord(SetWord(p, NEXT, next), PREV, prev) == SetWord(SetWord(p, PREV, prev), NEXT, next)
  {
  }

  /** kzalloc of the task structure and paging_new_4gb. */
  method TaskMemory(k: Machine, ghost o: Owned) returns (task: Word, chunk: nat)
    requires k.Valid() && OInv(o) && o.sys.ks == k.State() && HT.FreeFrom(k.State().table, 0) > SPACE_BLOCKS
    modifies k.heap`live, k.heap.entries, k.ram
    ensures k.Valid() && k.State() == Spawned(o).sys.ks && chunk == NewChunk(o) * PAGE_SIZE
    ensures 0 <= TaskBlock(o) < HEAP_BLOCKS && task == AddressOf(TaskBlock(o))
  {
    hide OInv, Refines, HT.FreeFrom, StartBlock, Fits, NewFrame, BuiltState, New4gb, Took, Footprint, SpaceAt, ViewAt, ApplyPlain, Zalloc, Open;
    TaskRoom(o);
    TaskAlloc(o);
    task := k.KZalloc(TASK_SIZE);
    chunk := PagingNew4gb(k, P.USER_READ);
  }

  lemma TaskAlloc(o: Owned)
    requires OInv(o) && HT.FreeFrom(o.sys.ks.table, 0) > SPACE_BLOCKS
    ensures Fits(o.sys.ks.table, BlocksFor(TASK_SIZE)) && Legal(o, Plain(I.KernelAlloc(TASK_SIZE)))
    ensures var r := ApplyPlain(o, I.KernelAlloc(TASK_SIZE));
      && r.sys.ks == Zalloc(o.sys.ks, TASK_SIZE) && HT.FreeFrom(r.sys.ks.table, 0) >= SPACE_BLOCKS
      && OInv(r) && Legal(r, Plain(I.Spawn))
      && 0 <= NewFrame(r.sys.ks) < FRAMES && 0 <= NewFrame(BuiltState(r.sys.ks, P.USER_READ)) < FRAMES
      && ApplyPlain(r, I.Spawn).sys.ks == New4gb(r.sys.ks, P.USER_READ)
      && NewChunk(o) == NewFrame(BuiltState(r.sys.ks, P.USER_READ))
  {
    hide OInv, Inv, Refines, HT.FreeFrom, StartBlock, NewFrame, BuiltState, New4gb, Zalloc, ViewAt, Dir, Open;
    TaskRoom(o);
    InvOf(o);
    SpawnAdds(ApplyPlain(o, I.KernelAlloc(TASK_SIZE)));
  }

  lemma BlankPrev(m: Ram, b: int)
    requires 0 <= b < HEAP_BLOCKS && Blank(m[FrameOf(b)])
    ensures WordAt(m[FrameOf(b)], PREV) == 0
  {
    hide WordAt;
  }

  /** task_new: memory, fields, links, and the ends of the list. */
  method TaskNew(k: Machine, ends: TaskEnds, ip: Word, process: Word, ghost kn: Kernel) returns (task: Word, chunk: nat)
    requires k.Valid() && KInv(kn) && kn.o.sys.ks == k.State() && kn.head == ends.head && kn.tail == ends.tail
    requires LegalEvent(kn, NewTask(ip, process))
    modifies k.heap`live, k.heap.entries, k.ram, ends
    ensures k.Valid() && 0 <= TaskBlock(kn.o) < HEAP_BLOCKS && task == AddressOf(TaskBlock(kn.o)) && chunk == NewChunk(kn.o) * PAGE_SIZE
    ensures var r := ApplyNew(kn, ip, process); k.State() == r.o.sys.ks && ends.head == r.head && ends.tail == r.tail
    ensures Structure(k.Mem()[task / 0x1000],
      chunk, ip, process, if kn.head != 0 && kn.tail == task then task else 0, if kn.head == 0 then 0 else kn.tail)
    ensures ends.tail == task && ends.head == if kn.head == 0 then task else kn.head
  {
    hide OInv, TasksOk, HT.FreeFrom, Spawned, NewChunk, TaskBlock, TaskInit, WordAt, LooseFrame, Linked, StoreNext, Refines, Structure, Blank;
    SpawnedIs(kn.o, kn.tasks);
    BlankPrev(Spawned(kn.o).sys.ks.mem, TaskBlock(kn.o));
    BornIs(kn, ip, process);
    NewTaskWords(kn, ip, process);
    task, chunk := TaskMemory(k, kn.o);
    ghost var m, f := k.Mem(), FrameOf(TaskBlock(kn.o));
    LastIsNew(kn.o);
    TaskFields(k, task / PAGE_SIZE, chunk, ip, process);
    if ends.head == 0 {
      ends.head := task;
      ends.tail := task;
      return;
    }
    TaskLink(k, task / PAGE_SIZE, ends.tail, task);
    LinkOrder(m, f, chunk, ip, process, kn.tail, task);
    ends.tail := task;
  }

  /** What task_list_remove leaves of memory, and of the ends of the list. */
  function RemovedMem(m: Ram, task: Word): Ram {
    var page := m[task / PAGE_SIZE];
    if WordAt(page, PREV) == 0 then m else StoreNext(m, WordAt(page, PREV) / PAGE_SIZE, WordAt(page, NEXT))
  }

  /** The one word that changes: the next link of the task that the prev link names, when that is not null. */
  lemma RemovedWords(m: Ram, task: Word, g: nat, i: nat)
    requires g < FRAMES && i < ENTRIES
    ensures var prev, next := WordAt(m[task / 0x1000], 15), WordAt(m[task / 0x1000], 14);
      WordAt(RemovedMem(m, task)[g], i) == if prev != 0 && g == prev / 0x1000 && i == 14 then next else WordAt(m[g], i)
  {
    hide WordAt, SetWord;
    var prev, next := WordAt(m[task / 0x1000], 15), WordAt(m[task / 0x1000], 14);
    if prev != 0 && g == prev / 0x1000 { WordOfStore(m[g], next, i); }
  }

  /** task_list_remove; which task is current is the subject of the task list itself. */
  method TaskListRemove(k: Machine, ends: TaskEnds, task: Word)
    requires k.ram.Length == FRAMES
    modifies k.ram, ends
    ensures k.Mem() == RemovedMem(old(k.Mem()), task)
    ensures ends.head == (if old(ends.head) == task then WordAt(old(k.Mem())[task / 0x1000], 14) else old(ends.head))
    ensures ends.tail == (if old(ends.tail) == task then WordAt(old(k.Mem())[task / 0x1000], 15) else old(ends.tail))
  {
    hide WordAt, SetWord;
    var f := task / PAGE_SIZE;
    var prev := WordAt(k.ram[f], PREV);
    if prev != 0 {
      k.ram[prev / PAGE_SIZE] := SetWord(k.ram[prev / PAGE_SIZE], NEXT, WordAt(k.ram[f], NEXT));
    }
    if task == ends.head {
      ends.head := WordAt(k.ram[f], NEXT);
    }
    if task == ends.tail {
      ends.tail := WordAt(k.ram[f], PREV);
    }
  }
}
