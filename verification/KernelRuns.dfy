/**
  Whole runs of the kernel: processes come and go with their task structures in the heap, the task list is
  linked through memory, and user code stores wherever its page tables let it. Ownership of frames holds
  after every step if and only if every mapped image fits and every store through a link fits.
 */
module KernelRuns {
  import opened HeapTable
  import opened Memory
  import opened KernelState
  import opened AddressSpace
  import opened ProcessMemory
  import opened ProgramImage
  import opened Ownership
  import opened TaskLinks
  import I = Isolation
  import HT = HeapTheory
  import P = Paging

  /** sizeof(struct task) */
  const TASK_SIZE := 64
  /** Word numbers of the other fields that task_init sets. */
  const DIRECTORY := 0
  const IP := 8
  const CS := 9
  const ESP := 11
  const SS := 12
  const PROCESS := 13
  const USER_CODE_SEGMENT := 0x1B
  const USER_DATA_SEGMENT := 0x23

  /** The system, the block of the task structure of each process, task_head and task_tail. */
  datatype Kernel = Kernel(o: Owned, tasks: seq<nat>, head: Word, tail: Word)

  /** Null or block-aligned links. */
  ghost predicate TaskPage(page: Page) {
    Link(WordAt(page, NEXT)) && Link(WordAt(page, PREV))
  }

  /** Block b holds a task structure: a run of its own, nobody's memory. */
  ghost predicate TaskOk(o: Owned, b: nat) {
    b < HEAP_BLOCKS && LooseFrame(o, FrameOf(b)) && TaskPage(o.sys.ks.mem[FrameOf(b)])
  }

  ghost predicate TasksOk(o: Owned, tasks: seq<nat>) {
    && (forall i :: 0 <= i < |tasks| ==> TaskOk(o, tasks[i]))
    && (forall i, j :: 0 <= i < j < |tasks| ==> tasks[i] != tasks[j])
  }

  ghost predicate KInv(k: Kernel) {
    OInv(k.o) && |k.tasks| == |k.o.sys.procs| && TasksOk(k.o, k.tasks) && Link(k.head) && Link(k.tail)
  }

  /**
    Steps of the kernel: those of Ownership; task_new; process_terminate; a page of user memory as user code
    leaves it; and a page as the kernel leaves it, with links of tasks null or block addresses.
   */
  datatype Event =
    | Do(act: Act)
    | NewTask(ip: Word, process: Word)
    | Terminate(pid: nat)
    | UserStore(pid: nat, v: nat, page: Page)
    | KernelStore(f: nat, page: Page)

  ghost predicate LegalEvent(k: Kernel, e: Event) {
    match e
    case Do(act) => Legal(k.o, act) && SparesTasks(k.tasks, act)
    case NewTask(ip, process) => HT.FreeFrom(k.o.sys.ks.table, 0) > SPACE_BLOCKS
    case Terminate(i) => i < |k.tasks|
    case UserStore(i, v, page) => UserMayWrite(k.o, i, v)
    case KernelStore(f, page) =>
      f < FRAMES && !Tabled(k.o.sys, f) && forall b :: b in k.tasks && FrameOf(b) == f ==> TaskPage(page)
  }

  /** Processes are made with their tasks, and task structures are neither freed nor given away. */
  ghost predicate SparesTasks(tasks: seq<nat>, act: Act) {
    match act
    case Plain(op) => !op.Spawn? && (op.KernelFree? ==> op.block !in tasks)
    case Give(i, b) => b !in tasks
    case MapMemory(i, image, stack) => true
  }

  /** Page v of process i is present, open to user code and writable. */
  ghost predicate UserMayWrite(o: Owned, i: nat, v: nat) {
    && i < |o.sys.procs| && o.sys.procs[i].chunk < FRAMES && v < FRAMES
    && var e := ViewAt(o.sys.ks.mem, o.sys.procs[i].chunk)[v]; P.IsPresent(e) && P.IsUser(e) && P.IsWriteable(e)
  }

  /** The frame behind it. */
  ghost function UserFrame(o: Owned, i: nat, v: nat): (f: nat)
    requires UserMayWrite(o, i, v)
    ensures f < FRAMES
  {
    P.Frame(ViewAt(o.sys.ks.mem, o.sys.procs[i].chunk)[v])
  }

  // ---------------------------------------------------------------- task_new

  /**
    A new task structure as it lies in memory at this page: chunk, registers (edi to eax, ip, cs, flags, esp,
    ss), process, next and prev.
   */
  ghost predicate Structure(page: Page, chunk: nat, ip: nat, process: nat, next: nat, prev: nat) {
    && WordAt(page, 0) == chunk && (forall i: nat :: 1 <= i < 8 ==> WordAt(page, i) == 0)
    && WordAt(page, 8) == ip && WordAt(page, 9) == 0x1B && WordAt(page, 10) == 0
    && WordAt(page, 11) == 0x3F_F000 && WordAt(page, 12) == 0x23
    && WordAt(page, 13) == process && WordAt(page, 14) == next && WordAt(page, 15) == prev
  }

  ghost predicate Blank(page: Page) {
    forall i: nat :: i < 16 ==> WordAt(page, i) == 0
  }

  /** task_init, and the prev link that task_new sets. */
  function TaskInit(page: Page, directory: Word, ip: Word, process: Word, prev: Word): Page {
    var p1 := SetWord(SetWord(SetWord(page, DIRECTORY, directory), IP, ip), CS, USER_CODE_SEGMENT);
    var p2 := SetWord(SetWord(SetWord(p1, ESP, STACK_TOP), SS, USER_DATA_SEGMENT), PROCESS, process);
    if prev == 0 then p2 else SetWord(p2, PREV, prev)
  }

  /** The block that kzalloc finds for a task structure. */
  ghost function TaskBlock(o: Owned): int {
    StartBlock(o.sys.ks.table, 1)
  }

  lemma TaskRoom(o: Owned)
    requires OInv(o) && HT.FreeFrom(o.sys.ks.table, 0) > SPACE_BLOCKS
    ensures Legal(o, Plain(I.KernelAlloc(TASK_SIZE))) && 0 <= TaskBlock(o) < HEAP_BLOCKS && BlocksFor(TASK_SIZE) == 1
    ensures var r := ApplyPlain(o, I.KernelAlloc(TASK_SIZE));
      OInv(r) && Legal(r, Plain(I.Spawn)) && |r.sys.procs| == |o.sys.procs| && r.held == o.held
  {
    hide OInv, Inv, Refines, StartBlock, Fits, HT.FreeFrom, ZeroFill, FreeRun, HasRun;
    InvOf(o);
    SystemOk(o.sys);
    BlocksForPage(TASK_SIZE);
    OneBlockFits(o.sys.ks.table);
    FreeBlockExists(o.sys.ks.table, 0);
    StartBlockFound(o.sys.ks.table, 1);
    FirstIsFree(o.sys.ks.table);
    TakeOneCounts(o.sys.ks.table, TaskBlock(o), 0);
    QuietStepKeepsOInv(o, I.KernelAlloc(TASK_SIZE));
  }

  lemma FirstIsFree(t: seq<Entry>)
    requires StartBlock(t, 1) >= 0 && FreeRun(t, StartBlock(t, 1), 1)
    ensures StartBlock(t, 1) < |t| && IsFree(t[StartBlock(t, 1)])
  {
    hide StartBlock;
  }

  /** kzalloc of the task structure and paging_new_4gb. */
  ghost function Spawned(o: Owned): Owned
    requires OInv(o) && HT.FreeFrom(o.sys.ks.table, 0) > SPACE_BLOCKS
  {
    TaskRoom(o);
    ApplyPlain(ApplyPlain(o, I.KernelAlloc(TASK_SIZE)), I.Spawn)
  }

  /** The new process is the last; the task structures from before and the new one are in place, its links null. */
  lemma SpawnedIs(o: Owned, tasks: seq<nat>)
    requires OInv(o) && HT.FreeFrom(o.sys.ks.table, 0) > SPACE_BLOCKS && TasksOk(o, tasks)
    ensures var r, b := Spawned(o), TaskBlock(o);
      && OInv(r) && |r.sys.procs| == |o.sys.procs| + 1 && 0 <= b < HEAP_BLOCKS
      && b !in tasks && TasksOk(r, tasks) && LooseFrame(r, FrameOf(b)) && Blank(r.sys.ks.mem[FrameOf(b)])
  {
    hide OInv, Inv, StartBlock, ApplyPlain, TaskPage, Legal, LooseFrame, HT.FreeFrom, TasksOk;
    var op, b := I.KernelAlloc(TASK_SIZE), TaskBlock(o);
    TaskRoom(o);
    var o1 := ApplyPlain(o, op);
    NewTaskBlock(o, tasks);
    TasksKept(o, op, tasks);
    PlainKeepsOInv(o1, I.Spawn);
    TasksKept(o1, I.Spawn, tasks);
    LooseFrameKept(o1, I.Spawn, FrameOf(b));
    SpawnCount(o1);
  }

  lemma SpawnCount(o: Owned)
    requires OInv(o) && Legal(o, Plain(I.Spawn))
    ensures |ApplyPlain(o, I.Spawn).sys.procs| == |o.sys.procs| + 1
  {
    hide OInv, Inv, I.Apply;
    InvOf(o);
    SameCount(o.sys, I.Spawn);
  }

  lemma NewTaskBlock(o: Owned, tasks: seq<nat>)
    requires OInv(o) && HT.FreeFrom(o.sys.ks.table, 0) > SPACE_BLOCKS && TasksOk(o, tasks)
    requires Legal(o, Plain(I.KernelAlloc(TASK_SIZE))) && 0 <= TaskBlock(o) < HEAP_BLOCKS
    ensures var r, b := ApplyPlain(o, I.KernelAlloc(TASK_SIZE)), TaskBlock(o);
      && b !in tasks && LooseFrame(r, FrameOf(b)) && Blank(r.sys.ks.mem[FrameOf(b)])
  {
    hide OInv, Inv, Refines, StartBlock, Fits, HT.FreeFrom, ZeroFill, FreeRun, HasRun, I.Unclaimed, TaskPage, WordAt;
    InvOf(o);
    SystemOk(o.sys);
    BlocksForPage(TASK_SIZE);
    ZallocFacts(o.sys.ks, TASK_SIZE);
    NewRunIsUnheld(o, TASK_SIZE, TaskBlock(o));
    ZeroedLinks(o.sys.ks.mem, FrameOf(TaskBlock(o)));
  }

  lemma ZeroedLinks(m: Ram, f: nat)
    requires f < FRAMES
    ensures Blank(ZeroFill(m, f, TASK_SIZE)[f])
  {
    hide Join, ZeroPrefix, WordAt;
    var page := ZeroFill(m, f, TASK_SIZE)[f];
    assert page == ZeroPrefix(m[f], TASK_SIZE);
    forall i: nat | i < 16 ensures WordAt(page, i) == 0 { ZeroWord(m[f], i); }
  }

  lemma ZeroWord(page: Page, k: nat)
    requires 4 * k + 4 <= TASK_SIZE
    ensures WordAt(ZeroPrefix(page, TASK_SIZE), k) == 0
  {
    var r := ZeroPrefix(page, TASK_SIZE);
    assert r[4 * k] == 0 && r[4 * k + 1] == 0 && r[4 * k + 2] == 0 && r[4 * k + 3] == 0;
  }

  lemma LooseFrameKept(o: Owned, op: I.Op, x: nat)
    requires OInv(o) && Legal(o, Plain(op)) && LooseFrame(o, x) && (op.KernelFree? ==> FrameOf(op.block) != x)
    ensures var r := ApplyPlain(o, op); LooseFrame(r, x) && x < FRAMES && r.sys.ks.mem[x] == o.sys.ks.mem[x]
  {
    hide OInv, ApplyPlain, Legal, I.Unclaimed;
    LooseKept(o, op, x - HEAP_FRAME);
  }

  /** Allocations and releases leave task structures alone. */
  lemma TasksKept(o: Owned, op: I.Op, tasks: seq<nat>)
    requires OInv(o) && Legal(o, Plain(op)) && TasksOk(o, tasks) && (op.KernelFree? ==> op.block !in tasks)
    ensures TasksOk(ApplyPlain(o, op), tasks)
  {
    hide OInv, ApplyPlain, Legal, LooseFrame, TaskPage;
    forall i | 0 <= i < |tasks| ensures TaskOk(ApplyPlain(o, op), tasks[i]) {
      assert TaskOk(o, tasks[i]);
      LooseFrameKept(o, op, FrameOf(tasks[i]));
    }
  }

  /** Chunk of the last process. */
  ghost function LastChunk(o: Owned): (c: nat)
    requires OInv(o) && o.sys.procs != []
    ensures c < FRAMES
  {
    hide OInv;
    Parts(o, |o.sys.procs| - 1);
    o.sys.procs[|o.sys.procs| - 1].chunk
  }

  /** task_new up to the store through task_tail. */
  ghost function Born(k: Kernel, ip: Word, process: Word): Owned
    requires KInv(k) && LegalEvent(k, NewTask(ip, process))
  {
    hide OInv, Spawned, TasksOk, LooseFrame;
    SpawnedIs(k.o, k.tasks);
    var r, f := Spawned(k.o), FrameOf(TaskBlock(k.o));
    WithMem(r, r.sys.ks.mem[f := TaskInit(r.sys.ks.mem[f], LastChunk(r) * PAGE_SIZE, ip, process, if k.head == 0 then 0 else k.tail)])
  }

  lemma InitPage(page: Page, directory: Word, ip: Word, process: Word, prev: Word)
    requires Blank(page) && Link(prev)
    ensures var r := TaskInit(page, directory, ip, process, prev);
      TaskPage(r) && Structure(r, directory, ip, process, 0, prev)
  {
    hide WordAt, SetWord;
  }

  /** The new process is the last, block b is its task structure, and its links are those of the end of the list. */
  ghost predicate BornOk(k: Kernel, r: Owned, b: int) {
    && 0 <= b < HEAP_BLOCKS && OInv(r) && |r.sys.procs| == |k.o.sys.procs| + 1 && TasksOk(r, k.tasks + [b])
    && WordAt(r.sys.ks.mem[FrameOf(b)], NEXT) == 0 && WordAt(r.sys.ks.mem[FrameOf(b)], PREV) == if k.head == 0 then 0 else k.tail
  }

  /** The structure of the new process before it is linked: chunk, entry point, the selectors and stack of user code. */
  lemma BornWords(k: Kernel, ip: Word, process: Word)
    requires KInv(k) && LegalEvent(k, NewTask(ip, process))
    ensures 0 <= TaskBlock(k.o) < HEAP_BLOCKS && 0 <= NewChunk(k.o) < FRAMES
    ensures Structure(Born(k, ip, process).sys.ks.mem[FrameOf(TaskBlock(k.o))],
      NewChunk(k.o) * 0x1000, ip, process, 0, if k.head == 0 then 0 else k.tail)
  {
    hide OInv, Spawned, TasksOk, LooseFrame, TaskInit, TaskPage, WordAt, LastChunk, TaskBlock, NewChunk, HT.FreeFrom, Structure, Blank;
    SpawnedIs(k.o, k.tasks);
    LastIsNew(k.o);
    var r, b := Spawned(k.o), TaskBlock(k.o);
    InitPage(r.sys.ks.mem[FrameOf(b)], LastChunk(r) * PAGE_SIZE, ip, process, if k.head == 0 then 0 else k.tail);
  }

  lemma LastIsNew(o: Owned)
    requires OInv(o) && HT.FreeFrom(o.sys.ks.table, 0) > SPACE_BLOCKS
    ensures OInv(Spawned(o)) && Spawned(o).sys.procs != [] && LastChunk(Spawned(o)) == NewChunk(o)
  {
    hide OInv, HT.FreeFrom, Spawned, NewChunk, TaskBlock, ViewAt, P.Identity, LooseFrame, Open;
    SpawnedAdds(o);
    SpawnedIs(o, []);
  }

  /**
    The structure as task_new leaves it. Its next link is null; only on a list whose tail names the very block
    that it got does the store through task_tail hit it.
   */
  lemma NewTaskWords(k: Kernel, ip: Word, process: Word)
    requires KInv(k) && LegalEvent(k, NewTask(ip, process))
    ensures 0 <= TaskBlock(k.o) < HEAP_BLOCKS && 0 <= NewChunk(k.o) < FRAMES
    ensures var a := AddressOf(TaskBlock(k.o));
      Structure(ApplyNew(k, ip, process).o.sys.ks.mem[a / 0x1000],
        NewChunk(k.o) * 0x1000, ip, process, if k.head != 0 && k.tail == a then a else 0, if k.head == 0 then 0 else k.tail)
  {
    hide OInv, Born, TasksOk, WordAt, SetWord, TaskBlock, NewChunk, HT.FreeFrom;
    BornIs(k, ip, process);
    BornWords(k, ip, process);
    TailFrame(k.tail, TaskBlock(k.o));
  }

  lemma BornIs(k: Kernel, ip: Word, process: Word)
    requires KInv(k) && LegalEvent(k, NewTask(ip, process))
    ensures BornOk(k, Born(k, ip, process), TaskBlock(k.o))
  {
    hide OInv, Spawned, TasksOk, LooseFrame, TaskInit, TaskPage, WordAt, LastChunk, TaskBlock, HT.FreeFrom, Blank;
    SpawnedIs(k.o, k.tasks);
    var r, b := Spawned(k.o), TaskBlock(k.o);
    var page, directory := r.sys.ks.mem[FrameOf(b)], LastChunk(r) * PAGE_SIZE;
    var prev := if k.head == 0 then 0 else k.tail;
    InitPage(page, directory, ip, process, prev);
    InitKeeps(r, k.tasks, b, TaskInit(page, directory, ip, process, prev));
  }

  lemma InitKeeps(o: Owned, tasks: seq<nat>, b: nat, page: Page)
    requires OInv(o) && TasksOk(o, tasks) && b < HEAP_BLOCKS && LooseFrame(o, FrameOf(b)) && b !in tasks && TaskPage(page)
    ensures var r := WithMem(o, o.sys.ks.mem[FrameOf(b) := page]); OInv(r) && TasksOk(r, tasks + [b])
  {
    hide OInv, TasksOk, LooseFrame, TaskPage;
    LooseIsUntabled(o, FrameOf(b));
    StoreElsewhere(o, FrameOf(b), page);
    TasksPage(o, tasks, FrameOf(b), page);
    OneTaskMore(WithMem(o, o.sys.ks.mem[FrameOf(b) := page]), tasks, b);
  }

  lemma LooseIsUntabled(o: Owned, f: nat)
    requires OInv(o) && LooseFrame(o, f)
    ensures !Tabled(o.sys, f)
  {
    hide OInv, Unheld;
    UnclaimedFits(o, f, 0);
  }

  lemma OneTaskMore(o: Owned, tasks: seq<nat>, b: nat)
    requires TasksOk(o, tasks) && TaskOk(o, b) && b !in tasks
    ensures TasksOk(o, tasks + [b])
  {
    hide TaskOk;
  }

  /** A page written outside the page tables: task structures stay, if the page is none of them or still one. */
  lemma TasksPage(o: Owned, tasks: seq<nat>, f: nat, page: Page)
    requires OInv(o) && TasksOk(o, tasks) && f < FRAMES && !Tabled(o.sys, f)
    requires forall b :: b in tasks && FrameOf(b) == f ==> TaskPage(page)
    ensures TasksOk(WithMem(o, o.sys.ks.mem[f := page]), tasks)
    ensures forall x :: LooseFrame(o, x) ==> LooseFrame(WithMem(o, o.sys.ks.mem[f := page]), x)
  {
    hide OInv, TaskPage, Claims, Tabled;
    StoreElsewhere(o, f, page);
    forall i | 0 <= i < |tasks| ensures TaskOk(WithMem(o, o.sys.ks.mem[f := page]), tasks[i]) {
      assert TaskOk(o, tasks[i]);
    }
  }

  /** A fitting store through a link leaves every task structure one. */
  lemma TasksStore(o: Owned, tasks: seq<nat>, f: nat, w: Word)
    requires OInv(o) && TasksOk(o, tasks) && f < FRAMES && Link(w) && StoreFits(o, f, w)
    ensures OInv(WithMem(o, StoreNext(o.sys.ks.mem, f, w))) && TasksOk(WithMem(o, StoreNext(o.sys.ks.mem, f, w)), tasks)
  {
    hide OInv, LooseFrame, StoreFits, WordAt, SetWord;
    StoreKeepsOwnershipExactly(o, f, w);
    var r := WithMem(o, StoreNext(o.sys.ks.mem, f, w));
    forall i | 0 <= i < |tasks| ensures TaskOk(r, tasks[i]) {
      assert TaskOk(o, tasks[i]);
      StoreKeepsLoose(o, f, w, FrameOf(tasks[i]));
    }
  }

  /** task_new */
  ghost function ApplyNew(k: Kernel, ip: Word, process: Word): Kernel
    requires KInv(k) && LegalEvent(k, NewTask(ip, process))
  {
    BornIs(k, ip, process);
    var r, b := Born(k, ip, process), TaskBlock(k.o);
    if k.head == 0 then Kernel(r, k.tasks + [b], AddressOf(b), AddressOf(b))
    else Kernel(WithMem(r, StoreNext(r.sys.ks.mem, k.tail / PAGE_SIZE, AddressOf(b))), k.tasks + [b], k.head, AddressOf(b))
  }

  /** The store through task_tail, if there is one. */
  ghost predicate LinkFits(k: Kernel, ip: Word, process: Word)
    requires KInv(k) && LegalEvent(k, NewTask(ip, process))
  {
    BornIs(k, ip, process);
    k.head != 0 ==> StoreFits(Born(k, ip, process), k.tail / PAGE_SIZE, AddressOf(TaskBlock(k.o)))
  }

  lemma NewTaskKeepsExactly(k: Kernel, ip: Word, process: Word)
    requires KInv(k) && LegalEvent(k, NewTask(ip, process))
    ensures OInv(ApplyNew(k, ip, process).o) <==> LinkFits(k, ip, process)
    ensures LinkFits(k, ip, process) ==> KInv(ApplyNew(k, ip, process))
  {
    hide OInv, Born, TasksOk, StoreFits, WordAt;
    BornIs(k, ip, process);
    var r, b := Born(k, ip, process), TaskBlock(k.o);
    if k.head != 0 {
      StoreKeepsOwnershipExactly(r, k.tail / PAGE_SIZE, AddressOf(b));
      if LinkFits(k, ip, process) { TasksStore(r, k.tasks + [b], k.tail / PAGE_SIZE, AddressOf(b)); }
    }
  }

  // ---------------------------------------------------------------- what task_new adds

  /** The chunk of the process that is made. */
  ghost function NewChunk(o: Owned): int
    requires OInv(o) && HT.FreeFrom(o.sys.ks.table, 0) > SPACE_BLOCKS
  {
    TaskRoom(o);
    SpawnAdds(ApplyPlain(o, I.KernelAlloc(TASK_SIZE)));
    NewFrame(BuiltState(ApplyPlain(o, I.KernelAlloc(TASK_SIZE)).sys.ks, P.USER_READ))
  }

  /** The block that first fit then finds for its directory. */
  ghost function DirectoryBlock(o: Owned): int
    requires OInv(o) && HT.FreeFrom(o.sys.ks.table, 0) > SPACE_BLOCKS
  {
    TaskRoom(o);
    StartBlock(MarkTaken(o.sys.ks.table, TaskBlock(o), 1), 1)
  }

  /** A new process, in an address space of its own, with nothing allocated or held. */
  ghost predicate Adds(o: Owned, r: Owned, c: int) {
    && 0 <= c < FRAMES && r.sys.procs == o.sys.procs + [Proc(c, NoAllocs())] && r.held == o.held + [[]]
    && ViewAt(r.sys.ks.mem, c) == P.Identity(P.USER_READ)
    && HT.FreeFrom(r.sys.ks.table, 0) + SPACE_BLOCKS + 1 == HT.FreeFrom(o.sys.ks.table, 0)
  }

  /** Every run that is nobody's is so afterwards. */
  ghost predicate LooseStays(o: Owned, r: Owned) {
    forall b :: b in o.sys.ks.live && I.Unclaimed(o.sys, FrameOf(b)) && Unheld(o, b) ==>
      b in r.sys.ks.live && r.sys.ks.live[b] == o.sys.ks.live[b] && I.Unclaimed(r.sys, FrameOf(b)) && Unheld(r, b)
  }

  /** The whole of that, with the block of the directory. */
  ghost predicate AddsProcess(o: Owned, r: Owned)
    requires OInv(o) && HT.FreeFrom(o.sys.ks.table, 0) > SPACE_BLOCKS
  {
    && Adds(o, r, NewChunk(o)) && LooseStays(o, r)
    && Dir(r.sys.ks.mem, NewChunk(o)) == HEAP_FRAME + DirectoryBlock(o)
  }

  lemma SpawnedAdds(o: Owned)
    requires OInv(o) && HT.FreeFrom(o.sys.ks.table, 0) > SPACE_BLOCKS
    ensures Adds(o, Spawned(o), NewChunk(o))
    ensures Dir(Spawned(o).sys.ks.mem, NewChunk(o)) == HEAP_FRAME + DirectoryBlock(o)
  {
    hide OInv, Inv, StartBlock, Refines, HT.FreeFrom, ViewAt, Dir, New4gb, BuiltState, P.Identity, I.Legal, ApplyPlain, NewFrame, Open;
    TaskRoom(o);
    var o1 := ApplyPlain(o, I.KernelAlloc(TASK_SIZE));
    AllocCounts(o);
    SpawnAdds(o1);
    NewFrameIs(o1.sys.ks);
  }

  lemma SpawnedLoose(o: Owned)
    requires OInv(o) && HT.FreeFrom(o.sys.ks.table, 0) > SPACE_BLOCKS
    ensures LooseStays(o, Spawned(o))
  {
    hide OInv, ApplyPlain, I.Unclaimed, I.Legal, Unheld, HT.FreeFrom;
    TaskRoom(o);
    var op := I.KernelAlloc(TASK_SIZE);
    forall b | b in o.sys.ks.live && I.Unclaimed(o.sys, FrameOf(b)) && Unheld(o, b)
      ensures var r := Spawned(o); b in r.sys.ks.live && r.sys.ks.live[b] == o.sys.ks.live[b] && I.Unclaimed(r.sys, FrameOf(b)) && Unheld(r, b)
    {
      LooseKept(o, op, b);
      LooseKept(ApplyPlain(o, op), I.Spawn, b);
    }
  }

  lemma AllocCounts(o: Owned)
    requires OInv(o) && Legal(o, Plain(I.KernelAlloc(TASK_SIZE))) && TaskBlock(o) >= 0
    ensures var r := ApplyPlain(o, I.KernelAlloc(TASK_SIZE));
      && r.sys.procs == o.sys.procs && r.held == o.held && r.sys.ks.table == MarkTaken(o.sys.ks.table, TaskBlock(o), 1)
      && HT.FreeFrom(r.sys.ks.table, 0) + 1 == HT.FreeFrom(o.sys.ks.table, 0)
  {
    hide OInv, Inv, StartBlock, Refines, HT.FreeFrom, ZeroFill, HeapTable.Fits, FreeRun;
    InvOf(o);
    BlocksForPage(TASK_SIZE);
    ZallocFacts(o.sys.ks, TASK_SIZE);
    FirstIsFree(o.sys.ks.table);
    TakeOneCounts(o.sys.ks.table, TaskBlock(o), 0);
  }

  /** A store outside the page tables changes neither processes nor runs. */
  lemma AddsOverStore(o: Owned, r: Owned, c: int, f: nat, page: Page)
    requires OInv(r) && Adds(o, r, c) && LooseStays(o, r) && f < FRAMES && !Tabled(r.sys, f)
    ensures var r' := WithMem(r, r.sys.ks.mem[f := page]);
      Adds(o, r', c) && LooseStays(o, r') && Dir(r'.sys.ks.mem, c) == Dir(r.sys.ks.mem, c)
  {
    hide OInv, Tabled, ViewAt, Dir, P.Identity, HT.FreeFrom, Claims, Open;
    StoreElsewhere(r, f, page);
    var n := |o.sys.procs|;
    assert r.sys.procs[n] == Proc(c, NoAllocs());
  }

  /** task_tail is a task structure, or the list is empty. */
  ghost predicate TailOk(k: Kernel) {
    k.head == 0 || exists b :: b in k.tasks && k.tail == AddressOf(b)
  }

  /** The store fits, and a process is added. */
  ghost predicate NewTaskDone(k: Kernel, ip: Word, process: Word)
    requires KInv(k) && LegalEvent(k, NewTask(ip, process))
  {
    AddsProcess(k.o, ApplyNew(k, ip, process).o) && LinkFits(k, ip, process) && KInv(ApplyNew(k, ip, process))
  }

  /** The kernel after task_new, on such a list. */
  lemma NewTaskAdds(k: Kernel, ip: Word, process: Word)
    requires KInv(k) && LegalEvent(k, NewTask(ip, process)) && TailOk(k)
    ensures NewTaskDone(k, ip, process)
  {
    hide OInv, Born, TasksOk, TaskBlock, AddsProcess, TailOk, StoreFits, HT.FreeFrom, WordAt, Link, StoreNext, Tabled;
    NewTaskKeepsExactly(k, ip, process);
    TailOnListFits(k, ip, process);
    BornIs(k, ip, process);
    BornAdds(k, ip, process);
    if k.head != 0 {
      TailUntabled(k, Born(k, ip, process), TaskBlock(k.o));
      StoreAdds(k.o, Born(k, ip, process), k.tail / PAGE_SIZE, AddressOf(TaskBlock(k.o)));
    }
  }

  lemma StoreAdds(o: Owned, r: Owned, f: nat, w: Word)
    requires OInv(o) && HT.FreeFrom(o.sys.ks.table, 0) > SPACE_BLOCKS && OInv(r) && AddsProcess(o, r) && f < FRAMES && !Tabled(r.sys, f)
    ensures AddsProcess(o, WithMem(r, StoreNext(r.sys.ks.mem, f, w)))
  {
    hide OInv, NewChunk, DirectoryBlock, Adds, LooseStays, Dir, HT.FreeFrom, Tabled, SetWord;
    AddsOverStore(o, r, NewChunk(o), f, SetWord(r.sys.ks.mem[f], NEXT, w));
  }

  lemma TailUntabled(k: Kernel, r: Owned, b: nat)
    requires OInv(r) && TasksOk(r, k.tasks + [b]) && TailOk(k) && k.head != 0
    ensures k.tail / PAGE_SIZE < FRAMES && !Tabled(r.sys, k.tail / PAGE_SIZE)
  {
    hide OInv, TaskPage, Tabled, I.Unclaimed;
    var d :| d in k.tasks && k.tail == AddressOf(d);
    assert d in k.tasks + [b];
    assert TaskOk(r, d);
    UnclaimedFits(r, FrameOf(d), 0);
  }

  lemma BornAdds(k: Kernel, ip: Word, process: Word)
    requires KInv(k) && LegalEvent(k, NewTask(ip, process))
    ensures AddsProcess(k.o, Born(k, ip, process))
  {
    hide OInv, TasksOk, NewChunk, DirectoryBlock, Adds, LooseStays, Dir, StartBlock, HT.FreeFrom, WordAt, TaskInit, Spawned, LooseFrame, LastChunk, TaskBlock, TaskPage, Tabled, MarkTaken;
    SpawnedIs(k.o, k.tasks);
    SpawnedAdds(k.o);
    SpawnedLoose(k.o);
    var r, f := Spawned(k.o), FrameOf(TaskBlock(k.o));
    LooseIsUntabled(r, f);
    AddsOverStore(k.o, r, NewChunk(k.o), f,
                  TaskInit(r.sys.ks.mem[f], LastChunk(r) * PAGE_SIZE, ip, process, if k.head == 0 then 0 else k.tail));
  }

  /** The pages of the task structures are what they were while the new one is made. */
  lemma BornPages(k: Kernel, ip: Word, process: Word, x: nat)
    requires KInv(k) && LegalEvent(k, NewTask(ip, process)) && x in k.tasks
    ensures x < HEAP_BLOCKS && Born(k, ip, process).sys.ks.mem[FrameOf(x)] == k.o.sys.ks.mem[FrameOf(x)]
  {
    hide OInv, ApplyPlain, I.Unclaimed, I.Legal, HT.FreeFrom, TaskPage, TaskInit, LastChunk, WordAt, TaskBlock, LooseFrame;
    SpawnedIs(k.o, k.tasks);
    TaskRoom(k.o);
    var op := I.KernelAlloc(TASK_SIZE);
    var o1 := ApplyPlain(k.o, op);
    var i :| 0 <= i < |k.tasks| && k.tasks[i] == x;
    assert TaskOk(k.o, k.tasks[i]);
    LooseFrameKept(k.o, op, FrameOf(x));
    LooseFrameKept(o1, I.Spawn, FrameOf(x));
  }

  /** The links after task_new: the old tail names the new task, and that names the old tail. */
  lemma NewTaskLinks(k: Kernel, ip: Word, process: Word, i: nat)
    requires KInv(k) && LegalEvent(k, NewTask(ip, process)) && KInv(ApplyNew(k, ip, process)) && i <= |k.tasks|
    ensures var r, b := ApplyNew(k, ip, process), TaskBlock(k.o);
      && 0 <= b < HEAP_BLOCKS && r.tasks == k.tasks + [b]
      && (i < |k.tasks| ==> PrevOf(r, i) == PrevOf(k, i) && (k.head == 0 ==> NextOf(r, i) == NextOf(k, i)))
      && (i < |k.tasks| && k.head != 0 ==> NextOf(r, i) == if k.tail == AddressOf(k.tasks[i]) then AddressOf(b) else NextOf(k, i))
      && (i == |k.tasks| ==> PrevOf(r, i) == if k.head == 0 then 0 else k.tail)
  {
    hide OInv, Born, TasksOk, LooseFrame, WordAt, SetWord, TaskBlock, HT.FreeFrom;
    BornIs(k, ip, process);
    if i < |k.tasks| {
      assert k.tasks[i] in k.tasks;
      BornPages(k, ip, process, k.tasks[i]);
      TailFrame(k.tail, k.tasks[i]);
    }
  }

  lemma TailFrame(w: Word, b: nat)
    requires Link(w) && b < HEAP_BLOCKS
    ensures w / PAGE_SIZE == FrameOf(b) <==> w == AddressOf(b)
  {
  }

  // ---------------------------------------------------------------- process_terminate

  /** task->next and task->prev as they are in memory. */
  ghost function NextOf(k: Kernel, i: nat): (w: Word)
    requires KInv(k) && i < |k.tasks|
    ensures Link(w)
  {
    hide OInv, LooseFrame, WordAt;
    assert TaskOk(k.o, k.tasks[i]);
    WordAt(k.o.sys.ks.mem[FrameOf(k.tasks[i])], 14)
  }

  ghost function PrevOf(k: Kernel, i: nat): (w: Word)
    requires KInv(k) && i < |k.tasks|
    ensures Link(w)
  {
    hide OInv, LooseFrame, WordAt;
    assert TaskOk(k.o, k.tasks[i]);
    WordAt(k.o.sys.ks.mem[FrameOf(k.tasks[i])], 15)
  }

  /** process_terminate up to the store of task_list_remove, and that store: task->prev->next = task->next. */
  ghost function Unlinked(k: Kernel, i: nat): Owned
    requires KInv(k) && i < |k.tasks|
  {
    var r := ApplyExit(k.o, i);
    if PrevOf(k, i) == 0 then r else WithMem(r, StoreNext(r.sys.ks.mem, PrevOf(k, i) / PAGE_SIZE, NextOf(k, i)))
  }

  /** kfree of a block. */
  ghost function WithoutRun(o: Owned, b: nat): Owned {
    Owned(System(Release(o.sys.ks, b), o.sys.procs), o.held)
  }

  /** process_terminate */
  ghost function ApplyTerminate(k: Kernel, i: nat): Kernel
    requires KInv(k) && i < |k.tasks|
  {
    var a := AddressOf(k.tasks[i]);
    Kernel(WithoutRun(Unlinked(k, i), k.tasks[i]), Drop(k.tasks, i),
           if k.head == a then NextOf(k, i) else k.head, if k.tail == a then PrevOf(k, i) else k.tail)
  }

  /** The store of task_list_remove, if there is one, by what the other processes have before the call. */
  ghost predicate UnlinkFits(k: Kernel, i: nat)
    requires KInv(k) && i < |k.tasks|
  {
    PrevOf(k, i) != 0 ==> OthersTake(k.o, i, PrevOf(k, i) / PAGE_SIZE, NextOf(k, i))
  }

  /** The end of process i changes nothing that the condition looks at. */
  lemma TakesAfterExit(o: Owned, i: nat, l: nat, f: nat, w: Word)
    requires OInv(o) && i < |o.sys.procs| && l < |o.sys.procs| && l != i
    ensures var r, j := ApplyExit(o, i), if l < i then l else l - 1;
      j < |r.sys.procs| && (SpaceTakes(r, j, f, w) <==> SpaceTakes(o, l, f, w))
  {
    hide OInv, ApplyExit, Minus, Claims, Footprint, LooseFrame, EntryAllowed, P.Table, WordAt, Open;
    ExitGivesBack(o, i);
    ExitKeepsClaims(o, i, l);
    var r, c, x := ApplyExit(o, i), o.sys.procs[l].chunk, w / PAGE_SIZE;
    SameTables(o.sys.ks.mem, r.sys.ks.mem, c);
    LooseAfterExit(o, i, x);
  }

  lemma SameTables(m: Ram, r: Ram, c: nat)
    requires c < FRAMES && forall g :: g in Footprint(m, c) ==> g < FRAMES && r[g] == m[g]
    ensures Dir(r, c) == Dir(m, c) && forall t: nat :: t < ENTRIES ==> P.Table(r, Dir(m, c), t) == P.Table(m, Dir(m, c), t)
  {
    hide WordAt;
    FrameIn(m, c, 0);
  }

  /** Frames of nobody's before are so afterwards, and what was somebody's is not such a frame later: it stays claimed or dies. */
  lemma LooseAfterExit(o: Owned, i: nat, x: nat)
    requires OInv(o) && i < |o.sys.procs| && x < FRAMES
    ensures LooseFrame(ApplyExit(o, i), x) <==> LooseFrame(o, x)
    ensures LooseFrame(o, x) ==> ApplyExit(o, i).sys.ks.mem[x] == o.sys.ks.mem[x]
  {
    hide OInv, Inv, ApplyExit, Claims;
    ExitGivesBack(o, i);
    if LooseFrame(o, x) { ExitKeepsLoose(o, i, x - HEAP_FRAME); }
    if LooseFrame(ApplyExit(o, i), x) { LooseBefore(o, i, x); }
  }

  lemma LooseBefore(o: Owned, i: nat, x: nat)
    requires OInv(o) && i < |o.sys.procs| && x < FRAMES && LooseFrame(ApplyExit(o, i), x)
    ensures LooseFrame(o, x)
  {
    hide OInv, Inv, ApplyExit, Claims;
    ExitGivesBack(o, i);
    var r, b := ApplyExit(o, i), x - HEAP_FRAME;
    assert FrameOf(b) == x;
    forall l | 0 <= l < |o.sys.procs| ensures o.sys.procs[l].chunk < FRAMES && x !in Claims(o.sys.ks.mem, o.sys.procs[l]) {
      if l != i {
        ExitKeepsClaims(o, i, l);
        assert r.sys.procs[if l < i then l else l - 1] == o.sys.procs[l];
      }
    }
    forall l | 0 <= l < |o.held| ensures b !in o.held[l] {
      if l != i { assert r.held[if l < i then l else l - 1] == o.held[l]; }
    }
  }

  /** The others take the store. */
  ghost predicate OthersTake(o: Owned, i: nat, f: nat, w: Word) {
    forall j :: 0 <= j < |o.sys.procs| && j != i ==> SpaceTakes(o, j, f, w)
  }

  lemma FitsBefore(o: Owned, i: nat, f: nat, w: Word)
    requires OInv(o) && i < |o.sys.procs|
    ensures StoreFits(ApplyExit(o, i), f, w) <==> OthersTake(o, i, f, w)
  {
    hide OInv, ApplyExit, SpaceTakes;
    var r := ApplyExit(o, i);
    ExitCount(o, i);
    if OthersTake(o, i, f, w) {
      forall j | 0 <= j < |r.sys.procs| ensures SpaceTakes(r, j, f, w) {
        var l := if j < i then j else j + 1;
        TakesAfterExit(o, i, l, f, w);
        assert SpaceTakes(o, l, f, w);
      }
    }
    if StoreFits(r, f, w) {
      forall l | 0 <= l < |o.sys.procs| && l != i ensures SpaceTakes(o, l, f, w) {
        TakesAfterExit(o, i, l, f, w);
        assert SpaceTakes(r, if l < i then l else l - 1, f, w);
      }
    }
  }

  lemma ExitCount(o: Owned, i: nat)
    requires OInv(o) && i < |o.sys.procs|
    ensures |ApplyExit(o, i).sys.procs| + 1 == |o.sys.procs|
  {
    hide OInv, ApplyExit, Minus, Claims;
    ExitGivesBack(o, i);
  }

  lemma ExitKeepsTasks(o: Owned, i: nat, tasks: seq<nat>)
    requires OInv(o) && i < |o.sys.procs| && TasksOk(o, tasks)
    ensures OInv(ApplyExit(o, i)) && |ApplyExit(o, i).sys.procs| + 1 == |o.sys.procs| && TasksOk(ApplyExit(o, i), tasks)
  {
    hide OInv, ApplyExit, TaskPage, Minus, Claims, I.Unclaimed;
    ExitGivesBack(o, i);
    forall j | 0 <= j < |tasks| ensures TaskOk(ApplyExit(o, i), tasks[j]) {
      assert TaskOk(o, tasks[j]);
      ExitKeepsLoose(o, i, tasks[j]);
    }
  }

  /** kfree of a task structure keeps ownership, and does not bring it back. */
  lemma FreedExactly(o: Owned, b: nat)
    requires Ok(o.sys.ks) && b in o.sys.ks.live
    requires OInv(o) ==> I.Unclaimed(o.sys, FrameOf(b)) && Unheld(o, b)
    ensures OInv(WithoutRun(o, b)) <==> OInv(o)
  {
    hide OInv, Inv, I.Unclaimed, Unheld, Refines, FreeAt;
    if OInv(o) {
      InvOf(o);
      QuietStepKeepsOInv(o, I.KernelFree(b));
    }
    if OInv(WithoutRun(o, b)) { OneRunMore(WithoutRun(o, b), o, b); }
  }

  /** The same with one run more is owned as well. */
  lemma OneRunMore(o: Owned, r: Owned, b: nat)
    requires OInv(o) && Ok(r.sys.ks) && r.sys.procs == o.sys.procs && r.held == o.held && r.sys.ks.mem == o.sys.ks.mem
    requires o.sys.ks.live == r.sys.ks.live - {b}
    ensures OInv(r)
  {
    hide Inv, Refines, ProcOk, Claims, HeldOk, WritesOk;
    InvOf(o);
    forall j | 0 <= j < |r.sys.procs| ensures r.sys.procs[j].chunk < FRAMES && ProcOk(r.sys.ks, r.sys.procs[j]) {
      I.InvParts(o.sys, j);
      MoreLiveProc(o.sys.ks, r.sys.ks, r.sys.procs[j]);
    }
    MoreLiveInv(o.sys, r.sys);
    forall j | 0 <= j < |r.held| ensures HeldOk(r.sys, r.held[j]) && WritesOk(r.sys, j, r.held[j]) {
      Parts(o, j);
      MoreLiveHeld(o.sys, r.sys, j, r.held[j]);
    }
  }

  lemma MoreLiveProc(ks: KState, ks': KState, p: Proc)
    requires ProcOk(ks, p) && ks'.mem == ks.mem && forall b :: b in ks.live ==> b in ks'.live && ks'.live[b] == ks.live[b]
    ensures ProcOk(ks', p)
  {
    hide Footprint, ViewAt, SpaceAt, WindowOk, Open;
  }

  lemma MoreLiveInv(sys: System, sys': System)
    requires Inv(sys) && sys'.procs == sys.procs && sys'.ks.mem == sys.ks.mem && Ok(sys'.ks)
    requires forall j :: 0 <= j < |sys.procs| ==> sys.procs[j].chunk < FRAMES && ProcOk(sys'.ks, sys.procs[j])
    ensures Inv(sys')
  {
    hide ProcOk, Claims, Refines;
  }

  lemma MoreLiveHeld(sys: System, sys': System, j: nat, blocks: seq<nat>)
    requires j < |sys.procs| && sys'.procs == sys.procs && sys'.ks.mem == sys.ks.mem && HeldOk(sys, blocks) && WritesOk(sys, j, blocks)
    requires forall b :: b in sys.ks.live ==> b in sys'.ks.live && sys'.ks.live[b] == sys.ks.live[b]
    ensures HeldOk(sys', blocks) && WritesOk(sys', j, blocks)
  {
    hide ViewAt, InHeld, Claims, P.IsWriteable, P.Frame, Open;
    var c := sys.procs[j].chunk;
    forall v: nat | OutsideWindow(v) && P.IsWriteable(ViewAt(sys.ks.mem, c)[v])
      ensures InHeld(sys'.ks.live, blocks, P.Frame(ViewAt(sys.ks.mem, c)[v]))
    {
      InHeldStays(sys.ks.live, sys'.ks.live, blocks, P.Frame(ViewAt(sys.ks.mem, c)[v]));
    }
  }

  /** The kernel between the store and the release of the task structure. */
  lemma UnlinkedIs(k: Kernel, i: nat)
    requires KInv(k) && i < |k.tasks|
    ensures var r := Unlinked(k, i);
      && Ok(r.sys.ks) && k.tasks[i] in r.sys.ks.live && (OInv(r) <==> UnlinkFits(k, i))
      && (OInv(r) ==> TasksOk(r, k.tasks) && |r.sys.procs| + 1 == |k.tasks|)
  {
    hide OInv, ApplyExit, LooseFrame, StoreFits, OthersTake, TaskPage, PrevOf, NextOf;
    var r := ApplyExit(k.o, i);
    ExitKeepsTasks(k.o, i, k.tasks);
    InvOf(r);
    SystemOk(r.sys);
    TaskIsLive(r, k.tasks, i);
    if PrevOf(k, i) == 0 {
      NullPrevFits(k, i);
    } else {
      FitsBefore(k.o, i, PrevOf(k, i) / PAGE_SIZE, NextOf(k, i));
      StoreKeepsOwnershipExactly(r, PrevOf(k, i) / PAGE_SIZE, NextOf(k, i));
      if UnlinkFits(k, i) { TasksStore(r, k.tasks, PrevOf(k, i) / PAGE_SIZE, NextOf(k, i)); }
    }
  }

  lemma NullPrevFits(k: Kernel, i: nat)
    requires KInv(k) && i < |k.tasks| && PrevOf(k, i) == 0
    ensures UnlinkFits(k, i)
  {
    hide OInv, PrevOf;
  }

  lemma TaskIsLive(o: Owned, tasks: seq<nat>, i: nat)
    requires TasksOk(o, tasks) && i < |tasks|
    ensures tasks[i] in o.sys.ks.live && I.Unclaimed(o.sys, FrameOf(tasks[i])) && Unheld(o, tasks[i])
  {
    hide TaskPage, I.Unclaimed, Unheld;
    assert TaskOk(o, tasks[i]) && FrameOf(tasks[i]) - HEAP_FRAME == tasks[i];
  }

  lemma TerminateKeepsExactly(k: Kernel, i: nat)
    requires KInv(k) && i < |k.tasks|
    ensures OInv(ApplyTerminate(k, i).o) <==> UnlinkFits(k, i)
    ensures UnlinkFits(k, i) ==> KInv(ApplyTerminate(k, i))
  {
    hide OInv, Unlinked, LooseFrame, TaskPage, UnlinkFits, PrevOf, NextOf, Refines, WithoutRun, TasksOk;
    UnlinkedIs(k, i);
    var r, b := Unlinked(k, i), k.tasks[i];
    if OInv(r) { TaskIsLive(r, k.tasks, i); }
    FreedExactly(r, b);
    if UnlinkFits(k, i) { FreedTasks(r, k.tasks, i); }
  }

  lemma FreedTasks(o: Owned, tasks: seq<nat>, i: nat)
    requires OInv(o) && TasksOk(o, tasks) && i < |tasks|
    ensures TasksOk(WithoutRun(o, tasks[i]), Drop(tasks, i)) && WithoutRun(o, tasks[i]).sys.procs == o.sys.procs
  {
    hide OInv, TaskPage, FreeAt, Claims;
    var r, rest := WithoutRun(o, tasks[i]), Drop(tasks, i);
    forall j | 0 <= j < |rest| ensures TaskOk(r, rest[j]) {
      var l := if j < i then j else j + 1;
      assert TaskOk(o, tasks[l]) && tasks[l] != tasks[i];
    }
  }

  /** The other task structures keep their links; the one that the prev link names gets the next link. */
  lemma TerminateLinks(k: Kernel, i: nat, j: nat)
    requires KInv(k) && i < |k.tasks| && j < |k.tasks| && j != i && KInv(ApplyTerminate(k, i))
    ensures var r, l := ApplyTerminate(k, i), if j < i then j else j - 1;
      && r.tasks[l] == k.tasks[j] && PrevOf(r, l) == PrevOf(k, j)
      && NextOf(r, l) == if PrevOf(k, i) == AddressOf(k.tasks[j]) then NextOf(k, i) else NextOf(k, j)
  {
    hide OInv, ApplyExit, TaskPage, WordAt, SetWord, I.Unclaimed, FreeAt;
    assert TaskOk(k.o, k.tasks[j]) && FrameOf(k.tasks[j]) - HEAP_FRAME == k.tasks[j];
    InvOf(k.o);
    ExitKeepsLoose(k.o, i, k.tasks[j]);
    TailFrame(PrevOf(k, i), k.tasks[j]);
    if PrevOf(k, i) != 0 {
      WordOfStore(k.o.sys.ks.mem[FrameOf(k.tasks[j])], NextOf(k, i), 14);
      WordOfStore(k.o.sys.ks.mem[FrameOf(k.tasks[j])], NextOf(k, i), 15);
    }
  }

  // ---------------------------------------------------------------- stores

  ghost function ApplyStore(k: Kernel, f: nat, page: Page): Kernel
    requires f < FRAMES
  {
    k.(o := WithMem(k.o, k.o.sys.ks.mem[f := page]))
  }

  /** What user code can write to is no page table and no task structure. */
  lemma UserFrameIsFree(k: Kernel, i: nat, v: nat)
    requires KInv(k) && UserMayWrite(k.o, i, v)
    ensures !Tabled(k.o.sys, UserFrame(k.o, i, v)) && forall b :: b in k.tasks ==> FrameOf(b) != UserFrame(k.o, i, v)
  {
    hide OInv, Belongs, TaskOk, Footprint, ViewAt, P.IsWriteable, P.IsPresent, P.IsUser, Claims, Open;
    var g := UserFrame(k.o, i, v);
    WritableBelongs(k.o, i, v);
    if Tabled(k.o.sys, g) {
      var j :| 0 <= j < |k.o.sys.procs| && k.o.sys.procs[j].chunk < FRAMES && g in Footprint(k.o.sys.ks.mem, k.o.sys.procs[j].chunk);
      BelongsIsNoTable(k.o, i, j, g);
    }
    forall b | b in k.tasks ensures FrameOf(b) != g {
      if FrameOf(b) == g { BelongsIsNoTask(k.o, i, g, b); }
    }
  }

  lemma BelongsIsNoTask(o: Owned, i: nat, g: nat, b: nat)
    requires OInv(o) && Belongs(o, i, g) && TaskOk(o, b)
    ensures FrameOf(b) != g
  {
    hide OInv, Inv, Belongs, TaskPage, Refines, Footprint, OwnedFrames, Open;
    if FrameOf(b) == g {
      BelongsIndex(o, i, g);
      var c := RunOf(o, i, g);
      InvOf(o);
      SystemOk(o.sys);
      LiveCoversItself(o.sys.ks, b);
      RunsDisjoint(o.sys.ks.table, o.sys.ks.live, b, c, b);
    }
  }

  lemma StoreKeeps(k: Kernel, f: nat, page: Page)
    requires KInv(k) && f < FRAMES && !Tabled(k.o.sys, f) && forall b :: b in k.tasks && FrameOf(b) == f ==> TaskPage(page)
    ensures KInv(ApplyStore(k, f, page))
  {
    hide OInv, TasksOk, TaskPage, Tabled;
    StoreElsewhere(k.o, f, page);
    TasksPage(k.o, k.tasks, f, page);
  }

  // ---------------------------------------------------------------- the other steps

  lemma DoKeepsExactly(k: Kernel, act: Act)
    requires KInv(k) && LegalEvent(k, Do(act))
    ensures OInv(ApplyAct(k.o, act)) <==> ActFits(k.o, act)
    ensures ActFits(k.o, act) ==> KInv(k.(o := ApplyAct(k.o, act)))
  {
    hide OInv, TasksOk, ActFits, I.Legal, Mappable, I.Unclaimed, Unheld, ApplyPlain, ApplyMap, I.Apply;
    ActKeepsOwnershipExactly(k.o, act);
    if ActFits(k.o, act) {
      InvOf(k.o);
      InvOf(ApplyAct(k.o, act));
      match act
      case Plain(op) =>
        TasksKept(k.o, op, k.tasks);
        PlainCount(k.o, op);
      case Give(i, b) => TasksGiven(k.o, k.tasks, i, b);
      case MapMemory(i, image, stack) => TasksMapped(k.o, k.tasks, i, image, stack);
    }
  }

  lemma PlainCount(o: Owned, op: I.Op)
    requires OInv(o) && Legal(o, Plain(op)) && !op.Spawn?
    ensures |ApplyPlain(o, op).sys.procs| == |o.sys.procs|
  {
    hide OInv, Inv, I.Apply, I.Legal;
    InvOf(o);
    SameCount(o.sys, op);
  }

  lemma TasksGiven(o: Owned, tasks: seq<nat>, i: nat, b: nat)
    requires TasksOk(o, tasks) && i < |o.held| && b !in tasks
    ensures TasksOk(ApplyGive(o, i, b), tasks)
  {
    hide TaskPage, I.Unclaimed;
    forall j | 0 <= j < |tasks| ensures TaskOk(ApplyGive(o, i, b), tasks[j]) {
      assert TaskOk(o, tasks[j]);
    }
  }

  lemma TasksMapped(o: Owned, tasks: seq<nat>, i: nat, image: Image, stack: nat)
    requires OInv(o) && TasksOk(o, tasks) && Mappable(o, i, image, stack)
    ensures TasksOk(ApplyMap(o, i, image, stack), tasks) && ApplyMap(o, i, image, stack).sys.procs == o.sys.procs
  {
    hide OInv, TaskPage, MapImageMem, MapImage, ViewAt, SpaceAt, ImageOk, Claims, Open;
    var c, m := o.sys.procs[i].chunk, o.sys.ks.mem;
    Parts(o, i);
    ProcSpace(o.sys.ks, o.sys.procs[i]);
    MapImageRemaps(m, c, image, stack);
    var r := ApplyMap(o, i, image, stack);
    forall j | 0 <= j < |tasks| ensures TaskOk(r, tasks[j]) {
      assert TaskOk(o, tasks[j]);
      NotMine(o, i, FrameOf(tasks[j]));
      RemappedUnclaimed(o, i, r.sys.ks.mem, MapImage(ViewAt(m, c), image, stack), FrameOf(tasks[j]));
    }
  }

  lemma RemappedUnclaimed(o: Owned, i: nat, m: Ram, view: P.View, f: nat)
    requires OInv(o) && i < |o.sys.procs| && o.sys.procs[i].chunk < FRAMES && Remapped(o.sys.ks.mem, m, o.sys.procs[i].chunk, view)
    requires I.Unclaimed(o.sys, f)
    ensures I.Unclaimed(WithMem(o, m).sys, f)
  {
    hide OInv, Inv, SpaceAt, ViewAt, ProcOk, OwnedFrames, HeldOk, WritesOk;
    forall l | 0 <= l < |o.sys.procs| ensures o.sys.procs[l].chunk < FRAMES && f !in Claims(m, o.sys.procs[l]) {
      Parts(o, l);
      if l == i { Parts(o, i); RemapProc(o.sys.ks, o.sys.procs[i], m, view); } else { RemappedOther(o, i, l, m, view); }
    }
  }

  lemma RemappedOther(o: Owned, i: nat, l: nat, m: Ram, view: P.View)
    requires OInv(o) && i < |o.sys.procs| && l < |o.sys.procs| && l != i
    requires o.sys.procs[i].chunk < FRAMES && o.sys.procs[l].chunk < FRAMES && Remapped(o.sys.ks.mem, m, o.sys.procs[i].chunk, view)
    ensures Claims(m, o.sys.procs[l]) == Claims(o.sys.ks.mem, o.sys.procs[l])
  {
    hide OInv, Inv, SpaceAt, ViewAt, ProcOk, OwnedFrames, HeldOk, WritesOk, Footprint;
    Parts(o, l);
    ProcSpace(o.sys.ks, o.sys.procs[l]);
    I.ClaimsDisjoint(o.sys, i, l);
    InClaims(o.sys.ks.mem, o.sys.procs[i]);
    InClaims(o.sys.ks.mem, o.sys.procs[l]);
    SpaceFrame(o.sys.ks.mem, m, o.sys.procs[l].chunk);
  }

  // ---------------------------------------------------------------- runs

  ghost function Apply(k: Kernel, e: Event): Kernel
    requires KInv(k) && LegalEvent(k, e)
  {
    match e
    case Do(act) => k.(o := ApplyAct(k.o, act))
    case NewTask(ip, process) => ApplyNew(k, ip, process)
    case Terminate(i) => ApplyTerminate(k, i)
    case UserStore(i, v, page) => ApplyStore(k, UserFrame(k.o, i, v), page)
    case KernelStore(f, page) => ApplyStore(k, f, page)
  }

  /** What can go wrong: the mapping of an image, and a store through a link of the task list. */
  ghost predicate EventFits(k: Kernel, e: Event)
    requires KInv(k) && LegalEvent(k, e)
  {
    match e
    case Do(act) => ActFits(k.o, act)
    case NewTask(ip, process) => LinkFits(k, ip, process)
    case Terminate(i) => UnlinkFits(k, i)
    case UserStore(i, v, page) => true
    case KernelStore(f, page) => true
  }

  lemma StepKeepsOwnershipExactly(k: Kernel, e: Event)
    requires KInv(k) && LegalEvent(k, e)
    ensures OInv(Apply(k, e).o) <==> EventFits(k, e)
    ensures EventFits(k, e) ==> KInv(Apply(k, e))
  {
    hide KInv, OInv, ApplyAct, ApplyNew, ApplyTerminate, ActFits, LinkFits, UnlinkFits, Legal, SparesTasks, UserMayWrite, UserFrame, Tabled, ApplyStore, TaskPage;
    match e
    case Do(act) => DoKeepsExactly(k, act);
    case NewTask(ip, process) => NewTaskKeepsExactly(k, ip, process);
    case Terminate(i) => TerminateKeepsExactly(k, i);
    case UserStore(i, v, page) =>
      UserFrameIsFree(k, i, v);
      StoreKeeps(k, UserFrame(k.o, i, v), page);
      OwnedNow(ApplyStore(k, UserFrame(k.o, i, v), page));
    case KernelStore(f, page) =>
      StoreKeeps(k, f, page);
      OwnedNow(ApplyStore(k, f, page));
  }

  lemma OwnedNow(k: Kernel)
    requires KInv(k)
    ensures OInv(k.o)
  {
    hide OInv;
  }

  ghost predicate Run(states: seq<Kernel>, events: seq<Event>) {
    |states| == |events| + 1 && forall n :: 0 <= n < |events| ==> StepOf(states[n], events[n], states[n + 1])
  }

  ghost predicate StepOf(k: Kernel, e: Event, k': Kernel) {
    KInv(k) ==> LegalEvent(k, e) && k' == Apply(k, e)
  }

  /** A step that is taken and fits. */
  ghost predicate StepFits(k: Kernel, e: Event) {
    KInv(k) && LegalEvent(k, e) && EventFits(k, e)
  }

  lemma NoTasksYet(ks: KState)
    requires Ok(ks)
    ensures KInv(Kernel(Owned(System(ks, []), []), [], 0, 0))
  {
    hide OInv, Refines;
    NoProcessesYet(ks);
  }

  /**
    Every run, with processes coming and going, their task structures linked through memory, and user code
    storing where it may: ownership of frames holds after every step if and only if every step fits.
   */
  lemma EveryRunKeepsOwnershipExactly(states: seq<Kernel>, events: seq<Event>)
    requires Run(states, events) && KInv(states[0])
    ensures (forall n :: 0 <= n < |states| ==> OInv(states[n].o)) <==> (forall n :: 0 <= n < |events| ==> StepFits(states[n], events[n]))
  {
    hide OInv, KInv, StepFits, StepOf;
    if forall n :: 0 <= n < |events| ==> StepFits(states[n], events[n]) {
      forall n | 0 <= n < |states| ensures OInv(states[n].o) {
        FittingRun(states, events, n);
        OwnedNow(states[n]);
      }
    }
    if forall n :: 0 <= n < |states| ==> OInv(states[n].o) {
      forall n | 0 <= n < |events| ensures StepFits(states[n], events[n]) {
        OwnedRun(states, events, n);
        StepExactly(states[n], events[n], states[n + 1]);
      }
    }
  }

  lemma StepExactly(k: Kernel, e: Event, k': Kernel)
    requires KInv(k) && StepOf(k, e, k')
    ensures OInv(k'.o) <==> StepFits(k, e)
    ensures StepFits(k, e) ==> KInv(k')
  {
    hide KInv, OInv, Apply, LegalEvent, EventFits;
    StepKeepsOwnershipExactly(k, e);
  }

  lemma {:induction false} FittingRun(states: seq<Kernel>, events: seq<Event>, n: nat)
    requires Run(states, events) && KInv(states[0]) && n <= |events|
    requires forall i :: 0 <= i < |events| ==> StepFits(states[i], events[i])
    ensures KInv(states[n])
  {
    hide KInv, StepOf, StepFits;
    if n > 0 {
      FittingRun(states, events, n - 1);
      assert StepOf(states[n - 1], events[n - 1], states[n]);
      StepExactly(states[n - 1], events[n - 1], states[n]);
    }
  }

  lemma {:induction false} OwnedRun(states: seq<Kernel>, events: seq<Event>, n: nat)
    requires Run(states, events) && KInv(states[0]) && n <= |events| && forall i :: 0 <= i < |states| ==> OInv(states[i].o)
    ensures KInv(states[n]) && (n < |events| ==> StepOf(states[n], events[n], states[n + 1]))
  {
    hide KInv, OInv, StepOf, StepFits;
    if n > 0 {
      OwnedRun(states, events, n - 1);
      StepExactly(states[n - 1], events[n - 1], states[n]);
    }
  }

  // ---------------------------------------------------------------- task structures over runs

  /** All words of a task structure but the next link are the same. */
  ghost predicate SameStructure(page: Page, page': Page) {
    forall i: nat :: i < 16 && i != 14 ==> WordAt(page', i) == WordAt(page, i)
  }

  /** The step does not end the process of this task, and is no store of the kernel to its frame. */
  ghost predicate Spares(k: Kernel, e: Event, b: nat) {
    && (e.Terminate? ==> e.pid < |k.tasks| && k.tasks[e.pid] != b)
    && (e.KernelStore? ==> e.f != FrameOf(b))
  }

  /** Chunk, registers, process and prev link of a task survive every such step. */
  lemma StepKeepsStructure(k: Kernel, e: Event, b: nat)
    requires StepFits(k, e) && b in k.tasks && Spares(k, e, b)
    ensures b < HEAP_BLOCKS && b in Apply(k, e).tasks
    ensures SameStructure(k.o.sys.ks.mem[FrameOf(b)], Apply(k, e).o.sys.ks.mem[FrameOf(b)])
  {
    hide OInv, TasksOk, WordAt, SetWord, ApplyAct, ApplyNew, ApplyTerminate, ActFits, LinkFits, UnlinkFits, UserMayWrite, UserFrame, Tabled, TaskPage, Legal;
    TaskInHeap(k, b);
    match e
    case Do(act) => ActKeepsPage(k, act, b);
    case NewTask(ip, process) => NewTaskKeepsPage(k, ip, process, b);
    case Terminate(i) => TerminateKeepsPage(k, i, b);
    case UserStore(i, v, page) => UserFrameIsFree(k, i, v);
    case KernelStore(f, page) =>
  }

  lemma TaskInHeap(k: Kernel, b: nat)
    requires KInv(k) && b in k.tasks
    ensures b < HEAP_BLOCKS && TaskOk(k.o, b)
  {
    hide OInv, TaskPage, LooseFrame;
  }

  lemma ActKeepsPage(k: Kernel, act: Act, b: nat)
    requires KInv(k) && LegalEvent(k, Do(act)) && b in k.tasks && b < HEAP_BLOCKS
    ensures ApplyAct(k.o, act).sys.ks.mem[FrameOf(b)] == k.o.sys.ks.mem[FrameOf(b)]
  {
    hide OInv, TasksOk, TaskPage, I.Legal, Mappable, I.Unclaimed, Unheld, ApplyPlain, MapImageMem, MapImage, ViewAt, SpaceAt, ImageOk, Open;
    TaskInHeap(k, b);
    match act
    case Plain(op) => LooseFrameKept(k.o, op, FrameOf(b));
    case Give(i, c) =>
    case MapMemory(i, image, stack) => MapKeepsPage(k.o, i, image, stack, FrameOf(b));
  }

  lemma MapKeepsPage(o: Owned, i: nat, image: Image, stack: nat, x: nat)
    requires OInv(o) && Mappable(o, i, image, stack) && LooseFrame(o, x) && x < FRAMES
    ensures ApplyMap(o, i, image, stack).sys.ks.mem[x] == o.sys.ks.mem[x]
  {
    hide OInv, MapImageMem, MapImage, ViewAt, SpaceAt, ImageOk, Claims, ProcOk, Footprint, LooseFrame, HeldOk, WritesOk;
    Parts(o, i);
    ProcSpace(o.sys.ks, o.sys.procs[i]);
    MapImageRemaps(o.sys.ks.mem, o.sys.procs[i].chunk, image, stack);
    NotMine(o, i, x);
  }

  lemma NewTaskKeepsPage(k: Kernel, ip: Word, process: Word, b: nat)
    requires KInv(k) && LegalEvent(k, NewTask(ip, process)) && b in k.tasks && b < HEAP_BLOCKS
    ensures b in ApplyNew(k, ip, process).tasks
    ensures SameStructure(k.o.sys.ks.mem[FrameOf(b)], ApplyNew(k, ip, process).o.sys.ks.mem[FrameOf(b)])
  {
    hide OInv, Born, TasksOk, WordAt, SetWord, TaskBlock, HT.FreeFrom;
    BornIs(k, ip, process);
    BornPages(k, ip, process, b);
  }

  lemma TerminateKeepsPage(k: Kernel, i: nat, b: nat)
    requires KInv(k) && i < |k.tasks| && b in k.tasks && k.tasks[i] != b && b < HEAP_BLOCKS
    ensures b in ApplyTerminate(k, i).tasks
    ensures SameStructure(k.o.sys.ks.mem[FrameOf(b)], ApplyTerminate(k, i).o.sys.ks.mem[FrameOf(b)])
  {
    hide OInv, ApplyExit, TasksOk, TaskPage, WordAt, SetWord, I.Unclaimed, FreeAt, PrevOf, NextOf;
    TaskInHeap(k, b);
    InvOf(k.o);
    ExitKeepsLoose(k.o, i, b);
    var j :| 0 <= j < |k.tasks| && k.tasks[j] == b;
    assert Drop(k.tasks, i)[if j < i then j else j - 1] == b;
  }

  /** So over every run that spares the task. */
  lemma {:induction false} RunKeepsStructure(states: seq<Kernel>, events: seq<Event>, n: nat, b: nat)
    requires Run(states, events) && KInv(states[0]) && n <= |events| && b in states[0].tasks
    requires forall i :: 0 <= i < n ==> StepFits(states[i], events[i]) && Spares(states[i], events[i], b)
    ensures b < HEAP_BLOCKS && KInv(states[n]) && b in states[n].tasks
    ensures SameStructure(states[0].o.sys.ks.mem[FrameOf(b)], states[n].o.sys.ks.mem[FrameOf(b)])
  {
    hide KInv, StepOf, StepFits, Spares, WordAt, Apply;
    TaskInHeap(states[0], b);
    if n > 0 {
      RunKeepsStructure(states, events, n - 1, b);
      assert StepOf(states[n - 1], events[n - 1], states[n]);
      StepExactly(states[n - 1], events[n - 1], states[n]);
      StepIs(states[n - 1], events[n - 1], states[n]);
      StepKeepsStructure(states[n - 1], events[n - 1], b);
    }
  }

  lemma StepIs(k: Kernel, e: Event, k': Kernel)
    requires KInv(k) && StepOf(k, e, k')
    ensures LegalEvent(k, e) && k' == Apply(k, e)
  {
    hide KInv, LegalEvent, Apply;
  }

  // ---------------------------------------------------------------- when links fit

  /** Block b of the list. */
  lemma TaskStoreFits(o: Owned, tasks: seq<nat>, b: nat, w: Word)
    requires OInv(o) && TasksOk(o, tasks) && b in tasks
    ensures StoreFits(o, AddressOf(b) / PAGE_SIZE, w)
  {
    hide OInv, TaskPage, I.Unclaimed, StoreFits;
    assert TaskOk(o, b);
    UnclaimedFits(o, FrameOf(b), w);
  }

  /** A null prev link, or one that names a task structure: the end of the process fits. */
  lemma PrevOnListFits(k: Kernel, i: nat)
    requires KInv(k) && i < |k.tasks| && (PrevOf(k, i) == 0 || exists b :: b in k.tasks && PrevOf(k, i) == AddressOf(b))
    ensures UnlinkFits(k, i)
  {
    hide OInv, PrevOf, NextOf, TasksOk, SpaceTakes, AddressOf;
    if PrevOf(k, i) != 0 {
      var b :| b in k.tasks && PrevOf(k, i) == AddressOf(b);
      TaskStoreFits(k.o, k.tasks, b, NextOf(k, i));
    }
  }

  /** The tail of the list names a task structure: task_new fits. */
  lemma TailOnListFits(k: Kernel, ip: Word, process: Word)
    requires KInv(k) && LegalEvent(k, NewTask(ip, process)) && TailOk(k)
    ensures LinkFits(k, ip, process)
  {
    hide OInv, Born, TasksOk, StoreFits, TaskBlock, WordAt, HT.FreeFrom;
    BornIs(k, ip, process);
    if k.head != 0 {
      var b :| b in k.tasks && k.tail == AddressOf(b);
      var c := TaskBlock(k.o);
      TaskStoreFits(Born(k, ip, process), k.tasks + [c], b, AddressOf(c));
    }
  }

  // ---------------------------------------------------------------- spare runs

  /** A run of n blocks that is nobody's memory and no task structure. */
  ghost predicate Spare(k: Kernel, b: nat, n: nat) {
    && b in k.o.sys.ks.live && k.o.sys.ks.live[b] == n && b !in k.tasks
    && I.Unclaimed(k.o.sys, FrameOf(b)) && Unheld(k.o, b)
  }

  /** What the steps of the loader leave alone: tasks, links and processes. */
  ghost predicate SameTasks(k: Kernel, r: Kernel) {
    r.tasks == k.tasks && r.head == k.head && r.tail == k.tail && r.o.held == k.o.held && r.o.sys.procs == k.o.sys.procs
  }

  lemma TasksAreLive(k: Kernel)
    requires KInv(k)
    ensures forall b :: b in k.tasks ==> b in k.o.sys.ks.live
  {
    hide OInv, TaskPage, I.Unclaimed;
    forall b | b in k.tasks ensures b in k.o.sys.ks.live {
      assert TaskOk(k.o, b) && FrameOf(b) - HEAP_FRAME == b;
    }
  }

  /** The new task structure is none of the runs that were live. */
  lemma TaskIsNew(k: Kernel, ip: Word, process: Word)
    requires KInv(k) && LegalEvent(k, NewTask(ip, process))
    ensures TaskBlock(k.o) !in k.o.sys.ks.live
  {
    hide OInv, Inv, TasksOk, Refines, StartBlock, Fits, FreeRun, ZeroFill, HT.FreeFrom;
    TaskRoom(k.o);
    InvOf(k.o);
    BlocksForPage(TASK_SIZE);
    ZallocFacts(k.o.sys.ks, TASK_SIZE);
  }

  /** kzalloc by the kernel: one spare run more. */
  lemma AllocKeepsSpare(k: Kernel, size: nat)
    requires KInv(k) && Serves(k.o.sys.ks, size) && StartBlock(k.o.sys.ks.table, BlocksFor(size)) >= 0
    ensures var r, s := k.(o := ApplyPlain(k.o, I.KernelAlloc(size))), StartBlock(k.o.sys.ks.table, BlocksFor(size));
      && KInv(r) && SameTasks(k, r) && r.o.sys.ks == Zalloc(k.o.sys.ks, size) && Spare(r, s, BlocksFor(size)) && s !in k.o.sys.ks.live
      && (forall b, l :: Spare(k, b, l) ==> Spare(r, b, l))
  {
    hide OInv, Inv, TasksOk, Refines, StartBlock, Fits, HasRun, BlocksFor, FreeRun, I.Unclaimed, ZeroFill;
    InvOf(k.o);
    ZallocFacts(k.o.sys.ks, size);
    StepKeepsOwnershipExactly(k, Do(Plain(I.KernelAlloc(size))));
    NewRunIsUnheld(k.o, size, StartBlock(k.o.sys.ks.table, BlocksFor(size)));
    TasksAreLive(k);
    forall b, l | Spare(k, b, l) ensures Spare(k.(o := ApplyPlain(k.o, I.KernelAlloc(size))), b, l) {
      LooseKept(k.o, I.KernelAlloc(size), b);
    }
  }

  /** task_new on a list in order. */
  lemma NewTaskKeepsSpare(k: Kernel, ip: Word, process: Word)
    requires KInv(k) && LegalEvent(k, NewTask(ip, process)) && TailOk(k)
    ensures KInv(ApplyNew(k, ip, process)) && forall b, l :: Spare(k, b, l) ==> Spare(ApplyNew(k, ip, process), b, l)
  {
    hide OInv, TasksOk, Born, Adds, Dir, NewChunk, DirectoryBlock, I.Unclaimed, Unheld, TailOk, HT.FreeFrom;
    NewTaskAdds(k, ip, process);
    TaskIsNew(k, ip, process);
  }

  /** The process becomes the holder of these runs. */
  ghost function Given(o: Owned, i: nat, blocks: seq<nat>): Owned
    requires i < |o.held|
  {
    Owned(o.sys, o.held[i := o.held[i] + blocks])
  }

  lemma {:induction false} GivenKeeps(k: Kernel, i: nat, blocks: seq<nat>)
    requires KInv(k) && i < |k.o.held| && (forall x, y :: 0 <= x < y < |blocks| ==> blocks[x] != blocks[y])
    requires forall b :: b in blocks ==> b in k.o.sys.ks.live && Spare(k, b, k.o.sys.ks.live[b])
    ensures KInv(k.(o := Given(k.o, i, blocks)))
    decreases |blocks|
  {
    hide OInv, TasksOk, I.Unclaimed;
    if blocks == [] {
      assert k.o.held[i] + blocks == k.o.held[i] && k.o.held[i := k.o.held[i]] == k.o.held;
      assert k.(o := Given(k.o, i, blocks)) == k;
    } else {
      var b, rest := blocks[0], blocks[1..];
      assert b in blocks && Spare(k, b, k.o.sys.ks.live[b]);
      StepKeepsOwnershipExactly(k, Do(Give(i, b)));
      var r := k.(o := ApplyGive(k.o, i, b));
      forall c | c in rest ensures c in r.o.sys.ks.live && Spare(r, c, r.o.sys.ks.live[c]) {
        assert c in blocks && c != b && Spare(k, c, k.o.sys.ks.live[c]);
      }
      GivenKeeps(r, i, rest);
      assert [b] + rest == blocks && (k.o.held[i] + [b]) + rest == k.o.held[i] + ([b] + rest);
      assert r.o.held[i := r.o.held[i] + rest] == k.o.held[i := k.o.held[i] + blocks];
    }
  }
}
