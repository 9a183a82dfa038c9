/**
  Two runs after which a process owns memory that is not its own, step by step from a compact heap: the
  zero-initialised data of a program reach into its page directory, and the prev link of a task names a
  block that has become the page directory of a later process.
 */
module FailingRuns {
  import opened HeapTable
  import opened Memory
  import opened KernelState
  import opened AddressSpace
  import opened ProcessMemory
  import opened ProgramImage
  import opened Ownership
  import opened TaskLinks
  import opened KernelRuns
  import I = Isolation
  import HT = HeapTheory
  import P = Paging

  // ---------------------------------------------------------------- runs as lists of steps

  /** Each step is legal and fits. */
  ghost predicate Runs(k: Kernel, events: seq<Event>)
    decreases |events|
  {
    KInv(k) && (events == [] || (StepFits(k, events[0]) && Runs(Apply(k, events[0]), events[1..])))
  }

  ghost function After(k: Kernel, events: seq<Event>): Kernel
    requires Runs(k, events)
    decreases |events|
  {
    if events == [] then k else After(Apply(k, events[0]), events[1..])
  }

  /** Such a list is a run, and ownership holds after each of its steps. */
  lemma {:induction false} RunsAreOwned(k: Kernel, events: seq<Event>) returns (states: seq<Kernel>)
    requires Runs(k, events)
    ensures Run(states, events) && states[0] == k && states[|events|] == After(k, events)
    ensures forall n :: 0 <= n < |states| ==> KInv(states[n])
    decreases |events|
  {
    hide KInv, LegalEvent, EventFits, Apply;
    if events == [] {
      states := [k];
    } else {
      var rest := RunsAreOwned(Apply(k, events[0]), events[1..]);
      states := [k] + rest;
      forall n | 0 <= n < |events| ensures StepOf(states[n], events[n], states[n + 1]) {
        if n > 0 { assert StepOf(rest[n - 1], events[1..][n - 1], rest[n]); }
      }
    }
  }

  lemma OneStep(k: Kernel, e: Event)
    requires StepFits(k, e)
    ensures Runs(k, [e]) && After(k, [e]) == Apply(k, e) && KInv(Apply(k, e))
  {
    hide KInv, LegalEvent, EventFits, Apply;
    StepKeepsOwnershipExactly(k, e);
    assert [e][1..] == [];
  }

  lemma {:induction false} ThenRuns(k: Kernel, xs: seq<Event>, ys: seq<Event>)
    requires Runs(k, xs) && Runs(After(k, xs), ys)
    ensures Runs(k, xs + ys) && After(k, xs + ys) == After(After(k, xs), ys)
    decreases |xs|
  {
    hide KInv, LegalEvent, EventFits, Apply;
    if xs == [] {
      assert xs + ys == ys;
    } else {
      ThenRuns(Apply(k, xs[0]), xs[1..], ys);
      assert (xs + ys)[1..] == xs[1..] + ys;
    }
  }

  // ---------------------------------------------------------------- the shape of the heap

  /** The blocks in front of m are taken, those from m up to h are free. */
  ghost predicate Hole(t: seq<Entry>, m: nat, h: nat) {
    m <= h <= |t| && (forall k :: 0 <= k < m ==> !IsFree(t[k])) && (forall k :: m <= k < h ==> IsFree(t[k]))
  }

  lemma HoleFirst(t: seq<Entry>, m: nat, h: nat, n: nat)
    requires Hole(t, m, h) && 1 <= n && m + n <= h
    ensures HasRun(t, n) && HeapTable.Fits(t, n) && StartBlock(t, n) == m && Hole(MarkTaken(t, m, n), m + n, h)
  {
    hide StartBlock, HeapTable.Fits;
    assert FreeRun(t, m, n);
    StartBlockFound(t, n);
    var s := StartBlock(t, n);
    assert !(m < s) && IsFree(t[s]);
    forall k | 0 <= k < m + n ensures !IsFree(MarkTaken(t, m, n)[k]) {
      if m <= k { CellBits(k - m, n); }
    }
  }

  function Alloc(size: nat): Event { Do(Plain(I.KernelAlloc(size))) }
  function Free(b: nat): Event { Do(Plain(I.KernelFree(b))) }

  /** kzalloc in a hole. */
  lemma AllocInHole(k: Kernel, m: nat, h: nat, size: nat)
    requires KInv(k) && Hole(k.o.sys.ks.table, m, h) && 0 < size <= 0xFFFF_F000 && m + BlocksFor(size) <= h
    ensures Runs(k, [Alloc(size)])
    ensures var r, n := After(k, [Alloc(size)]), BlocksFor(size);
      && KInv(r) && SameTasks(k, r) && n >= 1 && Spare(r, m, n) && r.o.sys.ks.table == MarkTaken(k.o.sys.ks.table, m, n)
      && (forall b, l :: Spare(k, b, l) ==> Spare(r, b, l))
  {
    hide OInv, Inv, TasksOk, Refines, StartBlock, HeapTable.Fits, HasRun, BlocksFor, Hole, FreeRun, I.Unclaimed, ZeroFill;
    InvOf(k.o);
    SystemOk(k.o.sys);
    SizeBlocks(size);
    HoleFirst(k.o.sys.ks.table, m, h, BlocksFor(size));
    ZallocFacts(k.o.sys.ks, size);
    OneStep(k, Alloc(size));
    AllocKeepsSpare(k, size);
  }

  lemma SizeBlocks(size: nat)
    requires 0 < size <= 0xFFFF_F000
    ensures BlocksFor(size) >= 1 && (size <= PAGE_SIZE ==> BlocksFor(size) == 1) && BlocksFor(STACK_SIZE) == 4
  {
    AlignUpperIsLeastMultiple(size);
  }

  /** kfree of a spare run. */
  lemma FreeSpare(k: Kernel, b: nat, n: nat)
    requires KInv(k) && Spare(k, b, n)
    ensures Runs(k, [Free(b)])
    ensures var r := After(k, [Free(b)]);
      && KInv(r) && SameTasks(k, r) && r.o.sys.ks.table == MarkFree(k.o.sys.ks.table, b, n)
      && (forall c, l :: c != b && Spare(k, c, l) ==> Spare(r, c, l))
  {
    hide OInv, Inv, TasksOk, Refines, FreeAt, I.Unclaimed, MarkFree;
    InvOf(k.o);
    SystemOk(k.o.sys);
    ReleaseOk(k.o.sys.ks, b);
    OneStep(k, Free(b));
    forall c, l | c != b && Spare(k, c, l) ensures Spare(After(k, [Free(b)]), c, l) {
      LooseKept(k.o, I.KernelFree(b), c);
    }
  }

  /** task_new in a hole: the first block is the task structure, the second the page directory. */
  lemma NewTaskInHole(k: Kernel, m: nat, h: nat, ip: Word, process: Word)
    requires KInv(k) && Hole(k.o.sys.ks.table, m, h) && m + 2 <= h && HT.FreeFrom(k.o.sys.ks.table, 0) > SPACE_BLOCKS && TailOk(k)
    ensures Runs(k, [NewTask(ip, process)])
    ensures var r, c := After(k, [NewTask(ip, process)]), NewChunk(k.o);
      && r == ApplyNew(k, ip, process) && KInv(r) && TaskBlock(k.o) == m && r.tasks == k.tasks + [m] && r.tail == AddressOf(m)
      && r.head == (if k.head == 0 then AddressOf(m) else k.head)
      && Adds(k.o, r.o, c) && Dir(r.o.sys.ks.mem, c) == FrameOf(m + 1)
      && (forall b, l :: Spare(k, b, l) ==> Spare(r, b, l))
  {
    hide OInv, TasksOk, NewChunk, Adds, Dir, StartBlock, HT.FreeFrom, ApplyNew, LinkFits, Hole, TailOk, MarkTaken, Refines, I.Unclaimed;
    var t := k.o.sys.ks.table;
    HoleInTable(k, m, h);
    HoleFirst(t, m, h, 1);
    HoleFirst(MarkTaken(t, m, 1), m + 1, h, 1);
    NewTaskAdds(k, ip, process);
    OneStep(k, NewTask(ip, process));
    NewTaskIs(k, ip, process);
    forall b, l | Spare(k, b, l) ensures Spare(ApplyNew(k, ip, process), b, l) {
      SpareIsTaken(k, b, l, m, h);
    }
  }

  lemma HoleInTable(k: Kernel, m: nat, h: nat)
    requires KInv(k) && Hole(k.o.sys.ks.table, m, h)
    ensures h <= HEAP_BLOCKS
  {
    hide OInv, Inv, Refines;
    InvOf(k.o);
    SystemOk(k.o.sys);
  }

  lemma NewTaskIs(k: Kernel, ip: Word, process: Word)
    requires KInv(k) && LegalEvent(k, NewTask(ip, process))
    ensures var r, b := ApplyNew(k, ip, process), TaskBlock(k.o);
      && 0 <= b < HEAP_BLOCKS && r.tasks == k.tasks + [b] && r.tail == AddressOf(b) && r.head == (if k.head == 0 then AddressOf(b) else k.head)
  {
    hide OInv, Born, TasksOk, TaskBlock;
    BornIs(k, ip, process);
  }

  lemma SpareIsTaken(k: Kernel, b: nat, l: nat, m: nat, h: nat)
    requires KInv(k) && Spare(k, b, l) && Hole(k.o.sys.ks.table, m, h) && m < h
    ensures b != m
  {
    hide OInv, Inv, Refines, I.Unclaimed, TasksOk;
    InvOf(k.o);
    SystemOk(k.o.sys);
    LiveIsCovered(k.o.sys.ks, b, b);
  }

  /** A block in a live run is not free. */
  lemma LiveIsCovered(ks: KState, s: nat, b: nat)
    requires Ok(ks) && s in ks.live && (s == b || Covers(ks.live, s, b))
    ensures b < HEAP_BLOCKS && !IsFree(ks.table[b])
  {
    LiveInHeap(ks, s);
    LiveCoversItself(ks, s);
    CellBits(b - s, ks.live[s]);
  }

  // ---------------------------------------------------------------- process_load

  /** What fopen allocates and fclose frees: FAT descriptor, item, its directory entry, file descriptor. */
  const DESCRIPTORS: seq<nat> := [8, 8, 32, 16]

  /** fopen, as far as it is undone. */
  function OpenFile(): seq<Event> {
    [Alloc(DESCRIPTORS[0])] + [Alloc(DESCRIPTORS[1])] + [Alloc(DESCRIPTORS[2])] + [Alloc(DESCRIPTORS[3])]
  }

  /** fclose after an fopen at block m. */
  function CloseFile(m: nat): seq<Event> {
    [Free(m + 2)] + [Free(m + 1)] + [Free(m)] + [Free(m + 3)]
  }

  /** The n blocks from m on are spare runs of one block each. */
  ghost predicate SparePages(k: Kernel, m: nat, n: nat) {
    forall b: nat :: m <= b < m + n ==> Spare(k, b, 1)
  }

  /** One more descriptor. */
  lemma OpenMore(k: Kernel, xs: seq<Event>, m: nat, h: nat, i: nat)
    requires Runs(k, xs) && SameTasks(k, After(k, xs)) && KInv(After(k, xs)) && i < 4 && m + 4 < h
    requires Hole(After(k, xs).o.sys.ks.table, m + i, h) && SparePages(After(k, xs), m, i)
    ensures Runs(k, xs + [Alloc(DESCRIPTORS[i])])
    ensures var r := After(k, xs + [Alloc(DESCRIPTORS[i])]);
      KInv(r) && SameTasks(k, r) && Hole(r.o.sys.ks.table, m + i + 1, h) && SparePages(r, m, i + 1)
  {
    hide KInv, Spare, Runs, After, Hole, HT.FreeFrom, MarkTaken, BlocksFor, IsFree;
    var r, size := After(k, xs), DESCRIPTORS[i];
    SizeBlocks(size);
    AllocInHole(r, m + i, h, size);
    ThenRuns(k, xs, [Alloc(size)]);
    HoleFirst(r.o.sys.ks.table, m + i, h, 1);
  }

  /** A hole has room for what fits in it. */
  lemma {:induction false} HoleRoom(t: seq<Entry>, m: nat, h: nat, k: nat)
    requires Hole(t, m, h) && k <= h
    ensures HT.FreeFrom(t, k) >= h - if k <= m then m else k
    decreases h - k
  {
    if k < h { HoleRoom(t, m, h, k + 1); }
  }

  lemma OpenFileRuns(k: Kernel, m: nat, h: nat)
    requires KInv(k) && Hole(k.o.sys.ks.table, m, h) && m + 4 < h
    ensures Runs(k, OpenFile())
    ensures var r := After(k, OpenFile());
      KInv(r) && SameTasks(k, r) && Hole(r.o.sys.ks.table, m + 4, h) && SparePages(r, m, 4)
  {
    hide KInv, Spare, Runs, After, Hole, HT.FreeFrom;
    NoSteps(k);
    var e0, e1, e2, e3 := Alloc(DESCRIPTORS[0]), Alloc(DESCRIPTORS[1]), Alloc(DESCRIPTORS[2]), Alloc(DESCRIPTORS[3]);
    assert [] + [e0] == [e0];
    assert SparePages(After(k, []), m, 0);
    OpenMore(k, [], m, h, 0);
    OpenMore(k, [e0], m, h, 1);
    OpenMore(k, [e0] + [e1], m, h, 2);
    OpenMore(k, [e0] + [e1] + [e2], m, h, 3);
  }

  lemma NoSteps(k: Kernel)
    requires KInv(k)
    ensures Runs(k, []) && After(k, []) == k
  {
    hide KInv;
  }

  /** The cells of one block. */
  ghost predicate Cleared(t: seq<Entry>, r: seq<Entry>, bs: set<nat>) {
    |r| == |t| && forall k :: 0 <= k < |t| ==> (IsFree(r[k]) <==> IsFree(t[k]) || k in bs)
  }

  /** One more of the descriptors is freed. */
  lemma CloseMore(k: Kernel, xs: seq<Event>, bs: set<nat>, b: nat)
    requires Runs(k, xs) && KInv(After(k, xs)) && SameTasks(k, After(k, xs)) && Spare(After(k, xs), b, 1) && b !in bs
    requires Cleared(k.o.sys.ks.table, After(k, xs).o.sys.ks.table, bs)
    requires forall c, l :: c !in bs && Spare(k, c, l) ==> Spare(After(k, xs), c, l)
    ensures Runs(k, xs + [Free(b)])
    ensures var r := After(k, xs + [Free(b)]);
      && KInv(r) && SameTasks(k, r) && Cleared(k.o.sys.ks.table, r.o.sys.ks.table, bs + {b})
      && (forall c, l :: c !in bs + {b} && Spare(k, c, l) ==> Spare(r, c, l))
  {
    hide KInv, Spare, Runs, After;
    FreeSpare(After(k, xs), b, 1);
    ThenRuns(k, xs, [Free(b)]);
  }

  lemma CloseFileRuns(k: Kernel, m: nat)
    requires KInv(k) && SparePages(k, m, 4)
    ensures Runs(k, CloseFile(m))
    ensures var r := After(k, CloseFile(m));
      && KInv(r) && SameTasks(k, r) && Cleared(k.o.sys.ks.table, r.o.sys.ks.table, {m, m + 1, m + 2, m + 3})
      && (forall c, l :: c !in {m, m + 1, m + 2, m + 3} && Spare(k, c, l) ==> Spare(r, c, l))
  {
    hide KInv, Spare, Runs, After, Cleared, IsFree;
    NoSteps(k);
    var e0, e1, e2, e3 := Free(m + 2), Free(m + 1), Free(m), Free(m + 3);
    assert [] + [e0] == [e0];
    assert Spare(k, m, 1) && Spare(k, m + 1, 1) && Spare(k, m + 2, 1) && Spare(k, m + 3, 1);
    NothingCleared(k.o.sys.ks.table);
    CloseMore(k, [], {}, m + 2);
    CloseMore(k, [e0], {} + {m + 2}, m + 1);
    CloseMore(k, [e0] + [e1], {} + {m + 2} + {m + 1}, m);
    CloseMore(k, [e0] + [e1] + [e2], {} + {m + 2} + {m + 1} + {m}, m + 3);
    assert {} + {m + 2} + {m + 1} + {m} + {m + 3} == {m, m + 1, m + 2, m + 3};
  }

  lemma NothingCleared(t: seq<Entry>)
    ensures Cleared(t, t, {})
  {
  }

  /** A file of n blocks is read through a descriptor at block m, and then the stack is allocated. */
  function LoadFile(m: nat, size: nat): seq<Event> {
    OpenFile() + [Alloc(size)] + CloseFile(m) + [Alloc(STACK_SIZE)]
  }

  /** The four blocks in front of the file are free again. */
  lemma ClosedHole(t: seq<Entry>, r: seq<Entry>, m: nat, e: nat, h: nat)
    requires m + 4 <= e && Hole(t, e, h) && Cleared(t, r, {m, m + 1, m + 2, m + 3})
    ensures Hole(r, m, m + 4)
    ensures Hole(MarkTaken(r, m, 4), e, h)
  {
    var s := MarkTaken(r, m, 4);
    forall k | 0 <= k < |t| ensures IsFree(s[k]) <==> IsFree(t[k]) {
      if m <= k < m + 4 { CellBits(k - m, 4); }
    }
  }

  /** The stack takes the blocks that fclose freed; the file lies behind it. */
  lemma LoadFileRuns(k: Kernel, m: nat, h: nat, size: nat)
    requires KInv(k) && Hole(k.o.sys.ks.table, m, h) && 0 < size <= 0xFFFF_F000 && m + 4 + BlocksFor(size) <= h && m + 4 < h
    ensures Runs(k, LoadFile(m, size))
    ensures var r, n := After(k, LoadFile(m, size)), BlocksFor(size);
      && KInv(r) && SameTasks(k, r) && Hole(r.o.sys.ks.table, m + 4 + n, h) && Spare(r, m + 4, n) && Spare(r, m, 4)
  {
    hide KInv, Spare, Runs, After, BlocksFor, OpenFile, CloseFile, IsFree, Hole, Cleared, MarkTaken;
    var n := BlocksFor(size);
    SizeBlocks(size);
    OpenFileRuns(k, m, h);
    var r1 := After(k, OpenFile());
    AllocInHole(r1, m + 4, h, size);
    HoleFirst(r1.o.sys.ks.table, m + 4, h, n);
    ThenRuns(k, OpenFile(), [Alloc(size)]);
    var r2 := After(r1, [Alloc(size)]);
    assert SparePages(r2, m, 4);
    CloseFileRuns(r2, m);
    ThenRuns(k, OpenFile() + [Alloc(size)], CloseFile(m));
    var r3 := After(r2, CloseFile(m));
    ClosedHole(r2.o.sys.ks.table, r3.o.sys.ks.table, m, m + 4 + n, h);
    AllocInHole(r3, m, m + 4, STACK_SIZE);
    ThenRuns(k, OpenFile() + [Alloc(size)] + CloseFile(m), [Alloc(STACK_SIZE)]);
  }

  /** Then the task, and what process_terminate gives back: file and stack. */
  function LoadTask(m: nat, pid: nat, ip: Word, process: Word): seq<Event> {
    [NewTask(ip, process)] + [Do(Give(pid, m + 4))] + [Do(Give(pid, m))]
  }

  lemma GiveSpare(k: Kernel, i: nat, b: nat, n: nat)
    requires KInv(k) && Spare(k, b, n) && i < |k.o.held|
    ensures Runs(k, [Do(Give(i, b))])
    ensures var r := After(k, [Do(Give(i, b))]);
      && KInv(r) && r == k.(o := ApplyGive(k.o, i, b)) && (forall c, l :: c != b && Spare(k, c, l) ==> Spare(r, c, l))
  {
    hide OInv, TasksOk, I.Unclaimed;
    OneStep(k, Do(Give(i, b)));
  }

  /** The new process n holds file and stack, and its directory is the second block behind the file. */
  ghost predicate LoadedAt(k: Kernel, r: Kernel, m: nat, blocks: nat) {
    var n := |k.o.held|;
    && KInv(r) && |r.o.held| == n + 1 == |r.o.sys.procs| && r.o.held[n] == [m + 4, m] && r.tasks == k.tasks + [m + 4 + blocks]
    && r.o.sys.procs[n].allocs == NoAllocs() && r.o.sys.procs[n].chunk < FRAMES
    && Dir(r.o.sys.ks.mem, r.o.sys.procs[n].chunk) == FrameOf(m + 4 + blocks + 1)
    && m in r.o.sys.ks.live && r.o.sys.ks.live[m] == 4 && m + 4 in r.o.sys.ks.live && r.o.sys.ks.live[m + 4] == blocks
  }

  /** task_new, and the process holds its runs. */
  lemma TaskSteps(k: Kernel, m: nat, blocks: nat, h: nat, ip: Word, process: Word)
    requires KInv(k) && TailOk(k) && Hole(k.o.sys.ks.table, m + 4 + blocks, h) && Spare(k, m + 4, blocks) && Spare(k, m, 4)
    requires m + 4 + blocks + 1 + SPACE_BLOCKS <= h
    ensures Runs(k, LoadTask(m, |k.o.held|, ip, process))
    ensures LoadedAt(k, After(k, LoadTask(m, |k.o.held|, ip, process)), m, blocks)
  {
    hide KInv, Spare, Runs, After, Hole, TailOk, HT.FreeFrom, Dir, Adds, ApplyNew, NewChunk, TaskBlock;
    var n, e, g := |k.o.held|, NewTask(ip, process), Do(Give(|k.o.held|, m + 4));
    OwnedNow(k);
    HoleRoom(k.o.sys.ks.table, m + 4 + blocks, h, 0);
    NewTaskInHole(k, m + 4 + blocks, h, ip, process);
    var r1 := After(k, [e]);
    AddedLast(k, r1, NewChunk(k.o));
    SpareRun(r1, m, 4);
    SpareRun(r1, m + 4, blocks);
    GiveSpare(r1, n, m + 4, blocks);
    var r2 := After(r1, [g]);
    GiveSpare(r2, n, m, 4);
    ThenRuns(k, [e], [g]);
    ThenRuns(k, [e] + [g], [Do(Give(n, m))]);
    assert [] + [m + 4] == [m + 4] && [m + 4] + [m] == [m + 4, m];
  }

  /** process_load up to the mapping, from a hole at block m: it fits at every step. */
  lemma LoadSteps(k: Kernel, m: nat, h: nat, size: nat, ip: Word, process: Word)
    requires KInv(k) && TailOk(k) && Hole(k.o.sys.ks.table, m, h) && 0 < size <= 0xFFFF_F000
    requires m + 4 + BlocksFor(size) + 1 + SPACE_BLOCKS <= h
    ensures var events := LoadFile(m, size) + LoadTask(m, |k.o.held|, ip, process);
      Runs(k, events) && LoadedAt(k, After(k, events), m, BlocksFor(size))
  {
    hide KInv, Spare, Runs, After, BlocksFor, LoadFile, LoadTask, Hole, TailOk, Dir;
    LoadFileRuns(k, m, h, size);
    var r := After(k, LoadFile(m, size));
    SameTail(k, r);
    TaskSteps(r, m, BlocksFor(size), h, ip, process);
    ThenRuns(k, LoadFile(m, size), LoadTask(m, |k.o.held|, ip, process));
  }

  lemma SameTail(k: Kernel, r: Kernel)
    requires TailOk(k) && SameTasks(k, r)
    ensures TailOk(r)
  {
  }

  lemma SpareRun(k: Kernel, b: nat, n: nat)
    requires Spare(k, b, n)
    ensures b in k.o.sys.ks.live && k.o.sys.ks.live[b] == n
  {
    hide I.Unclaimed;
  }

  lemma AddedLast(k: Kernel, r: Kernel, c: int)
    requires KInv(k) && Adds(k.o, r.o, c)
    ensures var n := |k.o.held|;
      && n == |k.o.sys.procs| && |r.o.held| == n + 1 == |r.o.sys.procs| && r.o.held[n] == []
      && 0 <= c < FRAMES && r.o.sys.procs[n] == Proc(c, NoAllocs())
  {
    hide OInv, ViewAt, P.Identity, HT.FreeFrom, Open;
    InvOf(k.o);
  }

  // ---------------------------------------------------------------- an image that does not fit

  /** A writable header whose memory size is three pages, in a file of one block. */
  const BSS_HEADER := Phdr(0, PROGRAM_VIRTUAL_ADDRESS, 0x3000, 2)

  /**
    Behind the file of one block lie the task structure and the page directory. The header is separate and
    congruent, nothing on the way refuses it, and the process can write to its own page directory.
   */
  lemma BssReachesPageDirectory(k: Kernel, m: nat, h: nat, size: nat, ip: Word, process: Word)
    requires KInv(k) && TailOk(k) && Hole(k.o.sys.ks.table, m, h) && 0 < size <= PAGE_SIZE && m + 6 + SPACE_BLOCKS <= h
    ensures var events, n := LoadFile(m, size) + LoadTask(m, |k.o.held|, ip, process), |k.o.held|;
      && Runs(k, events) && var r := After(k, events);
      var elf, stack := AddressOf(m + 4), AddressOf(m);
      var image := Elf(elf, [BSS_HEADER]);
      && ImageOk(image) && Separate(elf, [BSS_HEADER]) && Congruent(BSS_HEADER)
      && KInv(r) && LegalEvent(r, Do(MapMemory(n, image, stack)))
      && var o := Apply(r, Do(MapMemory(n, image, stack))).o;
      && !OInv(o) && n < |o.sys.procs| && var mem, c := o.sys.ks.mem, o.sys.procs[n].chunk;
      && c < FRAMES && Dir(mem, c) == FrameOf(m + 6)
      && var e := ViewAt(mem, c)[PROGRAM_VIRTUAL_ADDRESS / PAGE_SIZE + 2];
      P.IsPresent(e) && P.IsUser(e) && P.IsWriteable(e) && P.Frame(e) == Dir(mem, c)
  {
    hide KInv, Runs, After, LoadFile, LoadTask, Hole, TailOk, Dir, BlocksFor, ImageOk, Separate, P.IsPresent, P.IsUser, P.IsWriteable, P.Frame, OInv, ApplyMap, ViewAt, Mappable, Open;
    var n := |k.o.held|;
    SizeBlocks(size);
    HoleInTable(k, m, h);
    LoadSteps(k, m, h, size, ip, process);
    BssMapped(k, After(k, LoadFile(m, size) + LoadTask(m, n, ip, process)), m);
  }

  lemma BssMapped(k: Kernel, r: Kernel, m: nat)
    requires LoadedAt(k, r, m, 1) && m + 6 + SPACE_BLOCKS <= HEAP_BLOCKS
    ensures var n, elf, stack := |k.o.held|, AddressOf(m + 4), AddressOf(m);
      var image := Elf(elf, [BSS_HEADER]);
      && ImageOk(image) && Separate(elf, [BSS_HEADER]) && Congruent(BSS_HEADER) && OInv(r.o) && Mappable(r.o, n, image, stack)
      && var o := ApplyMap(r.o, n, image, stack);
      && !OInv(o) && n < |o.sys.procs| && var mem, c := o.sys.ks.mem, o.sys.procs[n].chunk;
      && c < FRAMES && Dir(mem, c) == FrameOf(m + 6)
      && var e := ViewAt(mem, c)[PROGRAM_VIRTUAL_ADDRESS / PAGE_SIZE + 2];
      P.IsPresent(e) && P.IsUser(e) && P.IsWriteable(e) && P.Frame(e) == Dir(mem, c)
  {
    hide OInv, Inv, TasksOk, SpaceAt, ViewAt, Footprint, Dir, ImageOk, InImage, ImageEntry, Separate, MapImage, MapImageMem, P.IsPresent, P.IsUser, P.IsWriteable, P.Frame, InHeld, Open;
    var n, elf, stack, p := |k.o.held|, AddressOf(m + 4), AddressOf(m), PROGRAM_VIRTUAL_ADDRESS / PAGE_SIZE + 2;
    var image := Elf(elf, [BSS_HEADER]);
    BssImage(m);
    Parts(r.o, n);
    ProcSpace(r.o.sys.ks, r.o.sys.procs[n]);
    var c := r.o.sys.procs[n].chunk;
    MapImageRemaps(r.o.sys.ks.mem, c, image, stack);
    ImageView(ViewAt(r.o.sys.ks.mem, c), image, stack, p);
    EntryBits(FrameOf(m + 6), P.USER_WRITE);
    NotInFileOrStack(r.o.sys.ks.live, m);
    assert !EntryFits(r.o.sys.ks.live, r.o.held[n], p, ImageEntry(image, p));
    MapKeepsOwnershipExactlyWhenImageFits(r.o, n, image, stack);
  }

  lemma BssImage(m: nat)
    requires m + 6 + SPACE_BLOCKS <= HEAP_BLOCKS
    ensures var elf, stack := AddressOf(m + 4), AddressOf(m);
      var image, p := Elf(elf, [BSS_HEADER]), PROGRAM_VIRTUAL_ADDRESS / PAGE_SIZE + 2;
      && ImageOk(image) && Separate(elf, [BSS_HEADER]) && Congruent(BSS_HEADER)
      && stack % PAGE_SIZE == 0 && stack / PAGE_SIZE == FrameOf(m) && stack + STACK_SIZE <= 0xFFFF_F000
      && InImage(image, p) && !InStack(p) && OutsideWindow(p) && ImageEntry(image, p) == FrameOf(m + 6) * PAGE_SIZE + P.USER_WRITE
  {
    var elf := AddressOf(m + 4);
    assert P.AlignAddress(elf + 0x3000) == elf + 0x3000;
    assert PageCount(elf, BSS_HEADER) == 3;
    assert [BSS_HEADER][0] == BSS_HEADER;
    assert InPages(elf, [BSS_HEADER][0], PROGRAM_VIRTUAL_ADDRESS / PAGE_SIZE + 2);
  }

  lemma NotInFileOrStack(live: map<nat, nat>, m: nat)
    requires m in live && live[m] == 4 && m + 4 in live && live[m + 4] == 1
    ensures !InHeld(live, [m + 4, m], FrameOf(m + 6))
  {
  }

  // ---------------------------------------------------------------- a stale link

  /**
    A process ends while another is behind it on the list, and the prev link of that one goes stale. A third
    process gets the freed blocks: its task structure the first, its page directory the second, which was
    the task structure of the first process.
   */
  function StaleSteps(m: nat, ip: Word, process: Word): seq<Event> {
    [Alloc(PAGE_SIZE)] + [NewTask(ip, process)] + [Do(Give(0, m))] + [NewTask(ip, process)] + [Terminate(0)] + [NewTask(ip, process)]
  }

  /** A kernel without processes, whose heap has room behind its first m blocks. */
  ghost predicate Empty(k: Kernel, m: nat, h: nat) {
    && KInv(k) && k.tasks == [] && k.head == 0 && Hole(k.o.sys.ks.table, m, h) && m + 4 * (SPACE_BLOCKS + 1) <= h
  }

  /** One process that holds block m; its task structure is the block behind it. */
  lemma FirstProcess(k: Kernel, m: nat, h: nat, ip: Word, process: Word)
    requires Empty(k, m, h)
    ensures var events := [Alloc(PAGE_SIZE)] + [NewTask(ip, process)] + [Do(Give(0, m))];
      && Runs(k, events) && var r := After(k, events);
      && KInv(r) && r.tasks == [m + 1] && r.o.held == [[m]] && r.head == r.tail == AddressOf(m + 1) && PrevOf(r, 0) == 0
      && m in r.o.sys.ks.live && r.o.sys.ks.live[m] == 1
      && HT.FreeFrom(r.o.sys.ks.table, 0) > 2 * (SPACE_BLOCKS + 1)
      && (forall b, l :: b != m && Spare(k, b, l) ==> Spare(r, b, l))
  {
    hide OInv, TasksOk, Runs, After, Hole, HT.FreeFrom, BlocksFor, Spare, NewChunk, TaskBlock, ApplyNew, MarkTaken, Dir, PrevOf, Refines;
    SizeBlocks(PAGE_SIZE);
    InvOf(k.o);
    AllocInHole(k, m, h, PAGE_SIZE);
    HoleFirst(k.o.sys.ks.table, m, h, 1);
    var e := NewTask(ip, process);
    var r1 := After(k, [Alloc(PAGE_SIZE)]);
    HoleRoom(r1.o.sys.ks.table, m + 1, h, 0);
    NewTaskInHole(r1, m + 1, h, ip, process);
    var r2 := After(r1, [e]);
    NewTaskLinks(r1, ip, process, 0);
    AddedLast(r1, r2, NewChunk(r1.o));
    SpareRun(r2, m, 1);
    GiveSpare(r2, 0, m, 1);
    GivenPrev(r2, 0, m, 0);
    ThenRuns(k, [Alloc(PAGE_SIZE)], [e]);
    ThenRuns(k, [Alloc(PAGE_SIZE)] + [e], [Do(Give(0, m))]);
    assert [] + [m] == [m] && [] + [m + 1] == [m + 1];
    assert r2.o.held == [[]];
  }

  lemma GivenPrev(k: Kernel, i: nat, b: nat, j: nat)
    requires KInv(k) && i < |k.o.held| && KInv(k.(o := ApplyGive(k.o, i, b))) && j < |k.tasks|
    ensures PrevOf(k.(o := ApplyGive(k.o, i, b)), j) == PrevOf(k, j)
  {
    hide OInv, TasksOk, WordAt;
  }

  /** The only process holds block m; its task structure is block a. */
  ghost predicate Alone(k: Kernel, a: nat, m: nat) {
    && KInv(k) && k.tasks == [a] && k.o.held == [[m]] && k.head == k.tail == AddressOf(a) && PrevOf(k, 0) == 0
    && m in k.o.sys.ks.live && k.o.sys.ks.live[m] == 1
  }

  /** Another one behind it, with task structure b. */
  ghost predicate Two(k: Kernel, a: nat, b: nat, m: nat) {
    && KInv(k) && k.tasks == [a, b] && k.o.held == [[m], []] && k.head == AddressOf(a) && k.tail == AddressOf(b)
    && PrevOf(k, 0) == 0 && NextOf(k, 0) == AddressOf(b) && PrevOf(k, 1) == AddressOf(a)
    && m in k.o.sys.ks.live && k.o.sys.ks.live[m] == 1 && |k.o.sys.procs| == 2
  }

  lemma SecondProcess(k: Kernel, a: nat, m: nat, ip: Word, process: Word)
    requires Alone(k, a, m) && HT.FreeFrom(k.o.sys.ks.table, 0) > 2 * (SPACE_BLOCKS + 1)
    ensures Runs(k, [NewTask(ip, process)])
    ensures var r := After(k, [NewTask(ip, process)]);
      && |r.tasks| == 2 && Two(r, a, r.tasks[1], m) && HT.FreeFrom(r.o.sys.ks.table, 0) > SPACE_BLOCKS + 1
      && (forall c, l :: Spare(k, c, l) ==> Spare(r, c, l))
  {
    hide OInv, TasksOk, Runs, After, HT.FreeFrom, Dir, NewChunk, ApplyNew, PrevOf, NextOf, TaskBlock, LinkFits, Refines, I.Unclaimed;
    assert a in k.tasks && k.tail == AddressOf(a);
    NewTaskAdds(k, ip, process);
    OneStep(k, NewTask(ip, process));
    NewTaskIs(k, ip, process);
    NewTaskLinks(k, ip, process, 0);
    NewTaskLinks(k, ip, process, 1);
    var r := ApplyNew(k, ip, process);
    AddedLast(k, r, NewChunk(k.o));
    HeldIsLive(k.o, 0, m);
    HeldOver(k, ip, process, m);
    TaskIsNew(k, ip, process);
    TaskIsNot(k, a);
    forall c, l | Spare(k, c, l) ensures Spare(r, c, l) {}
  }

  lemma TaskIsNot(k: Kernel, a: nat)
    requires KInv(k) && a in k.tasks
    ensures AddressOf(a) != 0 && a < HEAP_BLOCKS
  {
    hide OInv, TaskPage, LooseFrame;
  }

  /** What a process holds stays live over task_new. */
  lemma HeldOver(k: Kernel, ip: Word, process: Word, m: nat)
    requires KInv(k) && LegalEvent(k, NewTask(ip, process)) && m in k.o.sys.ks.live
    requires I.Unclaimed(k.o.sys, FrameOf(m))
    ensures var r := ApplyNew(k, ip, process); m in r.o.sys.ks.live && r.o.sys.ks.live[m] == k.o.sys.ks.live[m]
  {
    hide OInv, Inv, TasksOk, I.Apply, I.Unclaimed, I.Legal, HT.FreeFrom, WordAt, TaskInit, LastChunk, TaskBlock;
    TaskRoom(k.o);
    BornIs(k, ip, process);
    var op := I.KernelAlloc(TASK_SIZE);
    InvOf(k.o);
    LiveKept(k.o.sys, op, m);
    StepKept(k.o.sys, op);
    var o1 := ApplyPlain(k.o, op);
    InvOf(o1);
    StaysUnclaimed(k.o.sys, o1.sys, FrameOf(m));
    LiveKept(o1.sys, I.Spawn, m);
  }

  /** Runs of the first process are dead, and no run is new. */
  lemma FirstGone(k: Kernel, b: nat, m: nat)
    requires Two(k, m + 1, b, m)
    ensures var ks, ks' := k.o.sys.ks, ApplyTerminate(k, 0).o.sys.ks;
      && Ok(ks) && Ok(ks') && (forall c :: c in ks'.live ==> c in ks.live && ks'.live[c] == ks.live[c])
      && m in ks.live && m !in ks'.live && m + 1 in ks.live && m + 1 !in ks'.live
  {
    hide OInv, Inv, ApplyExit, Claims, PrevOf, NextOf, FreeAt, Refines, StoreNext;
    TasksAreLive(k);
    assert m + 1 in k.tasks;
    InvOf(k.o);
    SystemOk(k.o.sys);
    UnlinkedIs(k, 0);
    ExitGivesBack(k.o, 0);
    assert m in k.o.held[0];
    ReleaseOk(Unlinked(k, 0).sys.ks, m + 1);
  }

  /** Fewer runs, more free blocks; a run that is gone leaves its blocks free. */
  lemma FewerRuns(ks: KState, ks': KState, c: nat)
    requires Ok(ks) && Ok(ks') && (forall b :: b in ks'.live ==> b in ks.live && ks'.live[b] == ks.live[b])
    ensures forall j :: 0 <= j < HEAP_BLOCKS && IsFree(ks.table[j]) ==> IsFree(ks'.table[j])
    ensures c in ks.live && c !in ks'.live ==> c < HEAP_BLOCKS && IsFree(ks'.table[c])
  {
    hide Refines, IsFree;
    forall j | 0 <= j < HEAP_BLOCKS && IsFree(ks.table[j]) ensures IsFree(ks'.table[j]) {
      FreeMeansUncovered(ks.table, ks.live, j);
      FreeMeansUncovered(ks'.table, ks'.live, j);
      assert forall b: nat :: Covers(ks'.live, b, j) ==> Covers(ks.live, b, j);
    }
    if c in ks.live && c !in ks'.live {
      LiveCoversItself(ks, c);
      LiveInHeap(ks, c);
      FreeMeansUncovered(ks'.table, ks'.live, c);
      forall b: nat ensures !Covers(ks'.live, b, c) {
        if Covers(ks'.live, b, c) {
          assert Covers(ks.live, b, c);
          RunsDisjoint(ks.table, ks.live, b, c, c);
        }
      }
    }
  }

  lemma {:induction false} FreeMore(t: seq<Entry>, t': seq<Entry>, i: nat)
    requires |t'| == |t| && forall j :: 0 <= j < |t| && IsFree(t[j]) ==> IsFree(t'[j])
    ensures HT.FreeFrom(t', i) >= HT.FreeFrom(t, i)
    decreases |t| - i
  {
    if i < |t| { FreeMore(t, t', i + 1); }
  }

  /** Blocks in front of m belong to nobody and stay taken. */
  lemma StillTaken(k: Kernel, b: nat, m: nat, base: Kernel, h: nat, j: nat)
    requires Two(k, m + 1, b, m) && Empty(base, m, h) && j < m
    requires forall c, l :: c != m && Spare(base, c, l) ==> Spare(k, c, l)
    ensures var ks := ApplyTerminate(k, 0).o.sys.ks; j < |ks.table| && !IsFree(ks.table[j])
  {
    hide OInv, Inv, ApplyExit, Claims, PrevOf, NextOf, FreeAt, Refines, TasksOk, StoreNext, IsFree;
    InvOf(base.o);
    SystemOk(base.o.sys);
    FreeMeansUncovered(base.o.sys.ks.table, base.o.sys.ks.live, j);
    var s: nat :| Covers(base.o.sys.ks.live, s, j);
    LiveIsCovered(base.o.sys.ks, s, s);
    assert Spare(base, s, base.o.sys.ks.live[s]);
    InvOf(k.o);
    ExitKeepsLoose(k.o, 0, s);
    FirstGone(k, b, m);
    LiveIsCovered(ApplyTerminate(k, 0).o.sys.ks, s, j);
  }

  /** The first one ends: blocks m and m + 1 are the first free ones, and the prev link of the second is stale. */
  lemma FirstEnds(k: Kernel, b: nat, m: nat, base: Kernel, h: nat)
    requires Two(k, m + 1, b, m) && HT.FreeFrom(k.o.sys.ks.table, 0) > SPACE_BLOCKS + 1
    requires Empty(base, m, h) && forall c, l :: c != m && Spare(base, c, l) ==> Spare(k, c, l)
    ensures Runs(k, [Terminate(0)])
    ensures var r := After(k, [Terminate(0)]);
      && KInv(r) && r.tasks == [b] && r.tail == AddressOf(b) && r.head == AddressOf(b) && PrevOf(r, 0) == AddressOf(m + 1)
      && Hole(r.o.sys.ks.table, m, m + 2) && HT.FreeFrom(r.o.sys.ks.table, 0) > SPACE_BLOCKS
  {
    hide OInv, TasksOk, Runs, After, HT.FreeFrom, PrevOf, NextOf, UnlinkFits, Hole, Spare, Refines, Empty, IsFree, Unlinked;
    NullPrevFits(k, 0);
    TwoDiffer(k, m + 1, b);
    OneStep(k, Terminate(0));
    TerminateLinks(k, 0, 1);
    var r := ApplyTerminate(k, 0);
    FirstGone(k, b, m);
    FewerRuns(k.o.sys.ks, r.o.sys.ks, m);
    FewerRuns(k.o.sys.ks, r.o.sys.ks, m + 1);
    FreeMore(k.o.sys.ks.table, r.o.sys.ks.table, 0);
    forall j | 0 <= j < m ensures !IsFree(r.o.sys.ks.table[j]) { StillTaken(k, b, m, base, h, j); }
    IsHole(r.o.sys.ks.table, m);
  }

  lemma IsHole(t: seq<Entry>, m: nat)
    requires m + 2 <= |t| && IsFree(t[m]) && IsFree(t[m + 1]) && forall j :: 0 <= j < m ==> !IsFree(t[j])
    ensures Hole(t, m, m + 2)
  {
    hide IsFree;
  }

  lemma TwoDiffer(k: Kernel, a: nat, b: nat)
    requires KInv(k) && k.tasks == [a, b]
    ensures a != b
  {
    hide OInv, TaskOk;
    assert k.tasks[0] != k.tasks[1];
  }

  /** The prev link names a frame that is a page directory by now. */
  lemma StaleStore(k: Kernel, a: nat)
    requires KInv(k) && |k.tasks| == 2 && PrevOf(k, 0) == AddressOf(a) && a < HEAP_BLOCKS
    requires k.o.sys.procs[1].chunk < FRAMES && Dir(k.o.sys.ks.mem, k.o.sys.procs[1].chunk) == FrameOf(a)
    ensures !UnlinkFits(k, 0)
  {
    hide OInv, TasksOk, PrevOf, NextOf, EntryAllowed, WordAt, P.Table, Dir, Link;
    assert !SpaceTakes(k.o, 1, FrameOf(a), NextOf(k, 0));
  }

  /**
    From every such kernel: all steps fit, no image is mapped, and then the end of the first process writes
    into the page directory of the other one, and ownership is lost.
   */
  lemma StaleLinkReachesPageDirectory(k: Kernel, m: nat, h: nat, ip: Word, process: Word)
    requires Empty(k, m, h)
    ensures var events := StaleSteps(m, ip, process);
      && Runs(k, events) && var r := After(k, events);
      && KInv(r) && |r.tasks| == 2 && LegalEvent(r, Terminate(0)) && !OInv(Apply(r, Terminate(0)).o)
      && |r.o.sys.procs| == 2 && r.o.sys.procs[1].chunk < FRAMES
      && PrevOf(r, 0) == AddressOf(m + 1) && Dir(r.o.sys.ks.mem, r.o.sys.procs[1].chunk) == FrameOf(m + 1)
  {
    hide OInv, TasksOk, Runs, After, Hole, HT.FreeFrom, Spare, NewChunk, ApplyNew, Dir, PrevOf, NextOf, UnlinkFits, ApplyTerminate;
    var e := NewTask(ip, process);
    var xs := [Alloc(PAGE_SIZE)] + [e] + [Do(Give(0, m))];
    FirstProcess(k, m, h, ip, process);
    var r3 := After(k, xs);
    SecondProcess(r3, m + 1, m, ip, process);
    var r4 := After(r3, [e]);
    FirstEnds(r4, r4.tasks[1], m, k, h);
    var r5 := After(r4, [Terminate(0)]);
    assert r5.tasks[0] in r5.tasks;
    NewTaskInHole(r5, m, m + 2, ip, process);
    var r6 := After(r5, [e]);
    NewTaskLinks(r5, ip, process, 0);
    AddedLast(r5, r6, NewChunk(r5.o));
    ThenRuns(k, xs, [e]);
    ThenRuns(k, xs + [e], [Terminate(0)]);
    ThenRuns(k, xs + [e] + [Terminate(0)], [e]);
    TerminateKeepsExactly(r6, 0);
    StaleStore(r6, m + 1);
  }
}
