/**
  process_load on memory: the allocations of the loader, the task with its address space and its place on
  the list, and the mapping of image and stack, as steps of the kernel. All processes that were there stay
  as they are.
 */
module ProcessLoading {
  import opened HeapTable
  import opened Memory
  import opened KernelState
  import opened KernelMachine
  import opened AddressSpace
  import opened ProcessMemory
  import opened Processes
  import opened AllocationRoom
  import opened Chunks
  import opened ProgramImage
  import opened Ownership
  import opened TaskLinks
  import opened KernelRuns
  import opened TaskMachine
  import I = Isolation
  import HT = HeapTheory
  import P = Paging

  // ---------------------------------------------------------------- room for a load

  /** Blocks that allocations of these sizes take. */
  ghost function LoadBlocks(sizes: seq<nat>): nat
    requires forall i :: 0 <= i < |sizes| ==> sizes[i] < WORD_LIMIT
  {
    if sizes == [] then 0 else BlocksFor(sizes[0]) + LoadBlocks(sizes[1..])
  }

  /** First fit serves allocations of these sizes in turn, and a task with its address space behind them. */
  ghost predicate LoadFits(t: seq<Entry>, sizes: seq<nat>)
    decreases |sizes|
  {
    if sizes == [] then HT.FreeFrom(t, 0) > SPACE_BLOCKS
    else
      && 0 < sizes[0] <= 0xFFFF_F000 && HasRun(t, BlocksFor(sizes[0]))
      && LoadFits(TakeFirst(t, BlocksFor(sizes[0])), sizes[1..])
  }

  lemma LoadSizes(t: seq<Entry>, sizes: seq<nat>)
    requires LoadFits(t, sizes)
    ensures forall i :: 0 <= i < |sizes| ==> sizes[i] < WORD_LIMIT
    decreases |sizes|
  {
    hide TakeFirst, HasRun, BlocksFor, HT.FreeFrom;
    if sizes != [] { LoadSizes(TakeFirst(t, BlocksFor(sizes[0])), sizes[1..]); }
  }

  // ---------------------------------------------------------------- allocations of the loader

  /** Different spare runs, of the lengths that these sizes need. */
  ghost predicate RunsFor(kn: Kernel, blocks: seq<nat>, sizes: seq<nat>) {
    && |blocks| <= |sizes|
    && (forall i :: 0 <= i < |blocks| ==> sizes[i] < WORD_LIMIT && Spare(kn, blocks[i], BlocksFor(sizes[i])))
    && (forall i, j :: 0 <= i < j < |blocks| ==> blocks[i] != blocks[j])
  }

  /** The kernel with other heap and memory. */
  ghost function WithState(kn: Kernel, ks: KState): Kernel {
    kn.(o := kn.o.(sys := System(ks, kn.o.sys.procs)))
  }

  /** kzalloc of the next size. */
  lemma OneRunMore(kn: Kernel, blocks: seq<nat>, sizes: seq<nat>)
    requires KInv(kn) && RunsFor(kn, blocks, sizes) && |blocks| < |sizes|
    requires var size := sizes[|blocks|]; Serves(kn.o.sys.ks, size) && StartBlock(kn.o.sys.ks.table, BlocksFor(size)) >= 0
    ensures var size := sizes[|blocks|];
      var r, s := WithState(kn, Zalloc(kn.o.sys.ks, size)), StartBlock(kn.o.sys.ks.table, BlocksFor(size));
      KInv(r) && RunsFor(r, blocks + [s], sizes)
  {
    hide OInv, Inv, TasksOk, Refines, Fits, BlocksFor, StartBlock, I.Unclaimed, ApplyPlain;
    var size := sizes[|blocks|];
    AllocKeepsSpare(kn, size);
    var r := kn.(o := ApplyPlain(kn.o, I.KernelAlloc(size)));
    assert r == WithState(kn, Zalloc(kn.o.sys.ks, size));
    forall i | 0 <= i < |blocks| ensures Spare(r, blocks[i], BlocksFor(sizes[i])) {
      assert Spare(kn, blocks[i], BlocksFor(sizes[i]));
    }
  }

  lemma SomeBlocks(size: nat)
    requires 0 < size <= 0xFFFF_F000
    ensures BlocksFor(size) >= 1
  {
    AlignUpperIsLeastMultiple(size);
  }

  lemma ServedHere(ks: KState, size: nat)
    requires Ok(ks) && 0 < size <= 0xFFFF_F000 && HasRun(ks.table, BlocksFor(size))
    ensures Serves(ks, size) && BlocksFor(size) >= 1 && StartBlock(ks.table, BlocksFor(size)) >= 0
    ensures FreeRun(ks.table, StartBlock(ks.table, BlocksFor(size)), BlocksFor(size)) && Fits(ks.table, BlocksFor(size))
  {
    hide Refines, BlocksFor, StartBlock, HasRun, Fits, FreeRun;
    SomeBlocks(size);
    StartBlockFound(ks.table, BlocksFor(size));
  }

  /** One kzalloc of the loader. */
  method LoadOne(k: Machine, size: nat, ghost kn: Kernel, ghost blocks: seq<nat>, ghost sizes: seq<nat>)
    returns (address: nat, ghost r: Kernel, ghost block: nat)
    requires k.Valid() && KInv(kn) && kn.o.sys.ks == k.State() && RunsFor(kn, blocks, sizes)
    requires |blocks| < |sizes| && size == sizes[|blocks|]
    requires 0 < size <= 0xFFFF_F000 && HasRun(k.State().table, BlocksFor(size))
    modifies k.heap`live, k.heap.entries, k.ram
    ensures k.Valid() && KInv(r) && r == WithState(kn, k.State())
    ensures RunsFor(r, blocks + [block], sizes) && address == AddressOf(block)
    ensures k.State().table == TakeFirst(old(k.State()).table, BlocksFor(size))
    ensures HT.FreeFrom(k.State().table, 0) + BlocksFor(size) == HT.FreeFrom(old(k.State()).table, 0)
  {
    hide KInv, Refines, BlocksFor, StartBlock, Fits, HasRun, HT.FreeFrom, ZeroFill, RunsFor, FreeRun, Serves;
    ghost var ks, n := k.State(), BlocksFor(size);
    ServedHere(ks, size);
    TakeCounts(ks.table, StartBlock(ks.table, n), n, 0);
    OneRunMore(kn, blocks, sizes);
    address := k.KZalloc(size);
    block := StartBlock(ks.table, n);
    r := WithState(kn, k.State());
  }

  /** The allocations of process_load in their order: process structure, ELF structure, file contents, stack. */
  method LoadRuns(k: Machine, sizes: seq<nat>, ghost kn: Kernel) returns (addresses: seq<nat>, ghost r: Kernel, ghost blocks: seq<nat>)
    requires k.Valid() && KInv(kn) && kn.o.sys.ks == k.State() && LoadFits(k.State().table, sizes)
    modifies k.heap`live, k.heap.entries, k.ram
    ensures k.Valid() && KInv(r) && r == WithState(kn, k.State())
    ensures RunsFor(r, blocks, sizes) && |blocks| == |sizes| == |addresses|
    ensures forall i :: 0 <= i < |sizes| ==> addresses[i] == AddressOf(blocks[i])
    ensures forall i :: 0 <= i < |sizes| ==> sizes[i] < WORD_LIMIT
    ensures HT.FreeFrom(k.State().table, 0) > SPACE_BLOCKS
    ensures HT.FreeFrom(k.State().table, 0) + LoadBlocks(sizes) == HT.FreeFrom(old(k.State()).table, 0)
  {
    hide KInv, Refines, BlocksFor, HasRun, HT.FreeFrom, TakeFirst, RunsFor, AddressOf;
    LoadSizes(k.State().table, sizes);
    ghost var free := HT.FreeFrom(k.State().table, 0);
    addresses, r, blocks := [], kn, [];
    NoRuns(kn, sizes);
    assert sizes[0..] == sizes;
    var i := 0;
    while i < |sizes|
      invariant 0 <= i <= |sizes| && k.Valid() && LoadFits(k.State().table, sizes[i..])
      invariant KInv(r) && r == WithState(kn, k.State())
      invariant RunsFor(r, blocks, sizes) && |blocks| == |addresses| == i
      invariant forall j :: 0 <= j < i ==> addresses[j] == AddressOf(blocks[j])
      invariant HT.FreeFrom(k.State().table, 0) + LoadBlocks(sizes) == free + LoadBlocks(sizes[i..])
    {
      assert sizes[i..][1..] == sizes[i + 1..] && sizes[i..][0] == sizes[i];
      ghost var block;
      var address;
      address, r, block := LoadOne(k, sizes[i], r, blocks, sizes);
      addresses, blocks := addresses + [address], blocks + [block];
      i := i + 1;
    }
  }

  lemma NoRuns(kn: Kernel, sizes: seq<nat>)
    ensures RunsFor(kn, [], sizes)
  {
  }

  // ---------------------------------------------------------------- image and stack

  /** The loaded file: program headers, or a flat binary. */
  datatype Program = Headers(phdrs: seq<Phdr>) | Flat

  function ImageAt(program: Program, address: nat, size: nat): Image {
    match program
    case Headers(phdrs) => Elf(address, phdrs)
    case Flat => Binary(address, size)
  }

  /** No address wraps, wherever in the heap the file comes to lie. */
  ghost predicate Loadable(program: Program, size: nat) {
    forall b: nat :: b < HEAP_BLOCKS ==> ImageOk(ImageAt(program, AddressOf(b), size))
  }

  /** The image names no page of the window of heap addresses. */
  ghost predicate ClearOfWindow(image: Image)
    requires ImageOk(image)
  {
    forall p: nat :: p < FRAMES && InImage(image, p) ==> OutsideWindow(p)
  }

  /** The same wherever the file comes to lie. */
  ghost predicate StaysClear(program: Program, size: nat) {
    Loadable(program, size) && forall b: nat :: b < HEAP_BLOCKS ==> ClearOfWindow(ImageAt(program, AddressOf(b), size))
  }

  /** Indices of runs that process_terminate gives back: file, stack, and for an ELF file its structure. */
  ghost predicate KeptAt(kept: seq<nat>, sizes: seq<nat>, fileAt: nat, stackAt: nat) {
    && (forall i :: 0 <= i < |kept| ==> kept[i] < |sizes|) && (forall i, j :: 0 <= i < j < |kept| ==> kept[i] != kept[j])
    && fileAt in kept && stackAt in kept && fileAt < |sizes| && stackAt < |sizes| && sizes[stackAt] == STACK_SIZE
  }

  ghost function KeptBlocks(kept: seq<nat>, blocks: seq<nat>): (r: seq<nat>)
    requires forall i :: 0 <= i < |kept| ==> kept[i] < |blocks|
    ensures |r| == |kept| && forall i :: 0 <= i < |kept| ==> r[i] == blocks[kept[i]]
  {
    seq(|kept|, i requires 0 <= i < |kept| => blocks[kept[i]])
  }

  /** After the allocations: the new process is the last one, with a task of its own, and it holds these runs. */
  ghost predicate Placed(kn: Kernel, r: Kernel, p: Proc, runs: seq<nat>, file: nat, size: nat, stack: nat)
    requires size < WORD_LIMIT
  {
    && KInv(r) && r.o.sys.procs == kn.o.sys.procs + [p] && r.o.held == kn.o.held + [runs] && |kn.o.held| == |kn.o.sys.procs|
    && |r.tasks| == |kn.tasks| + 1 && r.tasks[..|kn.tasks|] == kn.tasks && r.tail == AddressOf(r.tasks[|kn.tasks|])
    && p.chunk < FRAMES && p.allocs == NoAllocs() && ViewAt(r.o.sys.ks.mem, p.chunk) == P.Identity(P.USER_READ)
    && file in runs && stack in runs && file in r.o.sys.ks.live && r.o.sys.ks.live[file] == BlocksFor(size)
    && stack in r.o.sys.ks.live && r.o.sys.ks.live[stack] == STACK_SIZE / PAGE_SIZE
  }

  /** The task at the tail of the list: its directory, where it starts, its process, and its place at the end. */
  ghost predicate Starts(m: Ram, tail: nat, p: Proc, ip: nat, process: nat, prev: nat) {
    tail / 0x1000 < FRAMES && Structure(m[tail / 0x1000], p.chunk * 0x1000, ip, process, 0, prev)
  }

  /** The last task lies at the tail, in a run that no process claims. */
  ghost predicate TailApart(sys: System, tasks: seq<nat>, tail: nat) {
    && tasks != [] && var b := tasks[|tasks| - 1];
    && b < HEAP_BLOCKS && tail == AddressOf(b) && b in sys.ks.live && I.Unclaimed(sys, FrameOf(b))
  }

  /** A run of the length for this size, which no process claims. */
  ghost predicate RunIn(sys: System, b: nat, size: nat)
    requires size < WORD_LIMIT
  {
    b in sys.ks.live && sys.ks.live[b] == BlocksFor(size) && I.Unclaimed(sys, FrameOf(b))
  }

  /** Such a run starts at the address. */
  ghost predicate RunAt(sys: System, address: nat, size: nat) {
    && size < WORD_LIMIT && HEAP_ADDRESS <= address < 0x1_0000_0000 && address % PAGE_SIZE == 0
    && RunIn(sys, (address - HEAP_ADDRESS) / PAGE_SIZE, size)
  }

  lemma RunIsAt(sys: System, b: nat, size: nat)
    requires Ok(sys.ks) && size < WORD_LIMIT && RunIn(sys, b, size)
    ensures AddressOf(b) < 0x1_0000_0000 && RunAt(sys, AddressOf(b), size)
  {
    hide Refines, BlocksFor, I.Unclaimed;
    LiveInHeap(sys.ks, b);
  }

  /** task_new on a list in order, and the process becomes the holder of the runs. */
  ghost function Taken(kn: Kernel, ip: Word, process: Word, runs: seq<nat>): Kernel
    requires KInv(kn) && LegalEvent(kn, NewTask(ip, process)) && TailOk(kn)
  {
    hide OInv, Adds, TailOk, Dir, HT.FreeFrom;
    NewTaskAdds(kn, ip, process);
    var r := ApplyNew(kn, ip, process);
    r.(o := Owned(r.o.sys, kn.o.held + [runs]))
  }

  lemma TakenIsPlaced(kn: Kernel, ip: Word, process: Word, blocks: seq<nat>, sizes: seq<nat>, kept: seq<nat>, fileAt: nat, stackAt: nat)
    requires KInv(kn) && LegalEvent(kn, NewTask(ip, process)) && TailOk(kn)
    requires RunsFor(kn, blocks, sizes) && |blocks| == |sizes| && KeptAt(kept, sizes, fileAt, stackAt) && sizes[fileAt] < WORD_LIMIT
    ensures 0 <= NewChunk(kn.o) < FRAMES
    ensures Placed(kn, Taken(kn, ip, process, KeptBlocks(kept, blocks)), Proc(NewChunk(kn.o), NoAllocs()),
                   KeptBlocks(kept, blocks), blocks[fileAt], sizes[fileAt], blocks[stackAt])
    ensures HT.FreeFrom(Taken(kn, ip, process, KeptBlocks(kept, blocks)).o.sys.ks.table, 0) + SPACE_BLOCKS + 1 == HT.FreeFrom(kn.o.sys.ks.table, 0)
    ensures var sys := ApplyNew(kn, ip, process).o.sys;
      forall i :: 0 <= i < |sizes| ==> sizes[i] < WORD_LIMIT && RunIn(sys, blocks[i], sizes[i])
  {
    hide OInv, TasksOk, ApplyNew, HT.FreeFrom, ViewAt, P.Identity, I.Unclaimed, RunsFor, BlocksFor, NewChunk, Dir, DirectoryBlock, TailOk, Spare, KeptAt, TaskBlock, LooseStays, Open;
    KeptInside(kept, sizes, fileAt, stackAt);
    var runs := KeptBlocks(kept, blocks);
    NewTaskAdds(kn, ip, process);
    NewTaskKeepsSpare(kn, ip, process);
    InvOf(kn.o);
    var r := ApplyNew(kn, ip, process);
    NewTaskOnList(kn, ip, process);
    KeptAreSpare(kn, r, blocks, sizes, kept, fileAt, stackAt);
    LastHolds(r, kn.o.held, runs);
    StackBlocks();
  }

  lemma LastHolds(r: Kernel, held: seq<seq<nat>>, runs: seq<nat>)
    requires KInv(r) && r.o.held == held + [[]] && (forall x, y :: 0 <= x < y < |runs| ==> runs[x] != runs[y])
    requires forall b :: b in runs ==> b in r.o.sys.ks.live && Spare(r, b, r.o.sys.ks.live[b])
    ensures KInv(r.(o := Owned(r.o.sys, held + [runs])))
  {
    hide KInv, Spare;
    GivenKeeps(r, |held|, runs);
    assert r.o.held[|held|] + runs == runs && r.o.held[|held| := runs] == held + [runs];
  }

  lemma KeptInside(kept: seq<nat>, sizes: seq<nat>, fileAt: nat, stackAt: nat)
    requires KeptAt(kept, sizes, fileAt, stackAt)
    ensures (forall i :: 0 <= i < |kept| ==> kept[i] < |sizes|) && fileAt < |sizes| && stackAt < |sizes| && sizes[stackAt] == STACK_SIZE
  {
  }

  lemma NewTaskOnList(kn: Kernel, ip: Word, process: Word)
    requires KInv(kn) && LegalEvent(kn, NewTask(ip, process))
    ensures var r, b := ApplyNew(kn, ip, process), TaskBlock(kn.o);
      0 <= b < HEAP_BLOCKS && r.tasks == kn.tasks + [b] && r.tail == AddressOf(b)
  {
    hide OInv, Born, TasksOk, TaskBlock;
    BornIs(kn, ip, process);
  }

  /** The store through task_tail does not hit the new structure. */
  lemma TailIsOther(kn: Kernel, ip: Word, process: Word)
    requires KInv(kn) && LegalEvent(kn, NewTask(ip, process)) && TailOk(kn)
    ensures 0 <= TaskBlock(kn.o) < HEAP_BLOCKS && (kn.head != 0 ==> kn.tail != AddressOf(TaskBlock(kn.o)))
    ensures var r := ApplyNew(kn, ip, process); KInv(r) && TailApart(r.o.sys, r.tasks, r.tail)
  {
    hide OInv, TaskBlock, TailOk, ApplyNew, Dir, Adds, HT.FreeFrom, LooseFrame, TaskPage;
    NewTaskAdds(kn, ip, process);
    NewTaskOnList(kn, ip, process);
    var r, b := ApplyNew(kn, ip, process), TaskBlock(kn.o);
    LastOfList(r, kn.tasks, b);
    if kn.head != 0 { TailInList(kn, b); }
  }

  lemma LastOfList(r: Kernel, tasks: seq<nat>, b: nat)
    requires KInv(r) && r.tasks == tasks + [b] && r.tail == AddressOf(b)
    ensures b !in tasks && TailApart(r.o.sys, r.tasks, r.tail)
  {
    hide OInv, TaskPage, I.Unclaimed;
    assert r.tasks[|tasks|] == b && TaskOk(r.o, r.tasks[|tasks|]);
    forall i | 0 <= i < |tasks| ensures tasks[i] != b { assert r.tasks[i] == tasks[i]; }
  }

  lemma TailInList(kn: Kernel, b: nat)
    requires TailOk(kn) && kn.head != 0 && b !in kn.tasks
    ensures kn.tail != AddressOf(b)
  {
  }

  lemma KeptAreSpare(kn: Kernel, r: Kernel, blocks: seq<nat>, sizes: seq<nat>, kept: seq<nat>, fileAt: nat, stackAt: nat)
    requires RunsFor(kn, blocks, sizes) && |blocks| == |sizes| && KeptAt(kept, sizes, fileAt, stackAt)
    requires forall b, l :: Spare(kn, b, l) ==> Spare(r, b, l)
    ensures var runs := KeptBlocks(kept, blocks);
      && (forall x, y :: 0 <= x < y < |runs| ==> runs[x] != runs[y])
      && (forall b :: b in runs ==> b in r.o.sys.ks.live && Spare(r, b, r.o.sys.ks.live[b]))
      && blocks[fileAt] in runs && blocks[stackAt] in runs
    ensures sizes[fileAt] < WORD_LIMIT && forall i :: 0 <= i < |sizes| ==>
      sizes[i] < WORD_LIMIT && RunIn(r.o.sys, blocks[i], sizes[i])
  {
    hide BlocksFor, I.Unclaimed;
    var runs := KeptBlocks(kept, blocks);
    forall i | 0 <= i < |sizes| ensures Spare(r, blocks[i], BlocksFor(sizes[i])) { assert Spare(kn, blocks[i], BlocksFor(sizes[i])); }
    forall b | b in runs ensures b in r.o.sys.ks.live && Spare(r, b, r.o.sys.ks.live[b]) {
      var i :| 0 <= i < |runs| && runs[i] == b;
      assert Spare(r, blocks[kept[i]], BlocksFor(sizes[kept[i]]));
    }
    forall x, y | 0 <= x < y < |runs| ensures runs[x] != runs[y] {
      assert kept[x] != kept[y];
      assert if kept[x] < kept[y] then blocks[kept[x]] != blocks[kept[y]] else blocks[kept[y]] != blocks[kept[x]];
    }
    var i, j :| 0 <= i < |kept| && kept[i] == fileAt && 0 <= j < |kept| && kept[j] == stackAt;
    assert runs[i] == blocks[fileAt] && runs[j] == blocks[stackAt];
  }

  lemma StackBlocks()
    ensures BlocksFor(STACK_SIZE) == STACK_SIZE / PAGE_SIZE
  {
    AlignUpperIsLeastMultiple(STACK_SIZE);
  }

  /** The image of the new process at the address of its file, with its stack, can be mapped. */
  lemma PlacedIsMappable(kn: Kernel, r: Kernel, p: Proc, runs: seq<nat>, file: nat, size: nat, stack: nat, program: Program)
    requires size < WORD_LIMIT && Placed(kn, r, p, runs, file, size, stack) && Loadable(program, size)
    ensures Mappable(r.o, |kn.o.held|, ImageAt(program, AddressOf(file), size), AddressOf(stack))
  {
    hide OInv, TasksOk, Refines, ViewAt, P.Identity, ImageOk, BlocksFor, Open;
    Parts(r.o, |kn.o.held|);
    LiveInHeap(r.o.sys.ks, file);
    LiveInHeap(r.o.sys.ks, stack);
  }

  /** The process of the new task, with its empty slots. */
  method NewProcess(k: Machine, ends: TaskEnds, ip: Word, process: Word, ghost kn: Kernel,
                    ghost blocks: seq<nat>, ghost sizes: seq<nat>, ghost kept: seq<nat>, ghost fileAt: nat, ghost stackAt: nat)
    returns (p: Process, ghost r: Kernel)
    requires k.Valid() && KInv(kn) && kn.o.sys.ks == k.State() && kn.head == ends.head && kn.tail == ends.tail && TailOk(kn)
    requires RunsFor(kn, blocks, sizes) && |blocks| == |sizes| && KeptAt(kept, sizes, fileAt, stackAt) && sizes[fileAt] < WORD_LIMIT
    requires HT.FreeFrom(k.State().table, 0) > SPACE_BLOCKS
    modifies k.heap`live, k.heap.entries, k.ram, ends
    ensures k.Valid() && fresh(p) && fresh(p.allocations) && p.Valid() && r.o.sys.ks == k.State() && r.head == ends.head && r.tail == ends.tail
    ensures Placed(kn, r, p.Model(), KeptBlocks(kept, blocks), blocks[fileAt], sizes[fileAt], blocks[stackAt])
    ensures HT.FreeFrom(k.State().table, 0) + SPACE_BLOCKS + 1 == HT.FreeFrom(old(k.State()).table, 0)
    ensures Starts(k.Mem(), r.tail, p.Model(), ip, process, if kn.head == 0 then 0 else kn.tail)
    ensures TailApart(r.o.sys, r.tasks, r.tail)
    ensures forall i :: 0 <= i < |sizes| ==> sizes[i] < WORD_LIMIT && RunIn(r.o.sys, blocks[i], sizes[i])
  {
    hide KInv, OInv, TasksOk, Structure, TailApart, RunIn, Refines, HT.FreeFrom, Placed, NewChunk, ApplyNew, TailOk, RunsFor, KeptAt, KeptBlocks, TaskBlock;
    KeptInside(kept, sizes, fileAt, stackAt);
    TakenIsPlaced(kn, ip, process, blocks, sizes, kept, fileAt, stackAt);
    TailIsOther(kn, ip, process);
    var task, chunk := TaskNew(k, ends, ip, process, kn);
    p := new Process(chunk / PAGE_SIZE);
    assert p.allocations[..] == NoAllocs();
    r := Taken(kn, ip, process, KeptBlocks(kept, blocks));
    assert r.tail == task && r.o.sys.procs == ApplyNew(kn, ip, process).o.sys.procs;
  }

  /** process_map_memory for the last process: ownership holds exactly when the image fits, the rest when it misses the window. */
  method MapProgram(k: Machine, p: Process, image: Image, stackAddress: nat, ghost r: Owned, ghost i: nat)
    requires k.Valid() && p.Valid() && OInv(r) && r.sys.ks == k.State() && i < |r.sys.procs| && p.Model() == r.sys.procs[i]
    requires Mappable(r, i, image, stackAddress)
    modifies k.ram
    ensures k.Valid() && k.State() == ApplyMap(r, i, image, stackAddress).sys.ks
    ensures p.chunk < FRAMES && ViewAt(k.Mem(), p.chunk) == MapImage(old(ViewAt(k.Mem(), p.chunk)), image, stackAddress)
    ensures OInv(ApplyMap(r, i, image, stackAddress)) <==> ImageFits(r, i, image)
    ensures ClearOfWindow(image) ==> Inv(System(k.State(), r.sys.procs))
    ensures forall b: nat :: b < HEAP_BLOCKS && LooseFrame(r, FrameOf(b)) ==> k.Mem()[FrameOf(b)] == old(k.Mem())[FrameOf(b)]
    ensures k.State().live == old(k.State()).live
    ensures ClearOfWindow(image) ==>
      forall b: nat :: b in k.State().live && I.Unclaimed(r.sys, FrameOf(b)) ==> I.Unclaimed(System(k.State(), r.sys.procs), FrameOf(b))
  {
    hide LooseFrame, I.Unclaimed, I.Kept, OInv, Inv, Refines, SpaceAt, ViewAt, Footprint, ImageOk, ImageFits, MapImageMem, MapImage, Remapped, ClearOfWindow, Open;
    MapKeepsOwnershipExactlyWhenImageFits(r, i, image, stackAddress);
    Parts(r, i);
    ProcSpace(r.sys.ks, r.sys.procs[i]);
    ghost var m := k.Mem();
    var res := ProcessMapMemory(k, p.chunk, image, stackAddress);
    RemapKeepsInv(r.sys, i, k.Mem(), MapImage(ViewAt(m, p.chunk), image, stackAddress));
    if ClearOfWindow(image) { ClearKeepsWindow(ViewAt(m, p.chunk), image, stackAddress); }
    RemappedSpace(m, k.Mem(), p.chunk, MapImage(ViewAt(m, p.chunk), image, stackAddress));
    forall b: nat | b < HEAP_BLOCKS && LooseFrame(r, FrameOf(b)) ensures k.Mem()[FrameOf(b)] == m[FrameOf(b)] {
      MapKeepsPage(r, i, image, stackAddress, FrameOf(b));
    }
    if ClearOfWindow(image) { AllStayUnclaimed(r.sys, System(k.State(), r.sys.procs)); }
  }

  lemma AllStayUnclaimed(sys: System, sys': System)
    requires sys'.procs == sys.procs && sys'.ks.live == sys.ks.live && forall j :: 0 <= j < |sys.procs| ==> I.Kept(sys, sys', j)
    ensures forall b: nat :: b in sys'.ks.live && I.Unclaimed(sys, FrameOf(b)) ==> I.Unclaimed(sys', FrameOf(b))
  {
    hide I.Kept, I.Unclaimed;
    forall b: nat | b in sys'.ks.live && I.Unclaimed(sys, FrameOf(b)) ensures I.Unclaimed(sys', FrameOf(b)) {
      StaysUnclaimed(sys, sys', FrameOf(b));
    }
  }

  lemma ClearKeepsWindow(view: P.View, image: Image, stack: nat)
    requires ImageOk(image) && ClearOfWindow(image) && stack % PAGE_SIZE == 0 && stack + STACK_SIZE <= 0xFFFF_F000
    requires WindowOk(view, NoAllocs())
    ensures WindowOk(MapImage(view, image, stack), NoAllocs())
  {
    hide WindowOk, MapImage, InImage, ImageOk, ImageEntry;
    EmptyWindow(view);
    EmptyWindow(MapImage(view, image, stack));
    forall g: nat | HEAP_FRAME <= g < HEAP_FRAME + HEAP_BLOCKS ensures MapImage(view, image, stack)[g] == view[g] {
      ImageView(view, image, stack, g);
    }
  }

  /**
    process_load: the allocations of these sizes, the task, the mapping. The process holds the runs of its
    file and its stack, and sees its image and its stack; its task starts at the entry of the image, and the
    task names the first allocation as its process. Ownership is kept if and only if the image fits.
    An image that misses the heap window at least keeps what every process has.
   */
  method LoadProcess(k: Machine, ends: TaskEnds, sizes: seq<nat>, program: Program, fileAt: nat, stackAt: nat, entry: Word,
                     ghost kept: seq<nat>, ghost kn: Kernel)
    returns (p: Process, process: nat, ghost r: Kernel, ghost runs: seq<nat>, ghost file: nat, ghost stack: nat)
    requires k.Valid() && KInv(kn) && kn.o.sys.ks == k.State() && kn.head == ends.head && kn.tail == ends.tail && TailOk(kn)
    requires LoadFits(k.State().table, sizes) && KeptAt(kept, sizes, fileAt, stackAt) && Loadable(program, sizes[fileAt])
    modifies k.heap`live, k.heap.entries, k.ram, ends
    ensures k.Valid() && fresh(p) && fresh(p.allocations) && p.Valid() && p.Model().allocs == NoAllocs()
    ensures sizes[fileAt] < WORD_LIMIT && Placed(kn, r, p.Model(), runs, file, sizes[fileAt], stack) && |runs| == |kept|
    ensures r.head == ends.head && r.tail == ends.tail
    ensures var image := ImageAt(program, AddressOf(file), sizes[fileAt]);
      && Mappable(r.o, |kn.o.held|, image, AddressOf(stack)) && OInv(r.o)
      && k.State() == ApplyMap(r.o, |kn.o.held|, image, AddressOf(stack)).sys.ks
      && (OInv(ApplyMap(r.o, |kn.o.held|, image, AddressOf(stack))) <==> ImageFits(r.o, |kn.o.held|, image))
      && (ClearOfWindow(image) ==>
           var sys := System(k.State(), kn.o.sys.procs + [p.Model()]); Inv(sys) && TailApart(sys, r.tasks, r.tail) && RunAt(sys, process, sizes[0]))
      && ViewAt(k.Mem(), p.chunk) == MapImage(P.Identity(P.USER_READ), image, AddressOf(stack))
    ensures Starts(k.Mem(), r.tail, p.Model(), if program.Flat? then 0x40_0000 else entry, process, if kn.head == 0 then 0 else kn.tail)
    ensures forall i :: 0 <= i < |sizes| ==> sizes[i] < WORD_LIMIT
    ensures HT.FreeFrom(k.State().table, 0) + LoadBlocks(sizes) + SPACE_BLOCKS + 1 == HT.FreeFrom(old(k.State()).table, 0)
  {
    hide Starts, TailApart, RunAt, RunIn, LooseFrame, I.Unclaimed, KInv, OInv, Inv, Refines, HT.FreeFrom, LoadFits, LoadBlocks, RunsFor, ViewAt, P.Identity, Placed, Mappable, MapImage, ImageFits, ApplyMap, ClearOfWindow, Loadable, AddressOf, BlocksFor, TailOk, KeptAt, KeptBlocks, Open;
    KeptInside(kept, sizes, fileAt, stackAt);
    ghost var k1, blocks;
    var addresses;
    addresses, k1, blocks := LoadRuns(k, sizes, kn);
    SameTail(kn, k1);
    process := addresses[0];
    var ip := if program.Flat? then PROGRAM_VIRTUAL_ADDRESS else entry;
    FirstAddress(k1, blocks, sizes);
    p, r := NewProcess(k, ends, ip, process, k1, blocks, sizes, kept, fileAt, stackAt);
    runs, file, stack := KeptBlocks(kept, blocks), blocks[fileAt], blocks[stackAt];
    KeptCount(kept, blocks);
    PlacedOver(kn, k1, r, p.Model(), runs, file, sizes[fileAt], stack);
    PlacedIsMappable(kn, r, p.Model(), runs, file, sizes[fileAt], stack, program);
    var image := ImageAt(program, addresses[fileAt], sizes[fileAt]);
    PlacedParts(kn, r, p.Model(), runs, file, sizes[fileAt], stack);
    ghost var m := k.Mem();
    OkOf(r);
    RunIsAt(r.o.sys, blocks[0], sizes[0]);
    MapProgram(k, p, image, addresses[stackAt], r.o, |kn.o.held|);
    TailPage(r);
    StartsStill(m, k.Mem(), r.tail, p.Model(), ip, process, if kn.head == 0 then 0 else kn.tail);
    MappableImage(r.o, |kn.o.held|, image, addresses[stackAt]);
    if ClearOfWindow(image) { StillApart(r, System(k.State(), kn.o.sys.procs + [p.Model()]), process, sizes[0]); }
  }

  lemma MappableImage(o: Owned, i: nat, image: Image, stack: nat)
    requires Mappable(o, i, image, stack)
    ensures ImageOk(image)
  {
    hide ImageOk;
  }

  lemma TailPage(r: Kernel)
    requires KInv(r) && TailApart(r.o.sys, r.tasks, r.tail)
    ensures r.tasks != [] && var b := r.tasks[|r.tasks| - 1];
      b < HEAP_BLOCKS && LooseFrame(r.o, FrameOf(b)) && r.tail / PAGE_SIZE == FrameOf(b)
  {
    hide OInv, LooseFrame, TaskPage, I.Unclaimed;
    assert TaskOk(r.o, r.tasks[|r.tasks| - 1]);
  }

  lemma StartsStill(m: Ram, m': Ram, tail: nat, p: Proc, ip: nat, process: nat, prev: nat)
    requires Starts(m, tail, p, ip, process, prev) && tail / PAGE_SIZE < FRAMES && m'[tail / PAGE_SIZE] == m[tail / PAGE_SIZE]
    ensures Starts(m', tail, p, ip, process, prev)
  {
    hide Structure;
  }

  lemma StillApart(r: Kernel, sys: System, process: nat, size: nat)
    requires TailApart(r.o.sys, r.tasks, r.tail) && RunAt(r.o.sys, process, size) && sys.ks.live == r.o.sys.ks.live
    requires forall b: nat :: b in sys.ks.live && I.Unclaimed(r.o.sys, FrameOf(b)) ==> I.Unclaimed(sys, FrameOf(b))
    ensures TailApart(sys, r.tasks, r.tail) && RunAt(sys, process, size)
  {
    hide I.Unclaimed, BlocksFor;
  }

  lemma OkOf(kn: Kernel)
    requires KInv(kn)
    ensures Ok(kn.o.sys.ks)
  {
    hide Refines, ProcOk, HeldOk, WritesOk, TasksOk;
  }

  lemma FirstAddress(kn: Kernel, blocks: seq<nat>, sizes: seq<nat>)
    requires KInv(kn) && RunsFor(kn, blocks, sizes) && |blocks| == |sizes| > 0
    ensures AddressOf(blocks[0]) < 0x1_0000_0000
  {
    hide OInv, TasksOk, BlocksFor, I.Unclaimed, Refines;
    assert Spare(kn, blocks[0], BlocksFor(sizes[0]));
    OkOf(kn);
    LiveInHeap(kn.o.sys.ks, blocks[0]);
  }

  lemma KeptCount(kept: seq<nat>, blocks: seq<nat>)
    requires forall i :: 0 <= i < |kept| ==> kept[i] < |blocks|
    ensures |KeptBlocks(kept, blocks)| == |kept|
  {
  }

  lemma SameTail(kn: Kernel, r: Kernel)
    requires TailOk(kn) && r.tasks == kn.tasks && r.head == kn.head && r.tail == kn.tail
    ensures TailOk(r)
  {
  }

  lemma PlacedOver(kn: Kernel, k1: Kernel, r: Kernel, p: Proc, runs: seq<nat>, file: nat, size: nat, stack: nat)
    requires size < WORD_LIMIT && Placed(k1, r, p, runs, file, size, stack)
    requires k1.o.sys.procs == kn.o.sys.procs && k1.o.held == kn.o.held && k1.tasks == kn.tasks
    ensures Placed(kn, r, p, runs, file, size, stack)
  {
    hide KInv, ViewAt, P.Identity, BlocksFor, Open;
  }

  lemma PlacedParts(kn: Kernel, r: Kernel, p: Proc, runs: seq<nat>, file: nat, size: nat, stack: nat)
    requires size < WORD_LIMIT && Placed(kn, r, p, runs, file, size, stack)
    ensures KInv(r) && OInv(r.o) && |r.o.sys.procs| == |kn.o.held| + 1 && r.o.sys.procs[|kn.o.held|] == p && r.o.sys.procs == kn.o.sys.procs + [p]
    ensures p.chunk < FRAMES && p.allocs == NoAllocs() && ViewAt(r.o.sys.ks.mem, p.chunk) == P.Identity(P.USER_READ)
    ensures |r.o.held| == |kn.o.held| + 1 && |r.tasks| == |kn.tasks| + 1
  {
    hide OInv, TasksOk, ViewAt, P.Identity, BlocksFor, Open;
  }

  lemma ClearIsLoadable(program: Program, size: nat)
    requires StaysClear(program, size)
    ensures Loadable(program, size)
  {
  }

  lemma PlacedClear(kn: Kernel, r: Kernel, p: Proc, runs: seq<nat>, file: nat, size: nat, stack: nat, program: Program)
    requires size < WORD_LIMIT && Placed(kn, r, p, runs, file, size, stack) && StaysClear(program, size)
    ensures ImageOk(ImageAt(program, AddressOf(file), size)) && ClearOfWindow(ImageAt(program, AddressOf(file), size))
  {
    hide OInv, TasksOk, Refines, ViewAt, P.Identity, ImageOk, BlocksFor, ClearOfWindow, Inv, ProcOk;
    Parts(r.o, |kn.o.held|);
    LiveInHeap(r.o.sys.ks, file);
  }

  lemma LastIsOk(sys: System)
    requires Inv(sys) && sys.procs != []
    ensures ProcOk(sys.ks, sys.procs[|sys.procs| - 1])
  {
    hide ProcOk;
  }
}
