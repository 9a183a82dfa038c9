/**
  From a typed line to the arguments of a new process: the shell parses the line into nodes of its
  own memory, the kernel loads a process, and the arguments are copied into the memory of that.
 */
module CommandRun {
  import opened Status
  import opened HeapTable
  import opened Memory
  import opened KernelState
  import opened KernelMachine
  import opened AddressSpace
  import opened ProcessMemory
  import opened Processes
  import opened AllocationRoom
  import opened Tokens
  import opened Command
  import opened Arguments
  import opened OwnMemory
  import opened ProgramImage
  import opened Ownership
  import opened TaskLinks
  import opened KernelRuns
  import opened TaskMachine
  import opened ProcessLoading
  import I = Isolation
  import HT = HeapTheory
  import P = Paging

  /** Work of one process on its own memory leaves every frame where it belongs. */
  lemma OwnWorkKeepsOwnership(o: Owned, i: nat, ks': KState, p': Proc)
    requires OInv(o) && i < |o.sys.procs| && OnlyOwn(o.sys.ks, o.sys.procs[i], ks', p') && ProcOk(ks', p')
    ensures OInv(Owned(System(ks', o.sys.procs[i := p']), o.held))
  {
    hide OInv, Inv, Refines, ProcOk, Footprint, SameOutside, Owns, TakenFrame, I.AllKeptOutside, I.Unclaimed;
    InvOf(o);
    OwnWorkKeepsOthers(o.sys, i, ks', p');
    forall j, b | 0 <= j < |o.held| && b in o.held[j]
      ensures b in o.sys.ks.live && b in ks'.live && ks'.live[b] == o.sys.ks.live[b]
    {
      HeldIsLive(o, j, b);
    }
    Transport(o, System(ks', o.sys.procs[i := p']));
  }

  /** And every task structure as it is. */
  lemma OwnWorkKeepsKernel(kn: Kernel, i: nat, ks': KState, p': Proc)
    requires KInv(kn) && i < |kn.o.sys.procs| && OnlyOwn(kn.o.sys.ks, kn.o.sys.procs[i], ks', p') && ProcOk(ks', p')
    ensures KInv(kn.(o := Owned(System(ks', kn.o.sys.procs[i := p']), kn.o.held)))
  {
    hide OInv, Inv, Refines, ProcOk, OnlyOwn, TaskPage, I.Unclaimed, I.AllKeptOutside, Claims;
    var r := kn.(o := Owned(System(ks', kn.o.sys.procs[i := p']), kn.o.held));
    OwnWorkKeepsOwnership(kn.o, i, ks', p');
    InvOf(kn.o);
    OwnWorkKeepsOthers(kn.o.sys, i, ks', p');
    forall j | 0 <= j < |kn.tasks| ensures TaskOk(r.o, kn.tasks[j]) {
      assert TaskOk(kn.o, kn.tasks[j]) && FrameOf(kn.tasks[j]) - HEAP_FRAME == kn.tasks[j];
      KeptAll(kn.o.sys, r.o.sys);
      StaysUnclaimed(kn.o.sys, r.o.sys, FrameOf(kn.tasks[j]));
      OwnWorkElsewhere(kn.o.sys, i, ks', p', kn.tasks[j]);
    }
  }

  lemma KeptAll(sys: System, sys': System)
    requires I.AllKeptOutside(sys, sys') && |sys'.procs| == |sys.procs|
    ensures forall j :: 0 <= j < |sys'.procs| ==> j < |sys.procs| && I.Kept(sys, sys', j)
  {
    hide Claims, SameOutside, I.Kept;
    forall j | 0 <= j < |sys'.procs| ensures I.Kept(sys, sys', j) { assert I.KeptOutside(sys, sys', j); }
  }

  /** A run that nobody claims is not touched. */
  lemma OwnWorkElsewhere(sys: System, i: nat, ks': KState, p': Proc, b: nat)
    requires Inv(sys) && i < |sys.procs| && OnlyOwn(sys.ks, sys.procs[i], ks', p')
    requires b in sys.ks.live && I.Unclaimed(sys, FrameOf(b))
    ensures FrameOf(b) < FRAMES && b in ks'.live && ks'.live[b] == sys.ks.live[b] && ks'.mem[FrameOf(b)] == sys.ks.mem[FrameOf(b)]
  {
    hide Inv, Refines, ProcOk, Footprint, OwnedFrames, SameOutside, Owns, TakenFrame;
    I.InvParts(sys, i);
    LiveIsTaken(sys.ks, b);
    if Owns(sys.procs[i].allocs, FrameOf(b)) { StartIsOwned(sys.ks, sys.procs[i], FrameOf(b)); }
  }

  lemma {:induction false} AllUnused(n: nat)
    ensures Unused(seq(n, _ => UNUSED)) == n
  {
    if n > 0 {
      assert seq(n, _ => UNUSED)[..n - 1] == seq(n - 1, _ => UNUSED);
      AllUnused(n - 1);
    }
  }

  lemma {:induction false} UnusedBound(allocs: seq<Alloc>)
    ensures Unused(allocs) <= |allocs|
  {
    if allocs != [] { UnusedBound(allocs[..|allocs| - 1]); }
  }

  // ---------------------------------------------------------------- the whole way

  /** A pointer table of at most 1024 words fits in one block. */
  lemma OnePageTable(ks: KState, p: Proc, argc: nat)
    requires Ok(ks) && 0 < argc <= ENTRIES
    ensures Serves(ks, POINTER_SIZE * argc)
    ensures RoomFor(ks, p, argc) <==> HT.FreeFrom(ks.table, 0) > argc && Unused(p.allocs) > argc
  {
    hide Refines, HasRun, HT.FreeFrom, Unused, Fits, BlocksFor;
    BlocksForPage(POINTER_SIZE * argc);
    OneBlockFits(ks.table);
    OneBlockRun(ks.table);
  }

  ghost function CutAll(words: seq<Str>): seq<Str> {
    seq(|words|, i requires 0 <= i < |words| => Cut(words[i], ARGUMENT_SIZE - 1))
  }

  lemma RootNull(root: CommandArgument?, nodes: seq<CommandArgument>)
    requires IsList(root, nodes)
    ensures root == null <==> nodes == []
  {
  }

  lemma HeldWords(nodes: seq<CommandArgument>, words: seq<Str>)
    requires Command.Holds(nodes, words)
    ensures |nodes| <= |words| && NodesHold(nodes, CutAll(words[..|nodes|]))
  {
    hide HoldsText, Cut;
  }

  /** The line as os_system_run cuts it. */
  ghost function Line(command: array<Byte>): (line: Str)
    requires Terminated(command[..], 0)
    reads command
    ensures NUL !in line && |line| < RUN_BUFFER_SIZE
  {
    CutIsText(Text(command[..], 0), RUN_BUFFER_SIZE - 1);
    Cut(Text(command[..], 0), RUN_BUFFER_SIZE - 1)
  }

  /** The words that the shell parses: those of the line, unless an earlier line left the cursor behind. */
  ghost function RunWords(tok: Tokenizer, command: array<Byte>, scommand: array<Byte>): seq<Str>
    requires Terminated(command[..], 0) && CursorOk(tok, scommand, Line(command))
    reads tok, command, scommand
  {
    ParsedWords(tok, scommand, Line(command))
  }

  lemma ParsedParts(root: CommandArgument?, nodes: seq<CommandArgument>, tok: Tokenizer, words: seq<Str>,
                    ks: KState, p: Proc, ks': KState, p': Proc)
    requires Parsed(root, nodes, tok, words, ks, p, ks', p')
    ensures IsList(root, nodes) && Command.Holds(nodes, words) && CursorAfter(tok, words, |nodes|)
    ensures |nodes| == Least(|words|, NodesLeft(ks, p)) && |nodes| <= Unused(p.allocs)
    ensures HT.FreeFrom(ks'.table, 0) + |nodes| == HT.FreeFrom(ks.table, 0) && ks'.table == TakeSingles(ks.table, |nodes|)
    ensures Allocated(p', nodes) && OnlyOwn(ks, p, ks', p')
  {
  }

  /** Outside the window of heap addresses the process sees its image and its stack. */
  ghost predicate SeesImage(ks: KState, p: Proc, image: Image, stack: nat) {
    && p.chunk < FRAMES && ImageOk(image) && stack % PAGE_SIZE == 0 && stack + STACK_SIZE <= 0xFFFF_F000
    && forall v: nat :: OutsideWindow(v) ==> ViewAt(ks.mem, p.chunk)[v] == MapImage(P.Identity(P.USER_READ), image, stack)[v]
  }

  /** The new process works on its own memory after it is mapped. */
  lemma AfterInjection(kn: Kernel, r: Kernel, p: Proc, runs: seq<nat>, file: nat, size: nat, stack: nat, image: Image, ks: KState, ks': KState, p': Proc)
    requires size < WORD_LIMIT && Placed(kn, r, p, runs, file, size, stack) && OInv(r.o) && Mappable(r.o, |kn.o.held|, image, AddressOf(stack))
    requires ks == ApplyMap(r.o, |kn.o.held|, image, AddressOf(stack)).sys.ks
    requires OInv(ApplyMap(r.o, |kn.o.held|, image, AddressOf(stack))) <==> ImageFits(r.o, |kn.o.held|, image)
    requires Inv(System(ks, kn.o.sys.procs + [p])) && ViewAt(ks.mem, p.chunk) == MapImage(P.Identity(P.USER_READ), image, AddressOf(stack))
    requires OnlyOwn(ks, p, ks', p') && ProcOk(ks', p')
    ensures Inv(System(ks', kn.o.sys.procs + [p'])) && SeesImage(ks', p', image, AddressOf(stack))
    ensures ImageFits(r.o, |kn.o.held|, image) ==> KInv(r.(o := Owned(System(ks', kn.o.sys.procs + [p']), r.o.held)))
  {
    hide KInv, OInv, Inv, ProcOk, ImageFits, P.Identity, MapImage, MapImageMem, ImageOk, Footprint, Refines, BlocksFor, Owns, TakenFrame;
    var n, procs := |kn.o.held|, kn.o.sys.procs + [p];
    assert procs[n := p'] == kn.o.sys.procs + [p'];
    OwnWorkKeepsOthers(System(ks, procs), n, ks', p');
    if ImageFits(r.o, n, image) {
      MappedKeeps(r, n, image, AddressOf(stack));
      OwnWorkKeepsKernel(r.(o := ApplyMap(r.o, n, image, AddressOf(stack))), n, ks', p');
    }
  }

  lemma MappedKeeps(r: Kernel, i: nat, image: Image, stack: nat)
    requires KInv(r) && OInv(r.o) && Mappable(r.o, i, image, stack) && ImageFits(r.o, i, image)
    ensures KInv(r.(o := ApplyMap(r.o, i, image, stack)))
  {
    hide KInv, OInv, ApplyMap, ImageFits, Mappable;
    StepKeepsOwnershipExactly(r, Do(MapMemory(i, image, stack)));
  }

  /** A process is loaded and the texts of the nodes are copied into it; everybody else stays as they are. */
  method LoadAndInject(k: Machine, ends: TaskEnds, root: CommandArgument, sizes: seq<nat>, program: Program, fileAt: nat, stackAt: nat,
                       entry: Word, ghost kept: seq<nat>, ghost nodes: seq<CommandArgument>, ghost texts: seq<Str>, ghost kn: Kernel)
    returns (res: int, p: Process, process: nat, ghost ptrs: seq<nat>, ghost r: Kernel, ghost file: nat, ghost stack: nat)
    requires IsList(root, nodes) && NodesHold(nodes, texts) && 0 < |nodes| <= MAX_PROGRAM_ALLOCATIONS
    requires k.Valid() && KInv(kn) && kn.o.sys.ks == k.State() && kn.head == ends.head && kn.tail == ends.tail && TailOk(kn)
    requires LoadFits(k.State().table, sizes) && KeptAt(kept, sizes, fileAt, stackAt) && StaysClear(program, sizes[fileAt])
    modifies k.heap`live, k.heap.entries, k.ram, ends
    ensures k.Valid() && fresh(p) && fresh(p.allocations) && p.Valid() && Inv(System(k.State(), kn.o.sys.procs + [p.Model()]))
    ensures |r.o.held| == |kn.o.held| + 1 && |r.tasks| == |kn.tasks| + 1 && r.head == ends.head && r.tail == ends.tail
    ensures sizes[fileAt] < WORD_LIMIT && var image := ImageAt(program, AddressOf(file), sizes[fileAt]);
      && SeesImage(k.State(), p.Model(), image, AddressOf(stack))
      && (ImageFits(r.o, |kn.o.held|, image) ==> KInv(r.(o := Owned(System(k.State(), kn.o.sys.procs + [p.Model()]), r.o.held))))
    ensures forall i :: 0 <= i < |sizes| ==> sizes[i] < WORD_LIMIT
    ensures Starts(k.Mem(), r.tail, p.Model(), if program.Flat? then 0x40_0000 else entry, process, if kn.head == 0 then 0 else kn.tail)
    ensures |sizes| > 0 && RunAt(System(k.State(), kn.o.sys.procs + [p.Model()]), process, sizes[0])
    ensures res == if HT.FreeFrom(old(k.State()).table, 0) > |nodes| + LoadBlocks(sizes) + SPACE_BLOCKS + 1 && |nodes| < 1024
                   then 0 else -ENOMEM
    ensures res == 0 ==> p.argc == |ptrs| == |nodes| && Injected(k.State(), p.Model(), p.argv, |nodes|, ptrs, texts)
  {
    hide Starts, TailApart, RunAt, KInv, OInv, Inv, ProcOk, Serves, Injected, HT.FreeFrom, Unused, LoadFits, LoadBlocks, Placed, Mappable, ApplyMap, ImageFits, ClearOfWindow, ImageAt, AddressOf, StaysClear, ViewAt, MapImage, P.Identity, OnlyOwn, RoomFor, IsList, HoldsText, SeesImage, Refines, ImageOk, KeptAt, TailOk;
    KeptInside(kept, sizes, fileAt, stackAt);
    ClearIsLoadable(program, sizes[fileAt]);
    ghost var runs;
    p, process, r, runs, file, stack := LoadProcess(k, ends, sizes, program, fileAt, stackAt, entry, kept, kn);
    ghost var image, ks, proc := ImageAt(program, AddressOf(file), sizes[fileAt]), k.State(), p.Model();
    PlacedParts(kn, r, proc, runs, file, sizes[fileAt], stack);
    PlacedClear(kn, r, proc, runs, file, sizes[fileAt], stack, program);
    LastIsOk(System(ks, kn.o.sys.procs + [proc]));
    AllUnused(MAX_PROGRAM_ALLOCATIONS);
    OnePageTable(ks, proc, |nodes|);
    res, ptrs := ProcessInjectArguments(k, p, root, nodes, texts);
    AfterInjection(kn, r, proc, runs, file, sizes[fileAt], stack, image, ks, k.State(), p.Model());
    OwnWorkKeepsTask(System(ks, kn.o.sys.procs + [proc]), k.State(), p.Model(), r, process, sizes[0], if program.Flat? then 0x40_0000 else entry, if kn.head == 0 then 0 else kn.tail);
    assert (kn.o.sys.procs + [proc])[|kn.o.sys.procs| := p.Model()] == kn.o.sys.procs + [p.Model()];
  }

  /** Neither the task structure nor the run of the process structure is touched. */
  lemma OwnWorkKeepsTask(sys: System, ks': KState, p': Proc, r: Kernel, process: nat, size: nat, ip: nat, prev: nat)
    requires Inv(sys) && sys.procs != [] && TailApart(sys, r.tasks, r.tail) && RunAt(sys, process, size)
    requires var i := |sys.procs| - 1; Starts(sys.ks.mem, r.tail, sys.procs[i], ip, process, prev) && OnlyOwn(sys.ks, sys.procs[i], ks', p') && ProcOk(ks', p')
    ensures Starts(ks'.mem, r.tail, p', ip, process, prev)
    ensures RunAt(System(ks', sys.procs[|sys.procs| - 1 := p']), process, size)
  {
    hide Inv, Refines, ProcOk, OnlyOwn, BlocksFor, Structure, I.Unclaimed, I.AllKeptOutside, Claims;
    var i, b, q := |sys.procs| - 1, r.tasks[|r.tasks| - 1], (process - HEAP_ADDRESS) / PAGE_SIZE;
    OwnWorkKeepsOthers(sys, i, ks', p');
    KeptAll(sys, System(ks', sys.procs[i := p']));
    OwnWorkElsewhere(sys, i, ks', p', b);
    OwnWorkElsewhere(sys, i, ks', p', q);
    StaysUnclaimed(sys, System(ks', sys.procs[i := p']), FrameOf(q));
    SameChunk(sys.ks, sys.procs[i], ks', p');
  }

  lemma SameChunk(ks: KState, p: Proc, ks': KState, p': Proc)
    requires OnlyOwn(ks, p, ks', p')
    ensures p'.chunk == p.chunk
  {
    hide Footprint, Owns, TakenFrame, SameOutside, Open;
  }

  /**
    os_system_run through to the injection, in any system of processes with a task list in order. The shell
    gets as many of the words as its blocks and slots allow; with none the call ends. Then a process is
    loaded, and its arguments are exactly these words, each cut to 511 bytes, if and only if more blocks are
    left than there are words. The shell still has its list, and every process what it had; no frame is
    writable for two if the image fits.
   */
  method RunCommandLine(tok: Tokenizer, command: array<Byte>, scommand: array<Byte>, k: Machine, shell: Process, ends: TaskEnds,
                        sizes: seq<nat>, program: Program, fileAt: nat, stackAt: nat, entry: Word,
                        ghost kept: seq<nat>, ghost kn: Kernel, ghost at: nat)
    returns (res: int, p: Process?, process: nat, ghost ptrs: seq<nat>, ghost nodes: seq<CommandArgument>, ghost r: Kernel, ghost file: nat, ghost stack: nat)
    requires Terminated(command[..], 0) && scommand.Length == COMMAND_SIZE && scommand != command && CursorOk(tok, scommand, Line(command))
    requires k.Valid() && shell.Valid() && Apart(k, scommand)
    requires KInv(kn) && kn.o.sys.ks == k.State() && kn.head == ends.head && kn.tail == ends.tail && TailOk(kn)
    requires at < |kn.o.sys.procs| && kn.o.sys.procs[at] == shell.Model()
    requires KeptAt(kept, sizes, fileAt, stackAt) && StaysClear(program, sizes[fileAt])
    requires var m := Least(|RunWords(tok, command, scommand)|, NodesLeft(k.State(), shell.Model()));
      m > 0 ==> LoadFits(TakeSingles(k.State().table, m), sizes)
    modifies tok, scommand, k.heap`live, k.heap.entries, k.ram, shell.allocations, ends
    ensures k.Valid() && |nodes| == old(Least(|RunWords(tok, command, scommand)|, NodesLeft(k.State(), shell.Model())))
    ensures var words := old(RunWords(tok, command, scommand));
      CursorAfter(tok, words, |nodes|) && Command.Holds(nodes, words) && Allocated(shell.Model(), nodes)
    ensures r.head == ends.head && r.tail == ends.tail
    ensures nodes == [] ==> res == -1 && p == null && r == kn && KInv(kn.(o := Owned(System(k.State(), kn.o.sys.procs[at := shell.Model()]), kn.o.held)))
    ensures nodes != [] ==>
      && p != null && fresh(p) && p.Valid() && IsList(nodes[0], nodes) && |r.o.held| == |kn.o.held| + 1 && |r.tasks| == |kn.tasks| + 1
      && Inv(System(k.State(), kn.o.sys.procs[at := shell.Model()] + [p.Model()]))
      && sizes[fileAt] < WORD_LIMIT && var image := ImageAt(program, AddressOf(file), sizes[fileAt]);
      && SeesImage(k.State(), p.Model(), image, AddressOf(stack))
      && (ImageFits(r.o, |kn.o.held|, image) ==>
           KInv(r.(o := Owned(System(k.State(), kn.o.sys.procs[at := shell.Model()] + [p.Model()]), r.o.held))))
    ensures nodes != [] ==>
      && Starts(k.Mem(), r.tail, p.Model(), if program.Flat? then 0x40_0000 else entry, process, if kn.head == 0 then 0 else kn.tail)
      && |sizes| > 0 && RunAt(System(k.State(), kn.o.sys.procs[at := shell.Model()] + [p.Model()]), process, sizes[0])
    ensures nodes != [] ==>
      && (forall i :: 0 <= i < |sizes| ==> sizes[i] < WORD_LIMIT)
      && res == if old(HT.FreeFrom(k.State().table, 0)) > 2 * |nodes| + LoadBlocks(sizes) + SPACE_BLOCKS + 1 && |nodes| < 1024
                then 0 else -ENOMEM
    ensures nodes != [] && res == 0 ==>
      p.argc == |ptrs| == |nodes| && Injected(k.State(), p.Model(), p.argv, |nodes|, ptrs, CutAll(old(RunWords(tok, command, scommand))[..|nodes|]))
  {
    hide Starts, RunAt, Words, Text, Terminated, IsList, Command.Holds, HoldsText, Cut, ProcOk, Serves, Injected, HT.FreeFrom, Unused, LoadFits, LoadBlocks, CursorAfter, TakeSingles, Parsed, KInv, OInv, Inv, StaysClear, SeesImage, ImageFits, OnlyOwn, Refines, Allocated, ImageAt, AddressOf, KeptAt, TailOk;
    ghost var words, ks, proc := RunWords(tok, command, scommand), k.State(), shell.Model();
    ShellOk(kn, at);
    var root;
    root, nodes := OsSystemRun(tok, command, scommand, k, shell);
    ParsedParts(root, nodes, tok, words, ks, proc, k.State(), shell.Model());
    RootNull(root, nodes);
    OwnWorkKeepsKernel(kn, at, k.State(), shell.Model());
    if root == null {
      return -1, null, 0, [], nodes, kn, 0, 0;
    }
    HeldWords(nodes, words);
    UnusedBound(proc.allocs);
    ghost var k1 := kn.(o := Owned(System(k.State(), kn.o.sys.procs[at := shell.Model()]), kn.o.held));
    ProcessLoading.SameTail(kn, k1);
    res, p, process, ptrs, r, file, stack := LoadAndInject(k, ends, root, sizes, program, fileAt, stackAt, entry, kept, nodes, CutAll(words[..|nodes|]), k1);
  }

  lemma ShellOk(kn: Kernel, at: nat)
    requires KInv(kn) && at < |kn.o.sys.procs|
    ensures ProcOk(kn.o.sys.ks, kn.o.sys.procs[at])
  {
    hide OInv, TasksOk, ProcOk, HeldOk, WritesOk;
    Parts(kn.o, at);
  }
}
