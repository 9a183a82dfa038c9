/**
  process_terminate: the calls that give back what a process holds, in their order.
 */
module Termination {
  import opened HeapTable
  import opened Memory
  import opened KernelState
  import opened KernelMachine
  import opened AddressSpace
  import opened ProcessMemory
  import opened Processes
  import opened Ownership
  import opened TaskLinks
  import opened KernelRuns
  import opened TaskMachine
  import C = Chunks
  import I = Isolation

  /** process_terminate_allocations, without the calls for null slots. */
  method ProcessTerminateAllocations(k: Machine, p: Process, ghost o: Owned, ghost i: nat)
    requires OInv(o) && i < |o.sys.procs| && k.Valid() && p.Valid() && k.State() == o.sys.ks && p.Model() == o.sys.procs[i]
    modifies k.heap`live, k.heap.entries, k.ram, p.allocations
    ensures k.Valid()
    ensures var r := FreeSlots(o, i, MAX_PROGRAM_ALLOCATIONS);
      i < |r.sys.procs| && k.State() == r.sys.ks && p.Model() == r.sys.procs[i]
  {
    hide OInv, SlotsFreed, FreeSlots, Inv, ProcessFree;
    ghost var r := FreeSlots(o, i, 0);
    NoneFreed(o, i);
    var n := 0;
    while n < MAX_PROGRAM_ALLOCATIONS
      invariant 0 <= n <= MAX_PROGRAM_ALLOCATIONS && k.Valid()
      invariant r == FreeSlots(o, i, n) && OInv(r)
      invariant i < |r.sys.procs| && k.State() == r.sys.ks && p.Model() == r.sys.procs[i]
    {
      OneMore(o, i, n);
      var ptr := p.allocations[n].ptr;
      assert r.sys.procs[i].allocs[n].ptr == ptr;
      if ptr != 0 {
        OwnAll(r, i);
        p.Free(k, ptr);
        FreeIs(r, i, ptr);
      }
      n := n + 1;
      r := FreeSlots(o, i, n);
    }
  }

  lemma NoneFreed(o: Owned, i: nat)
    requires OInv(o) && i < |o.sys.procs|
    ensures FreeSlots(o, i, 0) == o
  {
  }

  lemma OneMore(o: Owned, i: nat, n: nat)
    requires OInv(o) && i < |o.sys.procs| && n < MAX_PROGRAM_ALLOCATIONS
    ensures var r := FreeSlots(o, i, n);
      && OInv(r) && i < |r.sys.procs| && |r.sys.procs[i].allocs| == MAX_PROGRAM_ALLOCATIONS
      && var ptr := r.sys.procs[i].allocs[n].ptr;
      && (ptr != 0 ==> Legal(r, Plain(I.Deallocate(i, ptr))))
      && FreeSlots(o, i, n + 1) == if ptr == 0 then r else ApplyPlain(r, I.Deallocate(i, ptr))
  {
    hide OInv, Inv, Claims, Minus, ApplyPlain, WritesOk, HeldOk;
    SlotStep(o, FreeSlots(o, i, n), i, n);
  }

  lemma OwnAll(o: Owned, i: nat)
    requires OInv(o) && i < |o.sys.procs|
    ensures AllOwn(o.sys.ks.live, o.sys.procs[i].allocs) && o.sys.procs[i].chunk < FRAMES && Ok(o.sys.ks)
  {
    hide Inv, HeldOk, WritesOk;
    I.InvParts(o.sys, i);
  }

  lemma FreeIs(o: Owned, i: nat, ptr: nat)
    requires OInv(o) && i < |o.sys.procs| && ptr != 0 && Legal(o, Plain(I.Deallocate(i, ptr)))
    requires o.sys.procs[i].chunk < FRAMES && Ok(o.sys.ks) && AllOwn(o.sys.ks.live, o.sys.procs[i].allocs)
    ensures var r, f := ApplyPlain(o, I.Deallocate(i, ptr)), ProcessFree(o.sys.ks, o.sys.procs[i], ptr);
      i < |r.sys.procs| && r.sys.ks == f.ks && r.sys.procs[i] == f.proc
  {
    hide Inv, ProcessFree, HeldOk, WritesOk;
    InvOf(o);
  }

  /** kfree of the image and the stack. */
  method FreeLoaded(k: Machine, addresses: seq<nat>, ghost o: Owned, ghost blocks: seq<nat>)
    requires OInv(o) && Loose(o, blocks) && k.Valid() && k.State() == o.sys.ks
    requires |addresses| == |blocks| && forall j :: 0 <= j < |blocks| ==> addresses[j] == AddressOf(blocks[j])
    modifies k.heap`live, k.heap.entries
    ensures k.Valid() && k.State() == FreeRuns(o, blocks).sys.ks
  {
    hide OInv, Loose, FreeRuns, Inv;
    ghost var r, left := o, blocks;
    assert blocks[0..] == blocks;
    var n := 0;
    while n < |addresses|
      invariant 0 <= n <= |addresses| && k.Valid() && OInv(r) && left == blocks[n..] && Loose(r, left)
      invariant k.State() == r.sys.ks && FreeRuns(r, left) == FreeRuns(o, blocks)
    {
      FreeRunStep(r, left);
      OneRunLess(r, left);
      assert left[1..] == blocks[n + 1..] && left[0] == blocks[n];
      k.KFree(addresses[n]);
      r := ApplyPlain(r, I.KernelFree(left[0]));
      left := left[1..];
      n := n + 1;
    }
    NoRunLeft(r);
  }

  lemma OneRunLess(o: Owned, blocks: seq<nat>)
    requires OInv(o) && Loose(o, blocks) && blocks != [] && Legal(o, Plain(I.KernelFree(blocks[0])))
    ensures var r := ApplyPlain(o, I.KernelFree(blocks[0]));
      && OInv(r) && Loose(r, blocks[1..]) && FreeRuns(o, blocks) == FreeRuns(r, blocks[1..])
      && r.sys.ks == Release(o.sys.ks, blocks[0]) && blocks[0] in o.sys.ks.live
  {
    hide OInv, Inv, Loose;
    FreeRunStep(o, blocks);
    InvOf(o);
  }

  lemma NoRunLeft(o: Owned)
    requires OInv(o) && Loose(o, [])
    ensures FreeRuns(o, []) == o
  {
  }

  /** process_terminate up to the release of the task structure: allocations, image, stack, address space. */
  method ProcessTerminateMemory(k: Machine, p: Process, addresses: seq<nat>, ghost o: Owned, ghost i: nat)
    requires OInv(o) && i < |o.sys.procs| == |o.held| && k.Valid() && p.Valid() && k.State() == o.sys.ks && p.Model() == o.sys.procs[i]
    requires |addresses| == |o.held[i]| && forall j :: 0 <= j < |addresses| ==> addresses[j] == AddressOf(o.held[i][j])
    modifies k.heap`live, k.heap.entries, k.ram, p.allocations
    ensures k.Valid() && k.State() == ApplyExit(o, i).sys.ks
  {
    hide OInv, Loose, FreeRuns, FreeSlots, Inv, SlotsFreed, Survive, Survivors, LooseSpace, SpaceAt, Footprint, Free4gb, Gave, SingleRuns, Open;
    ghost var freed := FreeSlots(o, i, MAX_PROGRAM_ALLOCATIONS);
    FreedCount(o, freed, i);
    HeldSame(o, freed, i);
    ProcessTerminateAllocations(k, p, o, i);
    SurvivorsAre(freed, i);
    FreeLoaded(k, addresses, Others(freed, i), freed.held[i]);
    ghost var rest := Survivors(freed, i);
    SpaceIsLoose(o, freed, i, rest);
    SpaceFrames(rest, p.chunk);
    LooseParts(rest, p.chunk);
    ReleasedSpace(rest, p.chunk);
    Free4gbGives(rest.sys.ks, p.chunk);
    C.PagingFree4gb(k, p.chunk * PAGE_SIZE);
    GaveIsOne(rest.sys.ks, k.State(), Free4gb(rest.sys.ks, p.chunk), Footprint(rest.sys.ks.mem, p.chunk));
  }

  /** Exactly the runs that the process claimed or held, and its task structure, are gone. */
  ghost predicate OthersKept(live: map<nat, nat>, live': map<nat, nat>, o: Owned, i: nat, b: nat) {
    && i < |o.sys.procs| == |o.held| && o.sys.procs[i].chunk < FRAMES
    && Minus(live, live', Claims(o.sys.ks.mem, o.sys.procs[i]) + FramesOf(o.held[i]) + {FrameOf(b)})
  }

  /**
    process_terminate for process i, which holds its file, its ELF structure and its stack at these
    addresses, and its task structure at `task`: the kernel is left as the step is specified, the stale link
    included. Exactly the runs of its allocations and page tables, what it holds, and its task structure are
    given back, and ownership is kept if and only if the store through the prev link fits.
   */
  method ProcessTerminate(k: Machine, p: Process, addresses: seq<nat>, task: Word, ends: TaskEnds, ghost kn: Kernel, ghost i: nat)
    requires KInv(kn) && i < |kn.tasks| == |kn.o.held| && k.Valid() && p.Valid() && k.State() == kn.o.sys.ks && p.Model() == kn.o.sys.procs[i]
    requires |addresses| == |kn.o.held[i]| && forall j :: 0 <= j < |addresses| ==> addresses[j] == AddressOf(kn.o.held[i][j])
    requires task == AddressOf(kn.tasks[i]) && ends.head == kn.head && ends.tail == kn.tail
    modifies k.heap`live, k.heap.entries, k.ram, p.allocations, ends
    ensures var r := ApplyTerminate(kn, i);
      && k.Valid() && k.State() == r.o.sys.ks && ends.head == r.head && ends.tail == r.tail
      && (OInv(r.o) <==> UnlinkFits(kn, i)) && (UnlinkFits(kn, i) ==> KInv(r))
    ensures OthersKept(kn.o.sys.ks.live, k.State().live, kn.o, i, kn.tasks[i])
  {
    hide OInv, ApplyExit, TasksOk, OthersKept, UnlinkFits, WordAt, StoreNext, SetWord, Refines;
    TerminateKeepsExactly(kn, i);
    ProcessTerminateMemory(k, p, addresses, kn.o, i);
    TaskPageStays(kn, i);
    TaskListRemove(k, ends, task);
    TaskGone(kn, i);
    k.KFree(task);
  }

  lemma TaskPageStays(kn: Kernel, i: nat)
    requires KInv(kn) && i < |kn.tasks|
    ensures var b, r := kn.tasks[i], ApplyExit(kn.o, i);
      && b < HEAP_BLOCKS && b in r.sys.ks.live && r.sys.ks.mem[FrameOf(b)] == kn.o.sys.ks.mem[FrameOf(b)]
  {
    hide OInv, ApplyExit, TaskPage, I.Unclaimed, WordAt;
    assert TaskOk(kn.o, kn.tasks[i]);
    InvOf(kn.o);
    ExitKeepsLoose(kn.o, i, kn.tasks[i]);
  }

  lemma TaskGone(kn: Kernel, i: nat)
    requires KInv(kn) && i < |kn.tasks|
    ensures OthersKept(kn.o.sys.ks.live, ApplyExit(kn.o, i).sys.ks.live - {kn.tasks[i]}, kn.o, i, kn.tasks[i])
  {
    hide OInv, Inv, ApplyExit, Claims, TasksOk, Minus;
    InvOf(kn.o);
    ExitGivesBack(kn.o, i);
    var live, live', b := kn.o.sys.ks.live, ApplyExit(kn.o, i).sys.ks.live, kn.tasks[i];
    OneLess(live', b);
    MinusMore(live, live', live' - {b}, Claims(kn.o.sys.ks.mem, kn.o.sys.procs[i]) + FramesOf(kn.o.held[i]), {FrameOf(b)});
  }

  lemma OneLess(live: map<nat, nat>, b: nat)
    ensures Minus(live, live - {b}, {FrameOf(b)})
  {
  }

  lemma HeldSame(o: Owned, freed: Owned, i: nat)
    requires SlotsFreed(o, freed, i, MAX_PROGRAM_ALLOCATIONS)
    ensures freed.held == o.held
  {
    hide Minus, Claims;
  }

  lemma SurvivorsAre(freed: Owned, i: nat)
    requires OInv(freed) && i < |freed.sys.procs|
    ensures i < |freed.held| == |freed.sys.procs| && OInv(Others(freed, i)) && Loose(Others(freed, i), freed.held[i])
    ensures Survivors(freed, i) == FreeRuns(Others(freed, i), freed.held[i])
  {
    hide OInv, Loose, FreeRuns, Inv;
    InvOf(freed);
    OthersOk(freed, i);
  }

  lemma LooseParts(o: Owned, c: nat)
    requires OInv(o) && LooseSpace(o, c)
    ensures Ok(o.sys.ks) && c < FRAMES && SpaceAt(o.sys.ks.mem, c) && SingleRuns(o.sys.ks.live, Footprint(o.sys.ks.mem, c))
  {
    hide Footprint, SpaceAt, Inv, Open;
    InvOf(o);
    SystemOk(o.sys);
  }

  lemma GaveIsOne(ks: KState, a: KState, b: KState, fs: set<nat>)
    requires Gave(ks, a, fs) && Gave(ks, b, fs)
    ensures a == b
  {
    hide Refines, ClearFrames;
  }
}
