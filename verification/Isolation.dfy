/**
  Any number of processes, any interleaving: creation of address spaces, process_malloc,
  process_free, mappings outside the heap window, and the kernel's own allocations all keep
  the ownership invariant, and the invariant gives memory isolation.
 */
module Isolation {
  import opened HeapTable
  import HeapTheory
  import opened Memory
  import opened KernelState
  import opened Mmu
  import opened AddressSpace
  import opened ProcessMemory
  import P = Paging

  datatype Op =
    | Spawn
    | Allocate(pid: nat, size: nat)
    | Deallocate(pid: nat, ptr: nat)
    | MapOutside(pid: nat, v: nat, f: nat, n: nat, flags: nat)
    | KernelAlloc(size: nat)
    | KernelFree(block: nat)

  ghost predicate Legal(sys: System, op: Op) {
    match op
    case Spawn => HeapTheory.FreeFrom(sys.ks.table, 0) >= SPACE_BLOCKS
    case Allocate(i, size) => i < |sys.procs| && Serves(sys.ks, size)
    case Deallocate(i, ptr) => i < |sys.procs| && ptr != 0
    case MapOutside(i, v, f, n, flags) =>
      i < |sys.procs| && v + n <= FRAMES && f + n <= FRAMES && flags < PAGE_SIZE
      && (v + n <= HEAP_FRAME || HEAP_FRAME + HEAP_BLOCKS <= v)
    case KernelAlloc(size) => Serves(sys.ks, size)
    case KernelFree(b) => b in sys.ks.live && Unclaimed(sys, HEAP_FRAME + b)
  }

  ghost predicate Unclaimed(sys: System, f: nat) {
    forall i :: 0 <= i < |sys.procs| ==> sys.procs[i].chunk < FRAMES && f !in Claims(sys.ks.mem, sys.procs[i])
  }

  lemma InvParts(sys: System, i: nat)
    requires Inv(sys) && i < |sys.procs|
    ensures Ok(sys.ks) && sys.procs[i].chunk < FRAMES && ProcOk(sys.ks, sys.procs[i])
    ensures AllOwn(sys.ks.live, sys.procs[i].allocs)
  {
    hide OwnsRun, WindowOk, P.Space;
  }

  ghost function Apply(sys: System, op: Op): System
    requires Inv(sys) && Legal(sys, op)
  {
    match op
    case Spawn =>
      New4gbBuilds(sys.ks, P.USER_READ);
      System(New4gb(sys.ks, P.USER_READ), sys.procs + [Proc(NewFrame(BuiltState(sys.ks, P.USER_READ)), NoAllocs())])
    case Allocate(i, size) =>
      var o := ProcessMalloc(sys.ks, sys.procs[i], size);
      System(o.ks, sys.procs[i := o.proc])
    case Deallocate(i, ptr) =>
      var o := ProcessFree(sys.ks, sys.procs[i], ptr);
      System(o.ks, sys.procs[i := o.proc])
    case MapOutside(i, v, f, n, flags) =>
      System(sys.ks.(mem := MapMem(sys.ks.mem, Dir(sys.ks.mem, sys.procs[i].chunk), v, f, n, flags)), sys.procs)
    case KernelAlloc(size) => System(Zalloc(sys.ks, size), sys.procs)
    case KernelFree(b) => System(Release(sys.ks, b), sys.procs)
  }

  /** A legal step from a state that satisfies the invariant. */
  ghost predicate Steps(sys: System, op: Op, sys': System) {
    Inv(sys) ==> Legal(sys, op) && sys' == Apply(sys, op)
  }

  ghost predicate Run(states: seq<System>, ops: seq<Op>) {
    |states| == |ops| + 1 && forall i :: 0 <= i < |ops| ==> Steps(states[i], ops[i], states[i + 1])
  }

  /** Process j keeps its chunk, and what it claims anew was free. */
  ghost predicate Kept(sys: System, sys': System, j: nat) {
    && j < |sys.procs| && j < |sys'.procs| && sys.procs[j].chunk < FRAMES && sys'.procs[j].chunk == sys.procs[j].chunk
    && forall f :: f in Claims(sys'.ks.mem, sys'.procs[j]) ==>
      f in Claims(sys.ks.mem, sys.procs[j]) || f - HEAP_FRAME !in sys.ks.live
  }

  /** In addition its mappings outside the window are the same. */
  ghost predicate KeptOutside(sys: System, sys': System, j: nat) {
    Kept(sys, sys', j) && SameOutside(sys.ks.mem, sys'.ks.mem, sys.procs[j].chunk)
  }

  ghost predicate AllKeptOutside(sys: System, sys': System) {
    forall j :: 0 <= j < |sys.procs| ==> KeptOutside(sys, sys', j)
  }

  lemma BystanderKept(sys: System, sys': System, j: nat)
    requires j < |sys.procs| && j < |sys'.procs| && sys'.procs[j] == sys.procs[j] && sys.procs[j].chunk < FRAMES
    requires Claims(sys'.ks.mem, sys.procs[j]) == Claims(sys.ks.mem, sys.procs[j])
    requires ViewAt(sys'.ks.mem, sys.procs[j].chunk) == ViewAt(sys.ks.mem, sys.procs[j].chunk)
    ensures KeptOutside(sys, sys', j)
  {
    hide Claims, ViewAt, Open;
  }

  // ---------------------------------------------------------------- every step keeps the invariant

  /** One process takes a step; the others keep their runs and tables. */
  lemma ReplaceProc(sys: System, i: nat, ks': KState, p': Proc)
    requires Inv(sys) && i < |sys.procs| && Ok(ks') && p'.chunk < FRAMES && ProcOk(ks', p')
    requires forall j :: 0 <= j < |sys.procs| && j != i ==>
      && sys.procs[j].chunk < FRAMES && ProcOk(ks', sys.procs[j])
      && Claims(ks'.mem, sys.procs[j]) == Claims(sys.ks.mem, sys.procs[j])
      && Claims(ks'.mem, p') !! Claims(sys.ks.mem, sys.procs[j])
    ensures Inv(System(ks', sys.procs[i := p']))
  {
    hide Refines, ProcOk;
    var sys' := System(ks', sys.procs[i := p']);
    forall a | 0 <= a < |sys'.procs| ensures ProcOk(ks', sys'.procs[a]) && sys'.procs[a].chunk < FRAMES {}
    forall a, b | 0 <= a < b < |sys'.procs| ensures Claims(ks'.mem, sys'.procs[a]) !! Claims(ks'.mem, sys'.procs[b]) {
      assert a != i && b != i ==> Claims(sys.ks.mem, sys.procs[a]) !! Claims(sys.ks.mem, sys.procs[b]);
    }
  }

  lemma Bystander(sys: System, i: nat, j: nat, ks': KState)
    requires Inv(sys) && i < |sys.procs| && j < |sys.procs| && i != j
    requires sys.procs[i].chunk < FRAMES && sys.procs[j].chunk < FRAMES
    requires forall b :: b in sys.ks.live && FrameOf(b) !in Claims(sys.ks.mem, sys.procs[i]) ==>
      b in ks'.live && ks'.live[b] == sys.ks.live[b]
    requires forall g: nat ::
      (HEAP_FRAME <= g < FRAMES && g - HEAP_FRAME in sys.ks.live && g !in Footprint(sys.ks.mem, sys.procs[i].chunk))
      ==> ks'.mem[g] == sys.ks.mem[g]
    ensures ProcOk(ks', sys.procs[j]) && Claims(ks'.mem, sys.procs[j]) == Claims(sys.ks.mem, sys.procs[j])
    ensures ViewAt(ks'.mem, sys.procs[j].chunk) == ViewAt(sys.ks.mem, sys.procs[j].chunk)
  {
    hide Refines, Footprint, OwnedFrames, ProcOk, ViewAt;
    var ks, p, q := sys.ks, sys.procs[i], sys.procs[j];
    assert Claims(ks.mem, p) !! Claims(ks.mem, q) by {
      assert if i < j then Claims(ks.mem, p) !! Claims(ks.mem, q) else Claims(ks.mem, q) !! Claims(ks.mem, p);
    }
    assert forall f :: f in Footprint(ks.mem, q.chunk) ==> f in Claims(ks.mem, q);
    assert forall f :: f in Footprint(ks.mem, p.chunk) ==> f in Claims(ks.mem, p);
    forall f | f in Claims(ks.mem, q)
      ensures HEAP_FRAME <= f < FRAMES && f - HEAP_FRAME in ks.live && f - HEAP_FRAME in ks'.live
        && ks'.live[f - HEAP_FRAME] == ks.live[f - HEAP_FRAME]
    {
      ClaimsAreLive(ks, q, f);
      LiveInHeap(ks, f - HEAP_FRAME);
      assert FrameOf(f - HEAP_FRAME) == f;
    }
    OtherProc(ks, ks', q);
  }

  lemma AllocateKeepsInv(sys: System, i: nat, size: nat)
    requires Inv(sys) && Legal(sys, Allocate(i, size))
    ensures Inv(Apply(sys, Allocate(i, size))) && AllKeptOutside(sys, Apply(sys, Allocate(i, size)))
  {
    hide Refines, ProcessMalloc, ProcOk, Inv, OwnedFrames, Footprint, Fits, BlocksFor, Claims, SpaceAt, OwnsRun, ViewAt, SameOutside, KeptOutside;
    InvParts(sys, i);
    var p := sys.procs[i];
    MallocKeepsProc(sys.ks, p, size);
    var o := ProcessMalloc(sys.ks, p, size);
    var sys' := System(o.ks, sys.procs[i := o.proc]);
    forall g: nat | HEAP_FRAME <= g < FRAMES && g - HEAP_FRAME in sys.ks.live ensures TakenFrame(sys.ks, g) {
      LiveIsTaken(sys.ks, g - HEAP_FRAME);
    }
    MallocKeepsOutside(sys.ks, p, size);
    OwnKept(sys, sys', i);
    forall j | 0 <= j < |sys.procs| && j != i
      ensures sys.procs[j].chunk < FRAMES && ProcOk(o.ks, sys.procs[j])
        && Claims(o.ks.mem, sys.procs[j]) == Claims(sys.ks.mem, sys.procs[j])
        && Claims(o.ks.mem, o.proc) !! Claims(sys.ks.mem, sys.procs[j])
        && KeptOutside(sys, sys', j)
    {
      InvParts(sys, j);
      ClaimsDisjoint(sys, i, j);
      Bystander(sys, i, j, o.ks);
      BystanderKept(sys, sys', j);
      if o.ptr != 0 && o.ptr / PAGE_SIZE in Claims(sys.ks.mem, sys.procs[j]) {
        ClaimsAreLive(sys.ks, sys.procs[j], o.ptr / PAGE_SIZE);
      }
    }
    ReplaceProc(sys, i, o.ks, o.proc);
  }

  lemma OwnKept(sys: System, sys': System, i: nat)
    requires Kept(sys, sys', i) && SameOutside(sys.ks.mem, sys'.ks.mem, sys.procs[i].chunk)
    ensures KeptOutside(sys, sys', i)
  {
  }

  lemma ClaimsDisjoint(sys: System, i: nat, j: nat)
    requires Inv(sys) && i < |sys.procs| && j < |sys.procs| && i != j
    requires sys.procs[i].chunk < FRAMES && sys.procs[j].chunk < FRAMES
    ensures Claims(sys.ks.mem, sys.procs[i]) !! Claims(sys.ks.mem, sys.procs[j])
  {
    hide Refines, ProcOk, Claims;
    assert if i < j then Claims(sys.ks.mem, sys.procs[i]) !! Claims(sys.ks.mem, sys.procs[j])
           else Claims(sys.ks.mem, sys.procs[j]) !! Claims(sys.ks.mem, sys.procs[i]);
  }

  lemma DeallocateKeepsInv(sys: System, i: nat, ptr: nat)
    requires Inv(sys) && Legal(sys, Deallocate(i, ptr))
    ensures Inv(Apply(sys, Deallocate(i, ptr))) && AllKeptOutside(sys, Apply(sys, Deallocate(i, ptr)))
  {
    hide Refines, ProcessFree, ProcOk, Inv, Footprint, ViewAt, SpaceAt, OwnsRun, MarkFree, SlotOf, KeptOutside;
    InvParts(sys, i);
    var p := sys.procs[i];
    FreeKeepsProc(sys.ks, p, ptr);
    var o := ProcessFree(sys.ks, p, ptr);
    var sys' := System(o.ks, sys.procs[i := o.proc]);
    if SlotOf(p.allocs, ptr) < 0 {
      assert sys.procs[i := p] == sys.procs;
      forall j | 0 <= j < |sys.procs| ensures KeptOutside(sys, sys', j) {
        InvParts(sys, j);
        BystanderKept(sys, sys', j);
      }
    } else {
      FreeKeepsOutside(sys.ks, p, ptr, o);
      OwnKept(sys, sys', i);
      var k :| 0 <= k < |p.allocs| && p.allocs[k].ptr == ptr;
      assert ptr / PAGE_SIZE in OwnedFrames(p.allocs);
      forall j | 0 <= j < |sys.procs| && j != i
        ensures sys.procs[j].chunk < FRAMES && ProcOk(o.ks, sys.procs[j])
          && Claims(o.ks.mem, sys.procs[j]) == Claims(sys.ks.mem, sys.procs[j])
          && Claims(o.ks.mem, o.proc) !! Claims(sys.ks.mem, sys.procs[j])
          && KeptOutside(sys, sys', j)
      {
        InvParts(sys, j);
        ClaimsDisjoint(sys, i, j);
        Bystander(sys, i, j, o.ks);
        BystanderKept(sys, sys', j);
      }
      ReplaceProc(sys, i, o.ks, o.proc);
    }
  }

  lemma FreeKeepsOutside(ks: KState, p: Proc, ptr: nat, o: Outcome)
    requires Ok(ks) && p.chunk < FRAMES && o.proc.chunk < FRAMES && Freed(ks, p, ptr, o)
    ensures SameOutside(ks.mem, o.ks.mem, p.chunk)
  {
    hide ViewAt, Claims, Open;
    LiveInHeap(ks, ptr / PAGE_SIZE - HEAP_FRAME);
  }

  lemma MapOutsideKeepsInv(sys: System, i: nat, v: nat, f: nat, n: nat, flags: nat)
    requires Inv(sys) && Legal(sys, MapOutside(i, v, f, n, flags))
    ensures var sys' := Apply(sys, MapOutside(i, v, f, n, flags));
      && Inv(sys') && Kept(sys, sys', i) && (forall j :: 0 <= j < |sys.procs| && j != i ==> KeptOutside(sys, sys', j))
      && ViewAt(sys'.ks.mem, sys.procs[i].chunk) == P.MapPages(ViewAt(sys.ks.mem, sys.procs[i].chunk), v, f, n, flags)
  {
    hide Refines, MapMem, Inv, ViewAt, SpaceAt, OwnsRun, P.Tables, P.Space, SlotsOk, Owns, KeptOutside, Open;
    InvParts(sys, i);
    var p := sys.procs[i];
    MapKeepsSpace(sys.ks.mem, p.chunk, v, f, n, flags);
    var ks' := sys.ks.(mem := MapMem(sys.ks.mem, Dir(sys.ks.mem, p.chunk), v, f, n, flags));
    assert ProcOk(ks', p);
    var sys' := System(ks', sys.procs);
    forall j | 0 <= j < |sys.procs| && j != i
      ensures sys.procs[j].chunk < FRAMES && ProcOk(ks', sys.procs[j])
        && Claims(ks'.mem, sys.procs[j]) == Claims(sys.ks.mem, sys.procs[j])
        && Claims(ks'.mem, p) !! Claims(sys.ks.mem, sys.procs[j])
        && KeptOutside(sys, sys', j)
    {
      InvParts(sys, j);
      ClaimsDisjoint(sys, i, j);
      Bystander(sys, i, j, ks');
      BystanderKept(sys, sys', j);
    }
    ReplaceProc(sys, i, ks', p);
    assert sys.procs[i := p] == sys.procs;
  }

  /** Steps of the kernel itself: every process is a bystander. */
  lemma AllBystanders(sys: System, ks': KState)
    requires Inv(sys) && Ok(ks')
    requires forall b :: b in sys.ks.live && !Unclaimed(sys, FrameOf(b)) ==> b in ks'.live && ks'.live[b] == sys.ks.live[b]
    requires forall g: nat :: HEAP_FRAME <= g < FRAMES && g - HEAP_FRAME in sys.ks.live ==> ks'.mem[g] == sys.ks.mem[g]
    ensures Inv(System(ks', sys.procs))
    ensures forall i :: 0 <= i < |sys.procs| ==>
      && sys.procs[i].chunk < FRAMES && Claims(ks'.mem, sys.procs[i]) == Claims(sys.ks.mem, sys.procs[i])
      && ViewAt(ks'.mem, sys.procs[i].chunk) == ViewAt(sys.ks.mem, sys.procs[i].chunk)
  {
    hide Refines, ProcOk, Footprint, OwnedFrames, SpaceAt, ViewAt;
    forall i | 0 <= i < |sys.procs|
      ensures sys.procs[i].chunk < FRAMES && ProcOk(ks', sys.procs[i])
        && Claims(ks'.mem, sys.procs[i]) == Claims(sys.ks.mem, sys.procs[i])
        && ViewAt(ks'.mem, sys.procs[i].chunk) == ViewAt(sys.ks.mem, sys.procs[i].chunk)
    {
      InvParts(sys, i);
      var q := sys.procs[i];
      assert forall f :: f in Footprint(sys.ks.mem, q.chunk) ==> f in Claims(sys.ks.mem, q);
      forall f | f in Claims(sys.ks.mem, q)
        ensures HEAP_FRAME <= f < FRAMES && f - HEAP_FRAME in sys.ks.live && f - HEAP_FRAME in ks'.live
          && ks'.live[f - HEAP_FRAME] == sys.ks.live[f - HEAP_FRAME]
      {
        ClaimsAreLive(sys.ks, q, f);
        LiveInHeap(sys.ks, f - HEAP_FRAME);
        assert FrameOf(f - HEAP_FRAME) == f && !Unclaimed(sys, f);
      }
      OtherProc(sys.ks, ks', q);
    }
  }

  lemma AllBystandersKept(sys: System, sys': System)
    requires |sys'.procs| >= |sys.procs| && forall j :: 0 <= j < |sys.procs| ==>
      && sys'.procs[j] == sys.procs[j] && sys.procs[j].chunk < FRAMES
      && Claims(sys'.ks.mem, sys.procs[j]) == Claims(sys.ks.mem, sys.procs[j])
      && ViewAt(sys'.ks.mem, sys.procs[j].chunk) == ViewAt(sys.ks.mem, sys.procs[j].chunk)
    ensures AllKeptOutside(sys, sys')
  {
    hide Claims, ViewAt, KeptOutside, Open;
    forall j | 0 <= j < |sys.procs| ensures KeptOutside(sys, sys', j) {
      BystanderKept(sys, sys', j);
    }
  }

  lemma KernelAllocKeepsInv(sys: System, size: nat)
    requires Inv(sys) && Legal(sys, KernelAlloc(size))
    ensures Inv(Apply(sys, KernelAlloc(size))) && AllKeptOutside(sys, Apply(sys, KernelAlloc(size)))
    ensures forall j :: 0 <= j < |sys.procs| ==>
      sys.procs[j].chunk < FRAMES && Claims(Apply(sys, KernelAlloc(size)).ks.mem, sys.procs[j]) == Claims(sys.ks.mem, sys.procs[j])
  {
    hide Refines, ProcOk, Zalloc, Fits, BlocksFor, StartBlock, Claims, FreeRun, ViewAt, KeptOutside;
    ZallocFacts(sys.ks, size);
    var s := StartBlock(sys.ks.table, BlocksFor(size));
    if s < 0 {
      ZallocRefused(sys.ks, size);
      forall j | 0 <= j < |sys.procs| ensures sys.procs[j].chunk < FRAMES && KeptOutside(sys, sys, j) {
        InvParts(sys, j);
        BystanderKept(sys, sys, j);
      }
    } else {
      forall g: nat | HEAP_FRAME <= g < FRAMES && g - HEAP_FRAME in sys.ks.live
        ensures Zalloc(sys.ks, size).mem[g] == sys.ks.mem[g]
      {
        LiveCoversItself(sys.ks, g - HEAP_FRAME);
      }
      AllBystanders(sys, Zalloc(sys.ks, size));
      AllBystandersKept(sys, System(Zalloc(sys.ks, size), sys.procs));
    }
  }

  lemma KernelFreeKeepsInv(sys: System, b: nat)
    requires Inv(sys) && Legal(sys, KernelFree(b))
    ensures Inv(Apply(sys, KernelFree(b))) && AllKeptOutside(sys, Apply(sys, KernelFree(b)))
  {
    hide Refines, ProcOk, Claims, FreeAt, ViewAt, KeptOutside;
    ReleaseOk(sys.ks, b);
    AllBystanders(sys, Release(sys.ks, b));
    AllBystandersKept(sys, System(Release(sys.ks, b), sys.procs));
  }

  /** paging_new_4gb with the flags of task_init. */
  lemma NewIsOpen(ks: KState)
    requires Ok(ks) && HeapTheory.FreeFrom(ks.table, 0) >= SPACE_BLOCKS
    ensures 0 <= NewFrame(ks) < FRAMES && 0 <= NewFrame(BuiltState(ks, P.USER_READ)) < FRAMES
    ensures Open(New4gb(ks, P.USER_READ).mem, NewFrame(BuiltState(ks, P.USER_READ)))
  {
    hide Refines, New4gb, NewFrame, BuiltState, Footprint, SpaceAt, ViewAt, Dir, P.Identity, HeapTheory.FreeFrom, DirectoryIs;
    New4gbBuilds(ks, P.USER_READ);
  }

  lemma SpawnKeepsInv(sys: System)
    requires Inv(sys) && Legal(sys, Spawn)
    ensures Inv(Apply(sys, Spawn)) && AllKeptOutside(sys, Apply(sys, Spawn))
    ensures var sys', c := Apply(sys, Spawn), NewFrame(BuiltState(sys.ks, P.USER_READ));
      && c < FRAMES && ViewAt(sys'.ks.mem, c) == P.Identity(P.USER_READ)
      && (forall f :: f in Claims(sys'.ks.mem, Proc(c, NoAllocs())) ==> f - HEAP_FRAME !in sys.ks.live)
      && (forall b :: b in sys.ks.live ==> b in sys'.ks.live && sys'.ks.live[b] == sys.ks.live[b])
  {
    hide KeptOutside, Refines, ProcOk, Open, New4gb, NewFrame, BuiltState, HeapTheory.FreeFrom, Footprint, SpaceAt, ViewAt, MarkFrames, P.Identity, OwnedFrames;
    New4gbBuilds(sys.ks, P.USER_READ);
    NewIsOpen(sys.ks);
    var ks', c := New4gb(sys.ks, P.USER_READ), NewFrame(BuiltState(sys.ks, P.USER_READ));
    var p := Proc(c, NoAllocs());
    var fs := Footprint(ks'.mem, c);
    forall f | f in fs ensures f - HEAP_FRAME !in sys.ks.live {
      if f - HEAP_FRAME in sys.ks.live { LiveIsTaken(sys.ks, f - HEAP_FRAME); }
    }
    forall b | b in sys.ks.live ensures b in ks'.live && ks'.live[b] == sys.ks.live[b] {
      LiveInHeap(sys.ks, b);
      assert FrameOf(b) - HEAP_FRAME == b;
    }
    AllBystanders(sys, ks');
    NewProcOk(sys.ks, ks', c);
    var procs' := sys.procs + [p];
    AllBystandersKept(sys, System(ks', procs'));
    forall i | 0 <= i < |sys.procs| ensures Claims(ks'.mem, sys.procs[i]) !! Claims(ks'.mem, p) {
      InvParts(sys, i);
      forall f | f in Claims(ks'.mem, sys.procs[i]) ensures f !in fs {
        ClaimsAreLive(sys.ks, sys.procs[i], f);
      }
    }
  }

  lemma StepKeepsInv(sys: System, op: Op)
    requires Inv(sys) && Legal(sys, op)
    ensures Inv(Apply(sys, op))
  {
    hide Inv, Apply, Legal;
    match op
    case Spawn => SpawnKeepsInv(sys);
    case Allocate(i, size) => AllocateKeepsInv(sys, i, size);
    case Deallocate(i, ptr) => DeallocateKeepsInv(sys, i, ptr);
    case MapOutside(i, v, f, n, flags) => MapOutsideKeepsInv(sys, i, v, f, n, flags);
    case KernelAlloc(size) => KernelAllocKeepsInv(sys, size);
    case KernelFree(b) => KernelFreeKeepsInv(sys, b);
  }

  lemma NoProcessesYet(ks: KState)
    requires Ok(ks)
    ensures Inv(System(ks, []))
  {
  }

  /** The invariant holds after every step of every interleaving. */
  lemma {:induction false} EveryInterleavingKeepsInv(states: seq<System>, ops: seq<Op>, n: nat)
    requires Run(states, ops) && Inv(states[0]) && n <= |ops|
    ensures Inv(states[n])
  {
    hide Inv, Apply, Legal;
    if n > 0 {
      EveryInterleavingKeepsInv(states, ops, n - 1);
      assert Steps(states[n - 1], ops[n - 1], states[n]);
      StepKeepsInv(states[n - 1], ops[n - 1]);
    }
  }

  // ---------------------------------------------------------------- what the invariant means

  /** Slot k of process i holds the page g. */
  ghost predicate Holds(sys: System, i: nat, k: nat, g: nat) {
    i < |sys.procs| && k < |sys.procs[i].allocs| && InRun(sys.procs[i].allocs[k], g)
  }

  lemma HoldsIsLive(sys: System, i: nat, k: nat, g: nat)
    requires Inv(sys) && Holds(sys, i, k, g)
    ensures var b := sys.procs[i].allocs[k].ptr / PAGE_SIZE - HEAP_FRAME;
      && b >= 0 && Covers(sys.ks.live, b, g - HEAP_FRAME) && HEAP_FRAME <= g < HEAP_FRAME + HEAP_BLOCKS
      && OwnsRun(sys.ks.live, sys.procs[i].allocs[k])
      && HEAP_FRAME + b in Claims(sys.ks.mem, sys.procs[i])
  {
    hide Refines, Inv, Footprint, SpaceAt, ViewAt, WindowOk, BlocksFor, Open;
    InvParts(sys, i);
    var a := sys.procs[i].allocs[k];
    assert OwnsRun(sys.ks.live, a);
    assert a.ptr / PAGE_SIZE in OwnedFrames(sys.procs[i].allocs);
    LiveInHeap(sys.ks, a.ptr / PAGE_SIZE - HEAP_FRAME);
  }

  /** A page belongs to at most one slot of at most one process. */
  lemma OneHolder(sys: System, i: nat, k: nat, j: nat, l: nat, g: nat)
    requires Inv(sys) && Holds(sys, i, k, g) && Holds(sys, j, l, g)
    ensures i == j && k == l
  {
    hide Refines, Inv, Footprint, SpaceAt, ViewAt, WindowOk, BlocksFor, Claims, Holds, InRun, Open;
    HoldsIsLive(sys, i, k, g);
    HoldsIsLive(sys, j, l, g);
    HolderIndices(sys, i, k, g);
    HolderIndices(sys, j, l, g);
    InvParts(sys, i);
    InvParts(sys, j);
    var a, b := sys.procs[i].allocs[k], sys.procs[j].allocs[l];
    RunsDisjoint(sys.ks.table, sys.ks.live, a.ptr / PAGE_SIZE - HEAP_FRAME, b.ptr / PAGE_SIZE - HEAP_FRAME, g - HEAP_FRAME);
    if i != j { ClaimsDisjoint(sys, i, j); }
  }

  lemma HolderIndices(sys: System, i: nat, k: nat, g: nat)
    requires Holds(sys, i, k, g)
    ensures i < |sys.procs| && k < |sys.procs[i].allocs| && sys.procs[i].allocs[k].ptr != 0
  {
    hide BlocksFor;
  }

  /** An owned page maps to itself, present, writable, and open to user code. */
  lemma OwnedPageIsMapped(sys: System, i: nat, k: nat, g: nat)
    requires Inv(sys) && Holds(sys, i, k, g)
    ensures sys.procs[i].chunk < FRAMES && g < FRAMES
    ensures var e := ViewAt(sys.ks.mem, sys.procs[i].chunk)[g];
      P.Frame(e) == g && P.IsPresent(e) && P.IsWriteable(e) && P.IsUser(e)
  {
    hide Refines, Inv, Footprint, SpaceAt, ViewAt, BlocksFor, InRun, Claims, ProcOk, P.Frame, P.IsPresent, P.IsWriteable, P.IsUser, OwnsRun;
    HoldsIsLive(sys, i, k, g);
    InvParts(sys, i);
    assert Owns(sys.procs[i].allocs, g);
    OwnedEntry(sys.ks, sys.procs[i], g);
    EntryFlags(g);
  }

  lemma OwnedEntry(ks: KState, p: Proc, g: nat)
    requires p.chunk < FRAMES && ProcOk(ks, p) && Owns(p.allocs, g) && HEAP_FRAME <= g < HEAP_FRAME + HEAP_BLOCKS
    ensures ViewAt(ks.mem, p.chunk)[g] == g * PAGE_SIZE + P.USER_WRITE
  {
    hide Footprint, SpaceAt, ViewAt, Owns, SlotsOk, Open;
  }

  lemma EntryFlags(g: nat)
    requires g < FRAMES
    ensures var e := g * PAGE_SIZE + P.USER_WRITE; P.Frame(e) == g && P.IsPresent(e) && P.IsWriteable(e) && P.IsUser(e)
  {
  }

  /**
    Isolation: while process i holds page g, no page in the heap window of another process that
    is writable there maps to frame g.
   */
  lemma NoSharedWritablePage(sys: System, i: nat, k: nat, g: nat, j: nat, v: nat)
    requires Inv(sys) && Holds(sys, i, k, g) && j < |sys.procs| && j != i
    requires HEAP_FRAME <= v < HEAP_FRAME + HEAP_BLOCKS
    ensures sys.procs[j].chunk < FRAMES
    ensures var e := ViewAt(sys.ks.mem, sys.procs[j].chunk)[v]; P.IsWriteable(e) ==> P.Frame(e) != g
  {
    hide Refines, Inv, Footprint, SpaceAt, ViewAt, BlocksFor, InRun, Claims, Open;
    InvParts(sys, j);
    var e := ViewAt(sys.ks.mem, sys.procs[j].chunk)[v];
    if P.IsWriteable(e) {
      assert Owns(sys.procs[j].allocs, v);
      var l :| 0 <= l < |sys.procs[j].allocs| && InRun(sys.procs[j].allocs[l], v);
      assert Holds(sys, j, l, v);
      if v == g { OneHolder(sys, i, k, j, l, g); }
    }
  }

  /** All allocation pointers of all processes are distinct live runs of the heap. */
  lemma PointersAreDistinctRuns(sys: System, i: nat, k: nat, j: nat, l: nat)
    requires Inv(sys) && i < |sys.procs| && j < |sys.procs|
    requires k < |sys.procs[i].allocs| && l < |sys.procs[j].allocs| && sys.procs[i].allocs[k].ptr != 0
    ensures OwnsRun(sys.ks.live, sys.procs[i].allocs[k])
    ensures sys.procs[i].allocs[k].ptr == sys.procs[j].allocs[l].ptr ==> i == j && k == l
  {
    hide Refines, Inv, Footprint, SpaceAt, ViewAt, Claims, ProcOk, OwnsRun;
    InvParts(sys, i);
    InvParts(sys, j);
    var a, b := sys.procs[i].allocs[k], sys.procs[j].allocs[l];
    assert OwnsRun(sys.ks.live, a);
    if a.ptr == b.ptr {
      var g := a.ptr / PAGE_SIZE;
      assert OwnsRun(sys.ks.live, b);
      RunHasFirstPage(sys.ks, a);
      RunHasFirstPage(sys.ks, b);
      assert Holds(sys, i, k, g) && Holds(sys, j, l, g);
      OneHolder(sys, i, k, j, l, g);
    }
  }

  lemma RunHasFirstPage(ks: KState, a: Alloc)
    requires Ok(ks) && OwnsRun(ks.live, a) && a.ptr != 0
    ensures InRun(a, a.ptr / PAGE_SIZE)
  {
    hide BlocksFor;
    LiveInHeap(ks, a.ptr / PAGE_SIZE - HEAP_FRAME);
  }

  /** process_free of a non-null pointer changes the system if and only if the process owns it. */
  lemma FreeOfForeignPointer(sys: System, i: nat, ptr: nat)
    requires Inv(sys) && i < |sys.procs| && ptr != 0
    ensures Apply(sys, Deallocate(i, ptr)) == sys <==>
      forall k :: 0 <= k < |sys.procs[i].allocs| ==> sys.procs[i].allocs[k].ptr != ptr
  {
    hide Refines, Inv, Footprint, SpaceAt, ViewAt, Claims, ProcOk, ProcessFree, OwnsRun, MarkFree;
    InvParts(sys, i);
    FreeKeepsProc(sys.ks, sys.procs[i], ptr);
    var o := ProcessFree(sys.ks, sys.procs[i], ptr);
    if SlotOf(sys.procs[i].allocs, ptr) < 0 {
      assert sys.procs[i := o.proc] == sys.procs;
    }
  }

  /** process_malloc followed by process_free of its result: heap table and all slots are as before. */
  lemma AllocateThenDeallocate(sys: System, i: nat, size: nat)
    requires Inv(sys) && Legal(sys, Allocate(i, size))
    requires sys.procs[i].chunk < FRAMES && ProcessMalloc(sys.ks, sys.procs[i], size).ptr != 0
    ensures var sys1, ptr := Apply(sys, Allocate(i, size)), ProcessMalloc(sys.ks, sys.procs[i], size).ptr;
      && Inv(sys1)
      && var sys2 := Apply(sys1, Deallocate(i, ptr));
      && Inv(sys2) && sys2.procs == sys.procs && sys2.ks.live == sys.ks.live && sys2.ks.table == sys.ks.table
  {
    hide Refines, Inv, Footprint, SpaceAt, ViewAt, Claims, ProcOk, ProcessMalloc, ProcessFree, OwnsRun, MarkFree, BlocksFor, SlotOf, FreeSlot, Fits;
    InvParts(sys, i);
    var p := sys.procs[i];
    MallocKeepsProc(sys.ks, p, size);
    var o := ProcessMalloc(sys.ks, p, size);
    AllocateKeepsInv(sys, i, size);
    var sys1 := Apply(sys, Allocate(i, size));
    var slot :| 0 <= slot < |p.allocs| && p.allocs[slot].ptr == 0 && o.proc == p.(allocs := p.allocs[slot := Alloc(o.ptr, size)]);
    InvParts(sys1, i);
    DeallocateKeepsInv(sys1, i, o.ptr);
    FreeKeepsProc(sys1.ks, o.proc, o.ptr);
    var o2 := ProcessFree(sys1.ks, o.proc, o.ptr);
    assert o.proc.allocs[slot].ptr == o.ptr;
    assert o2.ks.live == sys.ks.live;
    LiveDeterminesTable(sys.ks, o2.ks);
    var k :| 0 <= k < |o.proc.allocs| && o.proc.allocs[k].ptr == o.ptr && o2.proc == o.proc.(allocs := o.proc.allocs[k := UNUSED]);
    SlotsAreUnique(sys1, i, k, slot);
    UnusedSlot(sys.ks, p, slot);
    assert p.allocs[slot := Alloc(o.ptr, size)][slot := UNUSED] == p.allocs;
    assert sys.procs[i := o.proc][i := p] == sys.procs;
  }

  lemma SlotsAreUnique(sys: System, i: nat, k: nat, l: nat)
    requires Inv(sys) && i < |sys.procs| && k < |sys.procs[i].allocs| && l < |sys.procs[i].allocs|
    requires sys.procs[i].allocs[k].ptr != 0 && sys.procs[i].allocs[k].ptr == sys.procs[i].allocs[l].ptr
    ensures k == l
  {
    hide Inv;
    PointersAreDistinctRuns(sys, i, k, i, l);
  }

  lemma UnusedSlot(ks: KState, p: Proc, k: nat)
    requires ProcOk(ks, p) && k < |p.allocs| && p.allocs[k].ptr == 0
    ensures p.allocs[k] == UNUSED
  {
    hide OwnsRun, SpaceAt, Footprint, ViewAt, WindowOk, Open;
  }
}
