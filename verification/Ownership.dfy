/**
  Who may write where. Beside its allocations a process holds the heap blocks that its program image
  and stack were loaded into, and only these may be mapped writable for it outside the window of heap
  addresses. Then no physical page is ever writable in two processes, and the end of a process gives
  back exactly what it held.
 */
module Ownership {
  import opened HeapTable
  import opened Memory
  import opened KernelState
  import opened AddressSpace
  import opened ProcessMemory
  import opened ProgramImage
  import I = Isolation
  import HT = HeapTheory
  import P = Paging

  /** The system, and for each process the first blocks of the runs it holds for image and stack. */
  datatype Owned = Owned(sys: System, held: seq<seq<nat>>)

  /** Frame `g` lies in one of these runs. */
  ghost predicate InHeld(live: map<nat, nat>, blocks: seq<nat>, g: int) {
    exists b: nat :: b in blocks && Covers(live, b, g - HEAP_FRAME)
  }

  ghost predicate HeldOk(sys: System, blocks: seq<nat>) {
    && (forall a, b :: 0 <= a < b < |blocks| ==> blocks[a] != blocks[b])
    && (forall b :: b in blocks ==> b in sys.ks.live && I.Unclaimed(sys, FrameOf(b)))
  }

  /** Outside the window process i can write to the runs it holds, and nowhere else. */
  ghost predicate WritesOk(sys: System, i: nat, blocks: seq<nat>)
    requires i < |sys.procs|
  {
    && sys.procs[i].chunk < FRAMES
    && forall v: nat :: OutsideWindow(v) && P.IsWriteable(ViewAt(sys.ks.mem, sys.procs[i].chunk)[v]) ==>
      InHeld(sys.ks.live, blocks, P.Frame(ViewAt(sys.ks.mem, sys.procs[i].chunk)[v]))
  }

  ghost predicate OInv(o: Owned) {
    && Inv(o.sys) && |o.held| == |o.sys.procs|
    && (forall i :: 0 <= i < |o.held| ==> HeldOk(o.sys, o.held[i]) && WritesOk(o.sys, i, o.held[i]))
    && (forall i, j, b :: 0 <= i < j < |o.held| && b in o.held[i] ==> b !in o.held[j])
  }

  /**
    Steps of Isolation but for its mappings; a live run given to a process; process_map_memory.
   */
  datatype Act = Plain(op: I.Op) | Give(pid: nat, block: nat) | MapMemory(pid: nat, image: Image, stack: nat)

  ghost predicate Legal(o: Owned, a: Act) {
    match a
    case Plain(op) => I.Legal(o.sys, op) && !op.MapOutside? && (op.KernelFree? ==> Unheld(o, op.block))
    case Give(i, b) => i < |o.held| && b in o.sys.ks.live && I.Unclaimed(o.sys, FrameOf(b)) && Unheld(o, b)
    case MapMemory(i, image, stack) => Mappable(o, i, image, stack)
  }

  ghost predicate Unheld(o: Owned, b: nat) {
    forall i :: 0 <= i < |o.held| ==> b !in o.held[i]
  }

  /** What process_load guarantees: no allocations yet, no address wraps, and the stack is a held run of four blocks. */
  ghost predicate Mappable(o: Owned, i: nat, image: Image, stack: nat) {
    && i < |o.sys.procs| == |o.held| && o.sys.procs[i].allocs == NoAllocs() && ImageOk(image)
    && stack % PAGE_SIZE == 0 && HEAP_FRAME <= stack / PAGE_SIZE && stack + STACK_SIZE <= 0xFFFF_F000
    && var b := stack / PAGE_SIZE - HEAP_FRAME;
      b in o.held[i] && b in o.sys.ks.live && o.sys.ks.live[b] == STACK_SIZE / PAGE_SIZE
  }

  /**
    What process_load does not check. Each page of the image that the stack leaves visible: a writable
    one lies outside the window and in a run that the process holds; any other one lies outside the
    window or maps a page to itself.
   */
  ghost predicate ImageFits(o: Owned, i: nat, image: Image)
    requires i < |o.held| && ImageOk(image)
  {
    forall p: nat :: p < FRAMES && InImage(image, p) && !InStack(p) ==> EntryFits(o.sys.ks.live, o.held[i], p, ImageEntry(image, p))
  }

  ghost predicate EntryFits(live: map<nat, nat>, blocks: seq<nat>, p: nat, e: Word) {
    if P.IsWriteable(e) then OutsideWindow(p) && InHeld(live, blocks, P.Frame(e))
    else OutsideWindow(p) || e == p * PAGE_SIZE + P.USER_READ
  }

  function Drop<T>(s: seq<T>, i: nat): (r: seq<T>)
    requires i < |s|
    ensures |r| == |s| - 1
  {
    s[..i] + s[i + 1..]
  }

  ghost function ApplyPlain(o: Owned, op: I.Op): Owned
    requires OInv(o) && Legal(o, Plain(op))
  {
    Owned(I.Apply(o.sys, op), if op.Spawn? then o.held + [[]] else o.held)
  }

  // ---------------------------------------------------------------- plain steps

  lemma Parts(o: Owned, i: nat)
    requires OInv(o) && i < |o.sys.procs|
    ensures Inv(o.sys) && i < |o.held| && HeldOk(o.sys, o.held[i]) && WritesOk(o.sys, i, o.held[i])
    ensures o.sys.procs[i].chunk < FRAMES && Ok(o.sys.ks) && ProcOk(o.sys.ks, o.sys.procs[i])
  {
    hide HeldOk, WritesOk, Inv;
    I.InvParts(o.sys, i);
  }

  /** A live run that nobody claims stays live, unless the kernel frees it. */
  lemma LiveKept(sys: System, op: I.Op, b: nat)
    requires Inv(sys) && I.Legal(sys, op) && b in sys.ks.live && I.Unclaimed(sys, FrameOf(b))
    requires op.KernelFree? ==> op.block != b
    ensures var sys' := I.Apply(sys, op); b in sys'.ks.live && sys'.ks.live[b] == sys.ks.live[b]
  {
    hide Inv, Refines, ProcessMalloc, ProcessFree, ProcOk, Footprint, ViewAt, SpaceAt, OwnsRun, MarkFree, SlotOf, OwnedFrames, Fits, BlocksFor, Zalloc, StartBlock, FreeRun, MapMem, FreeAt, New4gb, BuiltState, NewFrame;
    match op
    case Spawn => I.SpawnKeepsInv(sys);
    case Allocate(i, size) =>
      I.InvParts(sys, i);
      MallocKeepsProc(sys.ks, sys.procs[i], size);
    case Deallocate(i, ptr) =>
      I.InvParts(sys, i);
      FreeKeepsProc(sys.ks, sys.procs[i], ptr);
      if SlotOf(sys.procs[i].allocs, ptr) >= 0 {
        OwnedClaim(sys.ks, sys.procs[i], ptr);
        assert FrameOf(b) == HEAP_FRAME + b;
      }
    case MapOutside(i, v, f, n, flags) =>
    case KernelAlloc(size) => KernelLive(sys, size, b);
    case KernelFree(c) =>
  }

  /** The first page of such a run keeps its bytes. */
  lemma PageKept(sys: System, op: I.Op, b: nat)
    requires Inv(sys) && I.Legal(sys, op) && !op.MapOutside? && b in sys.ks.live && I.Unclaimed(sys, FrameOf(b))
    ensures FrameOf(b) < FRAMES && I.Apply(sys, op).ks.mem[FrameOf(b)] == sys.ks.mem[FrameOf(b)]
  {
    hide Inv, Refines, ProcessMalloc, ProcessFree, ProcOk, ViewAt, SpaceAt, OwnsRun, MarkFree, SlotOf, OwnedFrames, Fits, BlocksFor, Zalloc, StartBlock, FreeRun, MapMem, FreeAt, New4gb, BuiltState, NewFrame, P.Tables, HT.FreeFrom;
    SystemOk(sys);
    LiveIsTaken(sys.ks, b);
    match op
    case Spawn => SpawnElsewhere(sys.ks, FrameOf(b));
    case Allocate(i, size) =>
      I.InvParts(sys, i);
      MallocKeepsProc(sys.ks, sys.procs[i], size);
    case Deallocate(i, ptr) =>
      I.InvParts(sys, i);
      FreeKeepsProc(sys.ks, sys.procs[i], ptr);
    case KernelAlloc(size) =>
      LiveCoversItself(sys.ks, b);
      AllocElsewhere(sys.ks, size, b);
    case KernelFree(c) =>
  }

  lemma SpawnElsewhere(ks: KState, f: nat)
    requires Ok(ks) && TakenFrame(ks, f) && HT.FreeFrom(ks.table, 0) >= SPACE_BLOCKS
    ensures 0 <= NewFrame(ks) < FRAMES && 0 <= NewFrame(BuiltState(ks, P.USER_READ)) < FRAMES
    ensures f < FRAMES && New4gb(ks, P.USER_READ).mem[f] == ks.mem[f]
  {
    hide Refines, New4gb, BuiltState, NewFrame, Footprint, SpaceAt, ViewAt, HT.FreeFrom, P.Identity, Open;
    New4gbBuilds(ks, P.USER_READ);
  }

  lemma AllocElsewhere(ks: KState, size: nat, b: nat)
    requires Serves(ks, size) && Covers(ks.live, b, b) && b < HEAP_BLOCKS
    ensures Zalloc(ks, size).mem[FrameOf(b)] == ks.mem[FrameOf(b)]
  {
    hide Refines, Fits, BlocksFor, StartBlock, FreeRun, ZeroFill;
    ZallocFacts(ks, size);
  }

  /** A live run that is nobody's stays so, and its first page stays as it is, unless the kernel frees it. */
  lemma LooseKept(o: Owned, op: I.Op, b: nat)
    requires OInv(o) && Legal(o, Plain(op)) && (op.KernelFree? ==> op.block != b)
    requires b in o.sys.ks.live && I.Unclaimed(o.sys, FrameOf(b)) && Unheld(o, b)
    ensures var r := ApplyPlain(o, op);
      && b in r.sys.ks.live && r.sys.ks.live[b] == o.sys.ks.live[b] && I.Unclaimed(r.sys, FrameOf(b)) && Unheld(r, b)
      && FrameOf(b) < FRAMES && r.sys.ks.mem[FrameOf(b)] == o.sys.ks.mem[FrameOf(b)]
  {
    hide Inv, OInv, Claims, I.Apply, I.Kept, I.KeptOutside, SameOutside, I.Unclaimed;
    InvOf(o);
    LiveKept(o.sys, op, b);
    PageKept(o.sys, op, b);
    StepKept(o.sys, op);
    StaysUnclaimed(o.sys, I.Apply(o.sys, op), FrameOf(b));
  }

  /** What processes claim after a step they claimed before, or it was free. */
  lemma StepKept(sys: System, op: I.Op)
    requires Inv(sys) && I.Legal(sys, op) && !op.MapOutside?
    ensures var sys' := I.Apply(sys, op);
      forall j :: 0 <= j < |sys'.procs| ==> if j < |sys.procs| then I.Kept(sys, sys', j) else WereFree(sys, sys', j)
  {
    hide Inv, Claims, SameOutside, I.Kept, New4gb, BuiltState, NewFrame, ProcessMalloc, ProcessFree, Zalloc;
    var sys' := I.Apply(sys, op);
    SameCount(sys, op);
    match op {
      case Spawn => I.SpawnKeepsInv(sys); assert WereFree(sys, sys', |sys.procs|);
      case Allocate(i, size) => I.AllocateKeepsInv(sys, i, size);
      case Deallocate(i, ptr) => I.DeallocateKeepsInv(sys, i, ptr);
      case KernelAlloc(size) => I.KernelAllocKeepsInv(sys, size);
      case KernelFree(b) => I.KernelFreeKeepsInv(sys, b);
    }
    forall j | 0 <= j < |sys.procs| ensures I.Kept(sys, sys', j) { assert I.KeptOutside(sys, sys', j); }
  }

  lemma StaysUnclaimed(sys: System, sys': System, f: nat)
    requires f - HEAP_FRAME in sys.ks.live && I.Unclaimed(sys, f)
    requires forall j :: 0 <= j < |sys'.procs| ==> if j < |sys.procs| then I.Kept(sys, sys', j) else WereFree(sys, sys', j)
    ensures I.Unclaimed(sys', f)
  {
    hide Claims, I.Kept, WereFree, I.Unclaimed;
    forall j | 0 <= j < |sys'.procs| ensures sys'.procs[j].chunk < FRAMES && f !in Claims(sys'.ks.mem, sys'.procs[j]) {
      StillUnclaimed(sys, sys', j, f);
    }
    AllUnclaimed(sys', f);
  }

  lemma AllUnclaimed(sys: System, f: nat)
    requires forall j :: 0 <= j < |sys.procs| ==> sys.procs[j].chunk < FRAMES && f !in Claims(sys.ks.mem, sys.procs[j])
    ensures I.Unclaimed(sys, f)
  {
    hide Claims;
  }

  lemma OwnedClaim(ks: KState, p: Proc, ptr: nat)
    requires p.chunk < FRAMES && SlotOf(p.allocs, ptr) >= 0 && ptr != 0
    ensures ptr / PAGE_SIZE in Claims(ks.mem, p)
  {
    var k := SlotOf(p.allocs, ptr);
    assert p.allocs[k].ptr / PAGE_SIZE in OwnedFrames(p.allocs);
  }

  lemma KernelLive(sys: System, size: nat, b: nat)
    requires Serves(sys.ks, size) && b in sys.ks.live
    ensures b in Zalloc(sys.ks, size).live && Zalloc(sys.ks, size).live[b] == sys.ks.live[b]
  {
    hide Refines, Fits, BlocksFor, StartBlock, FreeRun, ZeroFill;
    ZallocFacts(sys.ks, size);
  }

  /** What is held stays held over a step that keeps these runs live and the other claims apart. */
  lemma HeldStays(sys: System, sys': System, blocks: seq<nat>)
    requires Inv(sys) && HeldOk(sys, blocks)
    requires forall b :: b in blocks ==> b in sys'.ks.live
    requires forall j :: 0 <= j < |sys'.procs| ==> if j < |sys.procs| then I.Kept(sys, sys', j) else WereFree(sys, sys', j)
    ensures HeldOk(sys', blocks)
  {
    hide Inv, Claims, I.Kept, WereFree;
    forall b | b in blocks ensures I.Unclaimed(sys', FrameOf(b)) {
      assert I.Unclaimed(sys, FrameOf(b)) && FrameOf(b) - HEAP_FRAME == b;
      forall j | 0 <= j < |sys'.procs| ensures sys'.procs[j].chunk < FRAMES && FrameOf(b) !in Claims(sys'.ks.mem, sys'.procs[j]) {
        StillUnclaimed(sys, sys', j, FrameOf(b));
      }
    }
  }

  /** All that process j claims was free before. */
  ghost predicate WereFree(sys: System, sys': System, j: nat)
    requires j < |sys'.procs|
  {
    sys'.procs[j].chunk < FRAMES && forall f :: f in Claims(sys'.ks.mem, sys'.procs[j]) ==> f - HEAP_FRAME !in sys.ks.live
  }

  lemma StillUnclaimed(sys: System, sys': System, j: nat, f: nat)
    requires f - HEAP_FRAME in sys.ks.live && I.Unclaimed(sys, f) && j < |sys'.procs|
    requires if j < |sys.procs| then I.Kept(sys, sys', j) else WereFree(sys, sys', j)
    ensures sys'.procs[j].chunk < FRAMES && f !in Claims(sys'.ks.mem, sys'.procs[j])
  {
    hide Claims;
  }

  lemma InHeldStays(live: map<nat, nat>, live': map<nat, nat>, blocks: seq<nat>, g: int)
    requires InHeld(live, blocks, g) && forall b :: b in blocks && b in live ==> b in live' && live'[b] == live[b]
    ensures InHeld(live', blocks, g)
  {
    var b: nat :| b in blocks && Covers(live, b, g - HEAP_FRAME);
    assert Covers(live', b, g - HEAP_FRAME);
  }

  lemma WritesStay(sys: System, sys': System, i: nat, blocks: seq<nat>)
    requires i < |sys.procs| && i < |sys'.procs| && WritesOk(sys, i, blocks) && I.KeptOutside(sys, sys', i)
    requires forall b :: b in blocks && b in sys.ks.live ==> b in sys'.ks.live && sys'.ks.live[b] == sys.ks.live[b]
    ensures WritesOk(sys', i, blocks)
  {
    hide ViewAt, InHeld, P.IsWriteable, P.Frame, Open;
    var c := sys.procs[i].chunk;
    forall v: nat | OutsideWindow(v) && P.IsWriteable(ViewAt(sys'.ks.mem, c)[v])
      ensures InHeld(sys'.ks.live, blocks, P.Frame(ViewAt(sys'.ks.mem, c)[v]))
    {
      InHeldStays(sys.ks.live, sys'.ks.live, blocks, P.Frame(ViewAt(sys.ks.mem, c)[v]));
    }
  }

  /** A step that leaves all mappings outside the window alone. */
  lemma Transport(o: Owned, sys': System)
    requires OInv(o) && Inv(sys') && |sys'.procs| == |o.sys.procs| && I.AllKeptOutside(o.sys, sys')
    requires forall i, b :: 0 <= i < |o.held| && b in o.held[i] ==>
      b in o.sys.ks.live && b in sys'.ks.live && sys'.ks.live[b] == o.sys.ks.live[b]
    ensures OInv(Owned(sys', o.held))
  {
    hide Inv, HeldOk, WritesOk, Claims, SameOutside, I.Kept;
    forall j | 0 <= j < |sys'.procs| ensures I.KeptOutside(o.sys, sys', j) && I.Kept(o.sys, sys', j) {}
    forall i | 0 <= i < |o.held| ensures HeldOk(sys', o.held[i]) && WritesOk(sys', i, o.held[i]) {
      HeldStays(o.sys, sys', o.held[i]);
      WritesStay(o.sys, sys', i, o.held[i]);
    }
  }

  lemma HeldIsLive(o: Owned, i: nat, b: nat)
    requires OInv(o) && i < |o.held| && b in o.held[i]
    ensures b in o.sys.ks.live && I.Unclaimed(o.sys, FrameOf(b))
  {
    hide Inv, WritesOk;
    assert HeldOk(o.sys, o.held[i]);
  }

  lemma QuietStepKeepsOInv(o: Owned, op: I.Op)
    requires OInv(o) && Legal(o, Plain(op)) && !op.Spawn? && !op.MapOutside?
    ensures OInv(ApplyPlain(o, op))
  {
    hide Inv, OInv, HeldOk, WritesOk, I.Apply, I.AllKeptOutside, I.Unclaimed, InHeld;
    InvOf(o);
    var sys' := I.Apply(o.sys, op);
    SameCount(o.sys, op);
    match op {
      case Allocate(i, size) => I.AllocateKeepsInv(o.sys, i, size);
      case Deallocate(i, ptr) => I.DeallocateKeepsInv(o.sys, i, ptr);
      case KernelAlloc(size) => I.KernelAllocKeepsInv(o.sys, size);
      case KernelFree(b) => I.KernelFreeKeepsInv(o.sys, b);
    }
    forall i, b | 0 <= i < |o.held| && b in o.held[i]
      ensures b in o.sys.ks.live && b in sys'.ks.live && sys'.ks.live[b] == o.sys.ks.live[b]
    {
      HeldIsLive(o, i, b);
      LiveKept(o.sys, op, b);
    }
    Transport(o, sys');
  }

  lemma InvOf(o: Owned)
    requires OInv(o)
    ensures Inv(o.sys) && |o.held| == |o.sys.procs|
  {
  }

  lemma SameCount(sys: System, op: I.Op)
    requires Inv(sys) && I.Legal(sys, op)
    ensures |I.Apply(sys, op).procs| == |sys.procs| + if op.Spawn? then 1 else 0
  {
    hide Inv, Refines, ProcessMalloc, ProcessFree, New4gb, BuiltState, NewFrame, Zalloc, MapMem;
  }

  lemma SpawnKeepsOInv(o: Owned)
    requires OInv(o) && Legal(o, Plain(I.Spawn))
    ensures OInv(ApplyPlain(o, I.Spawn))
  {
    hide Inv, HeldOk, WritesOk, Claims, SameOutside, ViewAt, New4gb, BuiltState, NewFrame, P.Identity, I.Kept, Open;
    var sys' := I.Apply(o.sys, I.Spawn);
    I.SpawnKeepsInv(o.sys);
    var n := |o.sys.procs|;
    forall j | 0 <= j < n ensures I.KeptOutside(o.sys, sys', j) && I.Kept(o.sys, sys', j) {}
    assert WereFree(o.sys, sys', n);
    forall i | 0 <= i < n ensures HeldOk(sys', o.held[i]) && WritesOk(sys', i, o.held[i]) {
      Parts(o, i);
      HeldLive(o.sys, o.held[i]);
      HeldStays(o.sys, sys', o.held[i]);
      WritesStay(o.sys, sys', i, o.held[i]);
    }
    NothingWritable(sys', n);
    NothingHeld(sys');
  }

  /** The new process is the last one, in an address space that was free. */
  lemma SpawnAdds(o: Owned)
    requires OInv(o) && Legal(o, Plain(I.Spawn))
    ensures 0 <= NewFrame(o.sys.ks) < FRAMES && 0 <= NewFrame(BuiltState(o.sys.ks, P.USER_READ)) < FRAMES && |o.held| == |o.sys.procs|
    ensures var r, p := ApplyPlain(o, I.Spawn), Proc(NewFrame(BuiltState(o.sys.ks, P.USER_READ)), NoAllocs());
      && r.sys == System(New4gb(o.sys.ks, P.USER_READ), o.sys.procs + [p]) && r.held == o.held + [[]]
      && ViewAt(r.sys.ks.mem, p.chunk) == P.Identity(P.USER_READ) && Dir(r.sys.ks.mem, p.chunk) == NewFrame(o.sys.ks)
      && HT.FreeFrom(r.sys.ks.table, 0) + SPACE_BLOCKS == HT.FreeFrom(o.sys.ks.table, 0)
  {
    hide OInv, Inv, Refines, New4gb, NewFrame, BuiltState, Took, Footprint, SpaceAt, ViewAt, Dir, HT.FreeFrom, P.Identity, Open;
    InvOf(o);
    SystemOk(o.sys);
    New4gbBuilds(o.sys.ks, P.USER_READ);
    TookCounts(o.sys.ks, New4gb(o.sys.ks, P.USER_READ), Footprint(New4gb(o.sys.ks, P.USER_READ).mem, NewFrame(BuiltState(o.sys.ks, P.USER_READ))));
  }

  lemma TookCounts(ks0: KState, ks: KState, fs: set<nat>)
    requires Took(ks0, ks, fs)
    ensures HT.FreeFrom(ks.table, 0) + |fs| == HT.FreeFrom(ks0.table, 0)
  {
  }

  lemma HeldLive(sys: System, blocks: seq<nat>)
    requires HeldOk(sys, blocks)
    ensures forall b :: b in blocks ==> b in sys.ks.live
  {
  }

  lemma NothingHeld(sys: System)
    ensures HeldOk(sys, [])
  {
  }

  lemma NothingWritable(sys: System, i: nat)
    requires i < |sys.procs| && sys.procs[i].chunk < FRAMES && ViewAt(sys.ks.mem, sys.procs[i].chunk) == P.Identity(P.USER_READ)
    ensures WritesOk(sys, i, [])
  {
    hide ViewAt, Open;
  }

  lemma PlainKeepsOInv(o: Owned, op: I.Op)
    requires OInv(o) && Legal(o, Plain(op))
    ensures OInv(ApplyPlain(o, op))
  {
    hide OInv, ApplyPlain, I.Legal, Unheld;
    match op
    case Spawn => SpawnKeepsOInv(o);
    case _ => QuietStepKeepsOInv(o, op);
  }

  // ---------------------------------------------------------------- giving a run to a process

  ghost function ApplyGive(o: Owned, i: nat, b: nat): Owned
    requires i < |o.held|
  {
    Owned(o.sys, o.held[i := o.held[i] + [b]])
  }

  /** A run that kzalloc has just returned is nobody's. */
  lemma NewRunIsUnheld(o: Owned, size: nat, s: nat)
    requires OInv(o) && Serves(o.sys.ks, size) && StartBlock(o.sys.ks.table, BlocksFor(size)) == s
    ensures var sys' := I.Apply(o.sys, I.KernelAlloc(size));
      s in sys'.ks.live && I.Unclaimed(sys', FrameOf(s)) && forall j :: 0 <= j < |o.held| ==> s !in o.held[j]
  {
    hide Inv, OInv, Refines, Fits, BlocksFor, StartBlock, FreeRun, Claims, ZeroFill, ProcOk, HeldOk, WritesOk;
    InvOf(o);
    I.KernelAllocKeepsInv(o.sys, size);
    ZallocFacts(o.sys.ks, size);
    forall j | 0 <= j < |o.sys.procs| ensures o.sys.procs[j].chunk < FRAMES && FrameOf(s) !in Claims(o.sys.ks.mem, o.sys.procs[j]) {
      Parts(o, j);
      if FrameOf(s) in Claims(o.sys.ks.mem, o.sys.procs[j]) { ClaimsAreLive(o.sys.ks, o.sys.procs[j], FrameOf(s)); }
    }
    forall j | 0 <= j < |o.held| ensures s !in o.held[j] {
      if s in o.held[j] { HeldIsLive(o, j, s); }
    }
  }

  lemma GiveKeepsOInv(o: Owned, i: nat, b: nat)
    requires OInv(o) && Legal(o, Give(i, b))
    ensures OInv(ApplyGive(o, i, b))
  {
    hide Inv, I.Unclaimed, ViewAt, Open;
    var held' := ApplyGive(o, i, b).held;
    forall j | 0 <= j < |held'| ensures HeldOk(o.sys, held'[j]) && WritesOk(o.sys, j, held'[j]) {
      assert HeldOk(o.sys, o.held[j]) && WritesOk(o.sys, j, o.held[j]);
      MoreHeld(o.sys, j, o.held[j], held'[j]);
    }
  }

  lemma MoreHeld(sys: System, i: nat, blocks: seq<nat>, more: seq<nat>)
    requires i < |sys.procs| && WritesOk(sys, i, blocks) && forall b :: b in blocks ==> b in more
    ensures WritesOk(sys, i, more)
  {
    hide ViewAt, P.IsWriteable, P.Frame, Open;
    forall g: int | InHeld(sys.ks.live, blocks, g) ensures InHeld(sys.ks.live, more, g) {
      var b: nat :| b in blocks && Covers(sys.ks.live, b, g - HEAP_FRAME);
    }
  }

  // ---------------------------------------------------------------- process_map_memory

  /** process_map_memory for process i, through its page tables. */
  ghost function ApplyMap(o: Owned, i: nat, image: Image, stack: nat): Owned
    requires OInv(o) && Mappable(o, i, image, stack)
  {
    ChunkInRam(o, i);
    o.(sys := o.sys.(ks := o.sys.ks.(mem := MapImageMem(o.sys.ks.mem, o.sys.procs[i].chunk, image, stack))))
  }

  lemma ChunkInRam(o: Owned, i: nat)
    requires OInv(o) && i < |o.sys.procs|
    ensures o.sys.procs[i].chunk < FRAMES
  {
    hide OInv;
    Parts(o, i);
  }

  /** Other mappings of process i: the invariant is kept exactly when the new view is one that it allows. */
  lemma RemapKeepsOInv(o: Owned, i: nat, m: Ram, view: P.View)
    requires OInv(o) && i < |o.sys.procs| == |o.held| && o.sys.procs[i].chunk < FRAMES
    requires Remapped(o.sys.ks.mem, m, o.sys.procs[i].chunk, view)
    ensures OInv(o.(sys := o.sys.(ks := o.sys.ks.(mem := m)))) <==>
      WindowOk(view, o.sys.procs[i].allocs) && ViewOk(o.sys.ks.live, o.held[i], view)
  {
    hide Inv, HeldOk, WritesOk, Claims, ViewAt, WindowOk, ViewOk, Remapped, Open;
    var sys' := o.sys.(ks := o.sys.ks.(mem := m));
    RemapKeepsInv(o.sys, i, m, view);
    Parts(o, i);
    if Inv(sys') {
      I.InvParts(sys', i);
      forall j | 0 <= j < |o.held| ensures HeldOk(sys', o.held[j]) && (j != i ==> WritesOk(sys', j, o.held[j])) {
        Parts(o, j);
        HeldLive(o.sys, o.held[j]);
        HeldStays(o.sys, sys', o.held[j]);
        if j != i { WritesStay(o.sys, sys', j, o.held[j]); }
      }
      WritesAre(sys', i, o.held[i], o.sys.ks.mem, view);
    }
  }

  /** What process i may write to outside the window, in this view. */
  ghost predicate ViewOk(live: map<nat, nat>, blocks: seq<nat>, view: P.View) {
    forall v: nat :: OutsideWindow(v) && P.IsWriteable(view[v]) ==> InHeld(live, blocks, P.Frame(view[v]))
  }

  lemma WritesAre(sys: System, i: nat, blocks: seq<nat>, m: Ram, view: P.View)
    requires i < |sys.procs| && sys.procs[i].chunk < FRAMES && Remapped(m, sys.ks.mem, sys.procs[i].chunk, view)
    ensures WritesOk(sys, i, blocks) <==> ViewOk(sys.ks.live, blocks, view)
  {
    hide ViewAt, SpaceAt, Footprint, InHeld, P.IsWriteable, P.Frame, Open;
  }

  lemma RemapKeepsInv(sys: System, i: nat, m: Ram, view: P.View)
    requires Inv(sys) && i < |sys.procs| && sys.procs[i].chunk < FRAMES && Remapped(sys.ks.mem, m, sys.procs[i].chunk, view)
    ensures var sys' := sys.(ks := sys.ks.(mem := m));
      && (Inv(sys') <==> WindowOk(view, sys.procs[i].allocs))
      && (Inv(sys') ==> forall j :: 0 <= j < |sys.procs| ==>
        I.Kept(sys, sys', j) && (j != i ==> I.KeptOutside(sys, sys', j)))
  {
    hide Inv, Refines, ViewAt, SpaceAt, OwnsRun, SlotsOk, WindowOk, I.KeptOutside, I.Kept, Open;
    var ks', p := sys.ks.(mem := m), sys.procs[i];
    var sys' := sys.(ks := ks');
    I.InvParts(sys, i);
    RemapProc(sys.ks, p, m, view);
    if ProcOk(ks', p) {
      forall j | 0 <= j < |sys.procs| && j != i
        ensures sys.procs[j].chunk < FRAMES && ProcOk(ks', sys.procs[j])
          && Claims(ks'.mem, sys.procs[j]) == Claims(sys.ks.mem, sys.procs[j])
          && Claims(ks'.mem, p) !! Claims(sys.ks.mem, sys.procs[j])
          && I.KeptOutside(sys, sys', j) && I.Kept(sys, sys', j)
      {
        I.InvParts(sys, j);
        I.ClaimsDisjoint(sys, i, j);
        I.Bystander(sys, i, j, ks');
        I.BystanderKept(sys, sys', j);
        KeptOf(sys, sys', j);
      }
      I.ReplaceProc(sys, i, ks', p);
      assert sys.procs[i := p] == sys.procs;
      SameClaimsKept(sys, sys', i);
    }
    if Inv(sys') { I.InvParts(sys', i); }
  }

  lemma KeptOf(sys: System, sys': System, j: nat)
    requires I.KeptOutside(sys, sys', j)
    ensures I.Kept(sys, sys', j)
  {
    hide SameOutside;
  }

  lemma SameClaimsKept(sys: System, sys': System, i: nat)
    requires i < |sys.procs| && sys'.procs == sys.procs && sys.procs[i].chunk < FRAMES
    requires Claims(sys'.ks.mem, sys.procs[i]) == Claims(sys.ks.mem, sys.procs[i])
    ensures I.Kept(sys, sys', i)
  {
    hide Claims;
  }

  lemma RemapProc(ks: KState, p: Proc, m: Ram, view: P.View)
    requires p.chunk < FRAMES && ProcOk(ks, p) && Remapped(ks.mem, m, p.chunk, view)
    ensures ProcOk(ks.(mem := m), p) <==> WindowOk(view, p.allocs)
    ensures Claims(m, p) == Claims(ks.mem, p)
  {
    hide SpaceAt, ViewAt, Footprint, SlotsOk, WindowOk, OwnedFrames;
  }

  /** A process without allocations: the window shows itself, read-only. */
  lemma EmptyWindow(view: P.View)
    ensures WindowOk(view, NoAllocs()) <==>
      forall g: nat :: HEAP_FRAME <= g < HEAP_FRAME + HEAP_BLOCKS ==>
        view[g] == g * PAGE_SIZE + P.USER_READ || view[g] == g * PAGE_SIZE
  {
    forall g: nat | HEAP_FRAME <= g < HEAP_FRAME + HEAP_BLOCKS ensures !Owns(NoAllocs(), g) {}
  }

  /** The stack is held. */
  lemma StackFits(o: Owned, i: nat, image: Image, stack: nat, p: nat)
    requires Mappable(o, i, image, stack) && InStack(p)
    ensures OutsideWindow(p)
    ensures var e := (stack / PAGE_SIZE + p - STACK_BOTTOM / PAGE_SIZE) * PAGE_SIZE + P.USER_WRITE;
      0 <= e < 0x1_0000_0000 && InHeld(o.sys.ks.live, o.held[i], P.Frame(e))
  {
    var b, f := stack / PAGE_SIZE - HEAP_FRAME, stack / PAGE_SIZE + p - STACK_BOTTOM / PAGE_SIZE;
    EntryBits(f, P.USER_WRITE);
    assert Covers(o.sys.ks.live, b, f - HEAP_FRAME);
  }

  /**
    process_map_memory keeps ownership if and only if the image fits. Nothing in process_load checks
    that, so this is what an image must satisfy.
   */
  lemma MapKeepsOwnershipExactlyWhenImageFits(o: Owned, i: nat, image: Image, stack: nat)
    requires OInv(o) && Mappable(o, i, image, stack)
    ensures OInv(ApplyMap(o, i, image, stack)) <==> ImageFits(o, i, image)
  {
    hide OInv, Inv, SpaceAt, Remapped, MapImage, ViewAt, ImageFits, WindowOk, ViewOk, MapImageMem, ImageOk, Open;
    Parts(o, i);
    ProcSpace(o.sys.ks, o.sys.procs[i]);
    var c, m := o.sys.procs[i].chunk, o.sys.ks.mem;
    MapImageRemaps(m, c, image, stack);
    var view := MapImage(ViewAt(m, c), image, stack);
    RemapKeepsOInv(o, i, MapImageMem(m, c, image, stack), view);
    OwnViewOk(o.sys, i, o.held[i]);
    FitsExactly(o, i, image, stack, ViewAt(m, c));
  }

  lemma OwnViewOk(sys: System, i: nat, blocks: seq<nat>)
    requires i < |sys.procs| && WritesOk(sys, i, blocks)
    ensures sys.procs[i].chunk < FRAMES && ViewOk(sys.ks.live, blocks, ViewAt(sys.ks.mem, sys.procs[i].chunk))
  {
    hide ViewAt, InHeld, P.IsWriteable, P.Frame, Open;
  }

  lemma ProcSpace(ks: KState, p: Proc)
    requires ProcOk(ks, p)
    ensures SpaceAt(ks.mem, p.chunk) && p.chunk < FRAMES
  {
    hide Footprint, ViewAt, SlotsOk, WindowOk, Open;
  }

  lemma FitsExactly(o: Owned, i: nat, image: Image, stack: nat, view: P.View)
    requires Mappable(o, i, image, stack) && WindowOk(view, NoAllocs()) && ViewOk(o.sys.ks.live, o.held[i], view)
    ensures var r := MapImage(view, image, stack);
      (WindowOk(r, NoAllocs()) && ViewOk(o.sys.ks.live, o.held[i], r)) <==> ImageFits(o, i, image)
  {
    hide WindowOk, MapImage, ImageOk, InImage, ImageEntry, InHeld, P.IsWriteable, P.Frame;
    var live, blocks, r := o.sys.ks.live, o.held[i], MapImage(view, image, stack);
    EmptyWindow(view);
    EmptyWindow(r);
    forall p: nat | p < FRAMES
      ensures PageOk(live, blocks, p, r[p]) <==> (InImage(image, p) && !InStack(p) ==> EntryFits(live, blocks, p, ImageEntry(image, p)))
    {
      ImageView(view, image, stack, p);
      if InStack(p) {
        StackFits(o, i, image, stack, p);
      } else if InImage(image, p) {
        EntryOf(image, p);
        EntryIsOk(live, blocks, p, ImageEntry(image, p));
      }
    }
    PagesOk(live, blocks, r);
  }

  /** What the invariant says of one page of a process without allocations. */
  ghost predicate PageOk(live: map<nat, nat>, blocks: seq<nat>, p: nat, e: Word) {
    if OutsideWindow(p) then P.IsWriteable(e) ==> InHeld(live, blocks, P.Frame(e))
    else e == p * PAGE_SIZE + P.USER_READ || e == p * PAGE_SIZE
  }

  lemma EntryIsOk(live: map<nat, nat>, blocks: seq<nat>, p: nat, e: Word)
    requires e % PAGE_SIZE == P.USER_READ || e % PAGE_SIZE == P.USER_WRITE
    requires P.IsWriteable(e) <==> e % PAGE_SIZE == P.USER_WRITE
    ensures PageOk(live, blocks, p, e) <==> EntryFits(live, blocks, p, e)
  {
    hide InHeld, P.Frame, P.IsWriteable;
  }

  lemma PagesOk(live: map<nat, nat>, blocks: seq<nat>, view: P.View)
    ensures WindowOk(view, NoAllocs()) && ViewOk(live, blocks, view) <==> forall p: nat :: p < FRAMES ==> PageOk(live, blocks, p, view[p])
  {
    hide WindowOk, InHeld, P.IsWriteable, P.Frame;
    EmptyWindow(view);
  }

  // ---------------------------------------------------------------- the end of a process

  /** The runs that start in these frames are gone, the others as before. */
  ghost predicate Minus(live: map<nat, nat>, live': map<nat, nat>, gone: set<nat>) {
    && (forall b :: b in live' <==> b in live && FrameOf(b) !in gone)
    && (forall b :: b in live' ==> b in live && live'[b] == live[b])
  }

  /** After process_free of the non-null pointers in the first n slots of process i. */
  ghost predicate SlotsFreed(o: Owned, r: Owned, i: nat, n: nat) {
    && i < |o.sys.procs| == |r.sys.procs| && r.held == o.held
    && r.sys.procs[i].chunk == o.sys.procs[i].chunk < FRAMES && |r.sys.procs[i].allocs| == MAX_PROGRAM_ALLOCATIONS
    && (forall j :: 0 <= j < |o.sys.procs| && j != i ==> r.sys.procs[j] == o.sys.procs[j])
    && (forall k :: 0 <= k < n && k < MAX_PROGRAM_ALLOCATIONS ==> r.sys.procs[i].allocs[k].ptr == 0)
    && Claims(r.sys.ks.mem, r.sys.procs[i]) <= Claims(o.sys.ks.mem, o.sys.procs[i])
    && Minus(o.sys.ks.live, r.sys.ks.live, Claims(o.sys.ks.mem, o.sys.procs[i]) - Claims(r.sys.ks.mem, r.sys.procs[i]))
  }

  /** process_terminate_allocations on the first n slots, without the null ones. */
  ghost function FreeSlots(o: Owned, i: nat, n: nat): (r: Owned)
    requires OInv(o) && i < |o.sys.procs| && n <= MAX_PROGRAM_ALLOCATIONS
    ensures OInv(r) && SlotsFreed(o, r, i, n)
  {
    hide Inv, Claims, Minus, Legal, ApplyPlain, WritesOk, HeldOk;
    if n == 0 then
      NoSlotFreed(o, i);
      o
    else
      var r := FreeSlots(o, i, n - 1);
      var ptr := r.sys.procs[i].allocs[n - 1].ptr;
      SlotStep(o, r, i, n - 1);
      if ptr == 0 then r else ApplyPlain(r, I.Deallocate(i, ptr))
  }

  lemma NoSlotFreed(o: Owned, i: nat)
    requires OInv(o) && i < |o.sys.procs|
    ensures SlotsFreed(o, o, i, 0)
  {
    hide Inv, Claims, WritesOk, HeldOk, SpaceAt, Footprint, ViewAt, Open;
    Parts(o, i);
  }

  lemma SlotStep(o: Owned, r: Owned, i: nat, n: nat)
    requires OInv(r) && n < MAX_PROGRAM_ALLOCATIONS && SlotsFreed(o, r, i, n)
    ensures var ptr := r.sys.procs[i].allocs[n].ptr;
      if ptr == 0 then SlotsFreed(o, r, i, n + 1)
      else (
        && Legal(r, Plain(I.Deallocate(i, ptr))) && OInv(ApplyPlain(r, I.Deallocate(i, ptr)))
        && SlotsFreed(o, ApplyPlain(r, I.Deallocate(i, ptr)), i, n + 1))
  {
    hide OInv, Inv, Claims, Minus, I.Apply;
    InvOf(r);
    var ptr := r.sys.procs[i].allocs[n].ptr;
    if ptr != 0 {
      var op := I.Deallocate(i, ptr);
      QuietStepKeepsOInv(r, op);
      FreedSlot(r.sys, i, n);
      var sys' := I.Apply(r.sys, op);
      var f := ptr / PAGE_SIZE;
      var c0, c1, c2 := Claims(o.sys.ks.mem, o.sys.procs[i]), Claims(r.sys.ks.mem, r.sys.procs[i]), Claims(sys'.ks.mem, sys'.procs[i]);
      MinusMore(o.sys.ks.live, r.sys.ks.live, sys'.ks.live, c0 - c1, {f});
      assert c0 - c2 == (c0 - c1) + {f};
    }
  }

  /** process_free of the pointer in slot n: that slot, that claim, that run. */
  lemma FreedSlot(sys: System, i: nat, n: nat)
    requires Inv(sys) && i < |sys.procs| && n < |sys.procs[i].allocs| && sys.procs[i].allocs[n].ptr != 0
    ensures var ptr := sys.procs[i].allocs[n].ptr;
      var sys' := I.Apply(sys, I.Deallocate(i, ptr));
      && |sys'.procs| == |sys.procs| && sys'.procs[i] == sys.procs[i].(allocs := sys.procs[i].allocs[n := UNUSED])
      && (forall j :: 0 <= j < |sys.procs| && j != i ==> sys'.procs[j] == sys.procs[j])
      && sys.procs[i].chunk < FRAMES && ptr / PAGE_SIZE in Claims(sys.ks.mem, sys.procs[i])
      && Claims(sys'.ks.mem, sys'.procs[i]) == Claims(sys.ks.mem, sys.procs[i]) - {ptr / PAGE_SIZE}
      && Minus(sys.ks.live, sys'.ks.live, {ptr / PAGE_SIZE})
  {
    hide Inv, Refines, Footprint, ViewAt, SpaceAt, ProcessFree, ProcOk, OwnsRun, MarkFree, OwnedFrames, Claims;
    I.InvParts(sys, i);
    var p, ptr := sys.procs[i], sys.procs[i].allocs[n].ptr;
    FreeKeepsProc(sys.ks, p, ptr);
    var o := ProcessFree(sys.ks, p, ptr);
    assert SlotOf(p.allocs, ptr) >= 0;
    OwnedClaim(sys.ks, p, ptr);
    var k :| 0 <= k < |p.allocs| && p.allocs[k].ptr == ptr && o.proc == p.(allocs := p.allocs[k := UNUSED]);
    I.SlotsAreUnique(sys, i, k, n);
    assert FrameOf(ptr / PAGE_SIZE - HEAP_FRAME) == ptr / PAGE_SIZE;
  }

  lemma MinusMore(a: map<nat, nat>, b: map<nat, nat>, c: map<nat, nat>, gone: set<nat>, more: set<nat>)
    requires Minus(a, b, gone) && Minus(b, c, more)
    ensures Minus(a, c, gone + more)
  {
  }

  /** These runs are nobody's. */
  ghost predicate Loose(o: Owned, blocks: seq<nat>) {
    && (forall x, y :: 0 <= x < y < |blocks| ==> blocks[x] != blocks[y])
    && (forall b :: b in blocks ==>
      b in o.sys.ks.live && I.Unclaimed(o.sys, FrameOf(b)) && forall j :: 0 <= j < |o.held| ==> b !in o.held[j])
  }

  ghost function FramesOf(blocks: seq<nat>): set<nat> {
    set b | b in blocks :: FrameOf(b)
  }

  /** kfree of image and stack, in order. */
  ghost function FreeRuns(o: Owned, blocks: seq<nat>): (r: Owned)
    requires OInv(o) && Loose(o, blocks)
    ensures OInv(r) && r.sys.procs == o.sys.procs && r.held == o.held && r.sys.ks.mem == o.sys.ks.mem
    ensures Minus(o.sys.ks.live, r.sys.ks.live, FramesOf(blocks))
    decreases |blocks|
  {
    if blocks == [] then o
    else
      FreeRunStep(o, blocks);
      var r := ApplyPlain(o, I.KernelFree(blocks[0]));
      MinusRest(o.sys.ks.live, r.sys.ks.live, blocks);
      FreeRuns(r, blocks[1..])
  }

  lemma FreeRunStep(o: Owned, blocks: seq<nat>)
    requires OInv(o) && Loose(o, blocks) && blocks != []
    ensures Legal(o, Plain(I.KernelFree(blocks[0])))
    ensures var r := ApplyPlain(o, I.KernelFree(blocks[0]));
      && OInv(r) && Loose(r, blocks[1..]) && r.sys.procs == o.sys.procs && r.held == o.held && r.sys.ks.mem == o.sys.ks.mem
      && Minus(o.sys.ks.live, r.sys.ks.live, {FrameOf(blocks[0])})
  {
    hide Inv, OInv, FreeAt, Claims;
    InvOf(o);
    assert blocks[0] in blocks;
    QuietStepKeepsOInv(o, I.KernelFree(blocks[0]));
    var r := ApplyPlain(o, I.KernelFree(blocks[0]));
    forall b | b in blocks[1..]
      ensures b in r.sys.ks.live && I.Unclaimed(r.sys, FrameOf(b)) && forall j :: 0 <= j < |r.held| ==> b !in r.held[j]
    {
      assert b in blocks && b != blocks[0];
    }
  }

  lemma MinusRest(live: map<nat, nat>, live': map<nat, nat>, blocks: seq<nat>)
    requires blocks != [] && Minus(live, live', {FrameOf(blocks[0])})
    ensures forall later :: Minus(live', later, FramesOf(blocks[1..])) ==> Minus(live, later, FramesOf(blocks))
  {
    assert blocks == [blocks[0]] + blocks[1..];
    assert FramesOf(blocks) == {FrameOf(blocks[0])} + FramesOf(blocks[1..]);
    forall later | Minus(live', later, FramesOf(blocks[1..])) ensures Minus(live, later, FramesOf(blocks)) {
      MinusMore(live, live', later, {FrameOf(blocks[0])}, FramesOf(blocks[1..]));
    }
  }

  /** The others, once process i has no more slots in use. */
  ghost function Others(o: Owned, i: nat): Owned
    requires i < |o.sys.procs| == |o.held|
  {
    Owned(System(o.sys.ks, Drop(o.sys.procs, i)), Drop(o.held, i))
  }

  lemma OthersOk(o: Owned, i: nat)
    requires OInv(o) && i < |o.sys.procs|
    ensures OInv(Others(o, i)) && Loose(Others(o, i), o.held[i])
    ensures forall f :: f in Claims(o.sys.ks.mem, o.sys.procs[i]) && o.sys.procs[i].chunk < FRAMES ==>
      I.Unclaimed(Others(o, i).sys, f) && forall j :: 0 <= j < |Others(o, i).held| ==> forall b :: b in Others(o, i).held[j] ==> FrameOf(b) != f
  {
    hide Inv, WritesOk, Claims, ProcOk;
    InvOf(o);
    var r := Others(o, i);
    DropInv(o.sys, i);
    forall j | 0 <= j < |r.held| ensures HeldOk(r.sys, r.held[j]) && WritesOk(r.sys, j, r.held[j]) {
      var l := if j < i then j else j + 1;
      assert HeldOk(o.sys, o.held[l]) && WritesOk(o.sys, l, o.held[l]);
      SameWrites(o.sys, l, r.sys, j, o.held[l]);
      DropUnclaimed(o.sys, i, o.held[l]);
    }
    assert HeldOk(o.sys, o.held[i]);
    DropUnclaimed(o.sys, i, o.held[i]);
    Parts(o, i);
    forall f | f in Claims(o.sys.ks.mem, o.sys.procs[i])
      ensures I.Unclaimed(r.sys, f) && forall j :: 0 <= j < |r.held| ==> forall b :: b in r.held[j] ==> FrameOf(b) != f
    {
      OthersApart(o, i, f);
    }
  }

  lemma SameWrites(sys: System, l: nat, sys': System, j: nat, blocks: seq<nat>)
    requires l < |sys.procs| && j < |sys'.procs| && sys'.procs[j] == sys.procs[l] && sys'.ks == sys.ks && WritesOk(sys, l, blocks)
    ensures WritesOk(sys', j, blocks)
  {
    hide ViewAt, InHeld, P.IsWriteable, P.Frame, Open;
  }

  lemma DropInv(sys: System, i: nat)
    requires Inv(sys) && i < |sys.procs|
    ensures Inv(System(sys.ks, Drop(sys.procs, i)))
  {
    hide Refines, ProcOk, Claims;
    var procs := Drop(sys.procs, i);
    forall a | 0 <= a < |procs| ensures ProcOk(sys.ks, procs[a]) {
      I.InvParts(sys, if a < i then a else a + 1);
    }
    forall a, b | 0 <= a < b < |procs| ensures procs[a].chunk < FRAMES && procs[b].chunk < FRAMES && Claims(sys.ks.mem, procs[a]) !! Claims(sys.ks.mem, procs[b]) {
      var x, y := if a < i then a else a + 1, if b < i then b else b + 1;
      I.InvParts(sys, x);
      I.InvParts(sys, y);
      I.ClaimsDisjoint(sys, x, y);
    }
  }

  lemma DropUnclaimed(sys: System, i: nat, blocks: seq<nat>)
    requires i < |sys.procs| && HeldOk(sys, blocks)
    ensures HeldOk(System(sys.ks, Drop(sys.procs, i)), blocks)
  {
    hide Claims;
  }

  lemma OthersApart(o: Owned, i: nat, f: nat)
    requires OInv(o) && i < |o.sys.procs| == |o.held| && o.sys.procs[i].chunk < FRAMES && f in Claims(o.sys.ks.mem, o.sys.procs[i])
    ensures I.Unclaimed(Others(o, i).sys, f)
    ensures forall j :: 0 <= j < |Others(o, i).held| ==> forall b :: b in Others(o, i).held[j] ==> FrameOf(b) != f
  {
    hide Inv, OInv, Claims, ProcOk, WritesOk, HeldOk;
    InvOf(o);
    var r := Others(o, i);
    forall j | 0 <= j < |r.sys.procs| ensures r.sys.procs[j].chunk < FRAMES && f !in Claims(r.sys.ks.mem, r.sys.procs[j]) {
      var l := if j < i then j else j + 1;
      I.InvParts(o.sys, l);
      I.ClaimsDisjoint(o.sys, i, l);
    }
    forall j, b | 0 <= j < |r.held| && b in r.held[j] ensures FrameOf(b) != f {
      HeldIsLive(o, if j < i then j else j + 1, b);
    }
  }

  /** What is left when the slots are empty and image and stack are freed: all but the address space. */
  ghost function Survivors(freed: Owned, i: nat): (r: Owned)
    requires OInv(freed) && i < |freed.sys.procs|
    ensures OInv(r) && Survive(freed, i, r)
  {
    hide Inv, Claims, Minus, WritesOk, HeldOk, Loose;
    InvOf(freed);
    OthersOk(freed, i);
    FreeRuns(Others(freed, i), freed.held[i])
  }

  ghost predicate Survive(freed: Owned, i: nat, r: Owned) {
    && i < |freed.sys.procs| == |freed.held|
    && r.sys.procs == Drop(freed.sys.procs, i) && r.held == Drop(freed.held, i) && r.sys.ks.mem == freed.sys.ks.mem
    && Minus(freed.sys.ks.live, r.sys.ks.live, FramesOf(freed.held[i]))
  }

  /** process_terminate: allocations, image and stack, address space. */
  ghost function ApplyExit(o: Owned, i: nat): (r: Owned)
    requires OInv(o) && i < |o.sys.procs|
    ensures OInv(r)
  {
    hide OInv, SlotsFreed, Survive, LooseSpace;
    var freed := FreeSlots(o, i, MAX_PROGRAM_ALLOCATIONS);
    FreedCount(o, freed, i);
    var rest := Survivors(freed, i);
    var c := o.sys.procs[i].chunk;
    SpaceIsLoose(o, freed, i, rest);
    SpaceFrames(rest, c);
    ReleasedSpace(rest, c);
    Owned(System(Free4gb(rest.sys.ks, c), rest.sys.procs), rest.held)
  }

  lemma FreedCount(o: Owned, freed: Owned, i: nat)
    requires SlotsFreed(o, freed, i, MAX_PROGRAM_ALLOCATIONS)
    ensures i < |freed.sys.procs|
  {
  }

  /** The frames of an address space that nobody claims any more. */
  ghost predicate LooseSpace(o: Owned, c: nat) {
    && c < FRAMES && SpaceAt(o.sys.ks.mem, c) && SingleRuns(o.sys.ks.live, Footprint(o.sys.ks.mem, c))
    && forall f :: f in Footprint(o.sys.ks.mem, c) ==>
      I.Unclaimed(o.sys, f) && forall j :: 0 <= j < |o.held| ==> forall b :: b in o.held[j] ==> FrameOf(b) != f
  }

  /** Before the address space is released it is nobody's. */
  lemma SpaceIsLoose(o: Owned, freed: Owned, i: nat, rest: Owned)
    requires OInv(freed) && SlotsFreed(o, freed, i, MAX_PROGRAM_ALLOCATIONS) && Survive(freed, i, rest)
    ensures LooseSpace(rest, o.sys.procs[i].chunk)
  {
    hide Inv, OInv, Minus, WritesOk, SpaceAt, Footprint, HeldOk, ViewAt, I.Unclaimed, OwnsRun, SlotsOk, WindowOk, OwnedFrames, Open;
    InvOf(freed);
    Parts(freed, i);
    OthersOk(freed, i);
    var p, c := freed.sys.procs[i], o.sys.procs[i].chunk;
    var fs := Footprint(rest.sys.ks.mem, c);
    assert fs <= Claims(freed.sys.ks.mem, p);
    forall f | f in fs ensures f !in FramesOf(freed.held[i]) {
      HeldUnclaimed(freed, i, f);
    }
    SingleStays(freed.sys.ks.live, rest.sys.ks.live, FramesOf(freed.held[i]), fs);
    SameProcsUnclaimed(Others(freed, i), rest, fs);
  }

  /** What is gone before the address space is released: every claim but its frames, and all that was held. */
  lemma GoneBefore(o: Owned, freed: Owned, i: nat, rest: Owned)
    requires OInv(freed) && SlotsFreed(o, freed, i, MAX_PROGRAM_ALLOCATIONS) && Survive(freed, i, rest)
    ensures var fs := Footprint(rest.sys.ks.mem, o.sys.procs[i].chunk);
      && fs <= Claims(o.sys.ks.mem, o.sys.procs[i])
      && Minus(o.sys.ks.live, rest.sys.ks.live, (Claims(o.sys.ks.mem, o.sys.procs[i]) - fs) + FramesOf(o.held[i]))
  {
    hide Inv, OInv, Minus, Footprint, OwnedFrames, Open;
    NoneOwned(freed.sys.procs[i].allocs);
    var fs := Footprint(rest.sys.ks.mem, o.sys.procs[i].chunk);
    assert Claims(freed.sys.ks.mem, freed.sys.procs[i]) == fs;
    MinusMore(o.sys.ks.live, freed.sys.ks.live, rest.sys.ks.live, Claims(o.sys.ks.mem, o.sys.procs[i]) - fs, FramesOf(o.held[i]));
  }

  lemma NoneOwned(allocs: seq<Alloc>)
    requires forall k :: 0 <= k < |allocs| ==> allocs[k].ptr == 0
    ensures OwnedFrames(allocs) == {}
  {
  }

  lemma HeldUnclaimed(o: Owned, i: nat, f: nat)
    requires OInv(o) && i < |o.sys.procs| && o.sys.procs[i].chunk < FRAMES && f in Claims(o.sys.ks.mem, o.sys.procs[i])
    ensures i < |o.held| && f !in FramesOf(o.held[i])
  {
    hide Inv, WritesOk, Claims;
    forall b | b in o.held[i] ensures FrameOf(b) != f { HeldIsLive(o, i, b); }
  }

  lemma SingleStays(live: map<nat, nat>, live': map<nat, nat>, gone: set<nat>, fs: set<nat>)
    requires SingleRuns(live, fs) && Minus(live, live', gone) && fs !! gone
    ensures SingleRuns(live', fs)
  {
    forall f | f in fs ensures HEAP_FRAME <= f && f - HEAP_FRAME in live' && live'[f - HEAP_FRAME] == 1 {
      assert FrameOf(f - HEAP_FRAME) == f;
    }
  }

  lemma SameProcsUnclaimed(o: Owned, r: Owned, fs: set<nat>)
    requires r.sys.procs == o.sys.procs && r.held == o.held && r.sys.ks.mem == o.sys.ks.mem
    requires forall f :: f in fs ==> I.Unclaimed(o.sys, f) && forall j :: 0 <= j < |o.held| ==> forall b :: b in o.held[j] ==> FrameOf(b) != f
    ensures forall f :: f in fs ==> I.Unclaimed(r.sys, f) && forall j :: 0 <= j < |r.held| ==> forall b :: b in r.held[j] ==> FrameOf(b) != f
  {
    hide Claims;
  }

  /** paging_free_4gb of such a space. */
  lemma ReleasedSpace(o: Owned, c: nat)
    requires OInv(o) && LooseSpace(o, c)
    ensures HEAP_FRAME <= Dir(o.sys.ks.mem, c) && HEAP_FRAME <= c
    ensures var ks' := Free4gb(o.sys.ks, c);
      && OInv(Owned(System(ks', o.sys.procs), o.held)) && Minus(o.sys.ks.live, ks'.live, Footprint(o.sys.ks.mem, c))
  {
    hide Inv, OInv, Footprint, Claims, SpaceAt, ViewAt, Free4gb, I.Unclaimed, I.AllKeptOutside, Refines, ClearFrames, Open;
    InvOf(o);
    SystemOk(o.sys);
    Free4gbGives(o.sys.ks, c);
    var ks' := Free4gb(o.sys.ks, c);
    GaveMinus(o.sys.ks, ks', Footprint(o.sys.ks.mem, c));
    forall b | b in o.sys.ks.live && !I.Unclaimed(o.sys, FrameOf(b)) ensures b in ks'.live && ks'.live[b] == o.sys.ks.live[b] {
      assert FrameOf(b) !in Footprint(o.sys.ks.mem, c);
    }
    I.AllBystanders(o.sys, ks');
    I.AllBystandersKept(o.sys, System(ks', o.sys.procs));
    forall i, b | 0 <= i < |o.held| && b in o.held[i]
      ensures b in o.sys.ks.live && b in ks'.live && ks'.live[b] == o.sys.ks.live[b]
    {
      HeldIsLive(o, i, b);
      assert FrameOf(b) !in Footprint(o.sys.ks.mem, c);
    }
    Transport(o, System(ks', o.sys.procs));
  }

  lemma SystemOk(sys: System)
    requires Inv(sys)
    ensures Ok(sys.ks)
  {
  }

  lemma GaveMinus(ks: KState, ks': KState, fs: set<nat>)
    requires Gave(ks, ks', fs)
    ensures Minus(ks.live, ks'.live, fs) && ks'.mem == ks.mem && Ok(ks')
  {
    hide Refines, ClearFrames;
    forall b | b in ks.live ensures b < HEAP_BLOCKS { LiveInHeap(ks, b); }
  }

  /**
    The end of a process gives back exactly the runs that it claimed or held; all other runs stay
    live with their lengths, and the other processes are the same.
   */
  lemma ExitGivesBack(o: Owned, i: nat)
    requires OInv(o) && i < |o.sys.procs|
    ensures var r := ApplyExit(o, i);
      && o.sys.procs[i].chunk < FRAMES && |o.held| == |o.sys.procs|
      && r.sys.procs == Drop(o.sys.procs, i) && r.held == Drop(o.held, i)
      && Minus(o.sys.ks.live, r.sys.ks.live, Claims(o.sys.ks.mem, o.sys.procs[i]) + FramesOf(o.held[i]))
  {
    hide OInv, Inv, Minus, Claims, Footprint, LooseSpace, SlotsFreed, Survive, Open;
    var freed := FreeSlots(o, i, MAX_PROGRAM_ALLOCATIONS);
    FreedCount(o, freed, i);
    InvOf(o);
    Parts(o, i);
    var rest, c := Survivors(freed, i), o.sys.procs[i].chunk;
    SpaceIsLoose(o, freed, i, rest);
    SpaceFrames(rest, c);
    ReleasedSpace(rest, c);
    GoneBefore(o, freed, i, rest);
    var claims, fs := Claims(o.sys.ks.mem, o.sys.procs[i]), Footprint(rest.sys.ks.mem, c);
    MinusMore(o.sys.ks.live, rest.sys.ks.live, Free4gb(rest.sys.ks, c).live, (claims - fs) + FramesOf(o.held[i]), fs);
    assert (claims - fs) + FramesOf(o.held[i]) + fs == claims + FramesOf(o.held[i]);
    SameRest(o, freed, i, rest);
  }

  /** Up to slot n only page tables of the process were written. */
  lemma {:induction false} FreeSlotsMem(o: Owned, i: nat, n: nat, g: nat)
    requires OInv(o) && i < |o.sys.procs| && n <= MAX_PROGRAM_ALLOCATIONS && g < FRAMES
    requires o.sys.procs[i].chunk < FRAMES && g !in Claims(o.sys.ks.mem, o.sys.procs[i])
    ensures FreeSlots(o, i, n).sys.ks.mem[g] == o.sys.ks.mem[g]
  {
    hide OInv, Inv, Claims, Minus, I.Apply, WritesOk, HeldOk;
    if n > 0 {
      FreeSlotsMem(o, i, n - 1, g);
      var r := FreeSlots(o, i, n - 1);
      SlotStep(o, r, i, n - 1);
      var ptr := r.sys.procs[i].allocs[n - 1].ptr;
      assert g !in Claims(r.sys.ks.mem, r.sys.procs[i]);
      if ptr != 0 { FreeElsewhere(r, i, ptr, g); }
    }
  }

  lemma FreeElsewhere(o: Owned, i: nat, ptr: nat, g: nat)
    requires OInv(o) && Legal(o, Plain(I.Deallocate(i, ptr))) && g < FRAMES
    requires o.sys.procs[i].chunk < FRAMES && g !in Claims(o.sys.ks.mem, o.sys.procs[i])
    ensures ApplyPlain(o, I.Deallocate(i, ptr)).sys.ks.mem[g] == o.sys.ks.mem[g]
  {
    hide OInv, Inv, ProcessFree, ProcOk, Footprint, OwnedFrames, Refines, MarkFree, SlotOf, ViewAt;
    InvOf(o);
    I.InvParts(o.sys, i);
    FreeKeepsProc(o.sys.ks, o.sys.procs[i], ptr);
  }

  /** The end of a process writes to nothing but its own page tables. */
  lemma ExitMem(o: Owned, i: nat, g: nat)
    requires OInv(o) && i < |o.sys.procs| && g < FRAMES
    requires o.sys.procs[i].chunk < FRAMES && g !in Claims(o.sys.ks.mem, o.sys.procs[i])
    ensures ApplyExit(o, i).sys.ks.mem[g] == o.sys.ks.mem[g]
  {
    hide OInv, Inv, Minus, Claims, Footprint, LooseSpace, SlotsFreed, Survive, Refines, SpaceAt, ClearFrames, Open;
    var freed := FreeSlots(o, i, MAX_PROGRAM_ALLOCATIONS);
    FreedCount(o, freed, i);
    FreeSlotsMem(o, i, MAX_PROGRAM_ALLOCATIONS, g);
    var rest, c := Survivors(freed, i), o.sys.procs[i].chunk;
    SurvivorsMem(freed, i, rest);
    SpaceIsLoose(o, freed, i, rest);
    SpaceFrames(rest, c);
    ReleasedSpace(rest, c);
    ReleasedMem(rest, c);
  }

  lemma SurvivorsMem(freed: Owned, i: nat, r: Owned)
    requires Survive(freed, i, r)
    ensures r.sys.ks.mem == freed.sys.ks.mem
  {
  }

  lemma ReleasedMem(o: Owned, c: nat)
    requires OInv(o) && LooseSpace(o, c)
    ensures HEAP_FRAME <= Dir(o.sys.ks.mem, c) && HEAP_FRAME <= c < FRAMES && Free4gb(o.sys.ks, c).mem == o.sys.ks.mem
  {
    hide Inv, OInv, Footprint, SpaceAt, Free4gb, I.Unclaimed, Refines, ClearFrames, Open;
    InvOf(o);
    SystemOk(o.sys);
    Free4gbGives(o.sys.ks, c);
  }

  /** A run that is nobody's outlives the end of a process, and its first page stays as it is. */
  lemma ExitKeepsLoose(o: Owned, i: nat, b: nat)
    requires OInv(o) && i < |o.sys.procs| && b in o.sys.ks.live && I.Unclaimed(o.sys, FrameOf(b)) && Unheld(o, b)
    ensures var r := ApplyExit(o, i);
      && b in r.sys.ks.live && r.sys.ks.live[b] == o.sys.ks.live[b] && I.Unclaimed(r.sys, FrameOf(b)) && Unheld(r, b)
      && FrameOf(b) < FRAMES && r.sys.ks.mem[FrameOf(b)] == o.sys.ks.mem[FrameOf(b)]
  {
    hide OInv, Inv, ApplyExit, Claims, Refines, WritesOk, HeldOk, ProcOk;
    Parts(o, i);
    InvOf(o);
    ExitGivesBack(o, i);
    LiveIsTaken(o.sys.ks, b);
    ExitMem(o, i, FrameOf(b));
    var r := ApplyExit(o, i);
    forall j | 0 <= j < |r.sys.procs| ensures r.sys.procs[j].chunk < FRAMES && FrameOf(b) !in Claims(r.sys.ks.mem, r.sys.procs[j]) {
      ExitKeepsClaims(o, i, if j < i then j else j + 1);
    }
    AllUnclaimed(r.sys, FrameOf(b));
    forall j | 0 <= j < |r.held| ensures b !in r.held[j] {
      assert b !in o.held[if j < i then j else j + 1];
    }
  }

  /** The others claim what they claimed. */
  lemma ExitKeepsClaims(o: Owned, i: nat, l: nat)
    requires OInv(o) && i < |o.sys.procs| && l < |o.sys.procs| && l != i
    ensures o.sys.procs[l].chunk < FRAMES && o.sys.procs[i].chunk < FRAMES
    ensures var m, r := o.sys.ks.mem, ApplyExit(o, i).sys.ks.mem;
      && Claims(r, o.sys.procs[l]) == Claims(m, o.sys.procs[l])
      && forall g :: g in Footprint(m, o.sys.procs[l].chunk) ==> g < FRAMES && r[g] == m[g]
  {
    hide OInv, Inv, ApplyExit, Refines, WritesOk, HeldOk, ProcOk, SpaceAt, Footprint, OwnedFrames;
    Parts(o, i);
    Parts(o, l);
    I.ClaimsDisjoint(o.sys, i, l);
    var m, r, q := o.sys.ks.mem, ApplyExit(o, i).sys.ks.mem, o.sys.procs[l];
    ProcSpace(o.sys.ks, q);
    FootprintInRam(m, q.chunk);
    forall g: nat | g in Footprint(m, q.chunk) ensures g < FRAMES && r[g] == m[g] {
      assert g in Claims(m, q);
      ExitMem(o, i, g);
    }
    SpaceFrame(m, r, q.chunk);
  }

  lemma FootprintInRam(m: Ram, c: nat)
    requires c < FRAMES
    ensures forall g :: g in Footprint(m, c) ==> g < FRAMES
  {
  }

  lemma SameRest(o: Owned, freed: Owned, i: nat, rest: Owned)
    requires SlotsFreed(o, freed, i, MAX_PROGRAM_ALLOCATIONS) && Survive(freed, i, rest) && |o.held| == |o.sys.procs|
    ensures rest.sys.procs == Drop(o.sys.procs, i) && rest.held == Drop(o.held, i)
  {
    hide Claims, Minus;
    SameProcs(o.sys.procs, freed.sys.procs, i);
  }

  lemma SpaceFrames(o: Owned, c: nat)
    requires LooseSpace(o, c)
    ensures c < FRAMES
  {
  }

  lemma SameProcs(a: seq<Proc>, b: seq<Proc>, i: nat)
    requires i < |a| == |b| && forall j :: 0 <= j < |a| && j != i ==> b[j] == a[j]
    ensures Drop(b, i) == Drop(a, i)
  {
  }

  // ---------------------------------------------------------------- one step

  ghost function ApplyAct(o: Owned, a: Act): Owned
    requires OInv(o) && Legal(o, a)
  {
    match a
    case Plain(op) => ApplyPlain(o, op)
    case Give(i, b) => ApplyGive(o, i, b)
    case MapMemory(i, image, stack) => ApplyMap(o, i, image, stack)
  }

  /** Of all steps only the mapping of an image can go wrong. */
  ghost predicate ActFits(o: Owned, a: Act) {
    a.MapMemory? && a.pid < |o.held| && ImageOk(a.image) ==> ImageFits(o, a.pid, a.image)
  }

  lemma ActKeepsOwnershipExactly(o: Owned, a: Act)
    requires OInv(o) && Legal(o, a)
    ensures OInv(ApplyAct(o, a)) <==> ActFits(o, a)
  {
    hide OInv, ApplyPlain, ApplyMap, ImageFits;
    match a
    case Plain(op) => PlainKeepsOInv(o, op);
    case Give(i, b) => GiveKeepsOInv(o, i, b);
    case MapMemory(i, image, stack) => MapKeepsOwnershipExactlyWhenImageFits(o, i, image, stack);
  }

  lemma NoProcessesYet(ks: KState)
    requires Ok(ks)
    ensures OInv(Owned(System(ks, []), []))
  {
    hide Refines;
  }

  // ---------------------------------------------------------------- what ownership means

  /** Frame `g` belongs to process i: to one of its allocations, or to its image or stack. */
  ghost predicate Belongs(o: Owned, i: nat, g: int) {
    && i < |o.sys.procs| == |o.held| && HEAP_FRAME <= g
    && (Owns(o.sys.procs[i].allocs, g) || InHeld(o.sys.ks.live, o.held[i], g))
  }

  /** Everything that a process can write to, through any of its 2^20 pages, belongs to it. */
  lemma WritableBelongs(o: Owned, i: nat, v: nat)
    requires OInv(o) && i < |o.sys.procs| && v < FRAMES
    ensures o.sys.procs[i].chunk < FRAMES
    ensures var e := ViewAt(o.sys.ks.mem, o.sys.procs[i].chunk)[v]; P.IsWriteable(e) ==> Belongs(o, i, P.Frame(e))
  {
    hide OInv, Inv, HeldOk, ProcOk, WindowOk, SpaceAt, Footprint, ViewAt, Owns, InHeld, Refines, P.IsWriteable, P.Frame;
    InvOf(o);
    Parts(o, i);
    var view := ViewAt(o.sys.ks.mem, o.sys.procs[i].chunk);
    if P.IsWriteable(view[v]) {
      if OutsideWindow(v) {
        HeldFrame(o.sys.ks.live, o.held[i], P.Frame(view[v]));
      } else {
        WindowOf(o.sys.ks, o.sys.procs[i]);
        WritableIsOwned(view, o.sys.procs[i].allocs, v);
      }
    }
  }

  lemma WindowOf(ks: KState, p: Proc)
    requires p.chunk < FRAMES && ProcOk(ks, p)
    ensures WindowOk(ViewAt(ks.mem, p.chunk), p.allocs)
  {
    hide SpaceAt, Footprint, ViewAt, WindowOk, SlotsOk, Open;
  }

  /** In the window only the own allocations are writable, each page at itself. */
  lemma WritableIsOwned(view: P.View, allocs: seq<Alloc>, v: nat)
    requires WindowOk(view, allocs) && HEAP_FRAME <= v < HEAP_FRAME + HEAP_BLOCKS && P.IsWriteable(view[v])
    ensures P.Frame(view[v]) == v && Owns(allocs, v)
  {
    hide Owns;
  }

  lemma HeldFrame(live: map<nat, nat>, blocks: seq<nat>, g: int)
    requires InHeld(live, blocks, g)
    ensures HEAP_FRAME <= g
  {
  }

  /** The run that a frame of process i lies in is claimed or held by process i. */
  lemma RunOf(o: Owned, i: nat, g: nat) returns (b: nat)
    requires OInv(o) && Belongs(o, i, g)
    ensures Covers(o.sys.ks.live, b, g - HEAP_FRAME) && o.sys.procs[i].chunk < FRAMES
    ensures b in o.held[i] || FrameOf(b) in OwnedFrames(o.sys.procs[i].allocs)
  {
    hide OInv, Inv, HeldOk, WritesOk, SpaceAt, Footprint, ViewAt, SlotsOk, Refines, BlocksFor, WindowOk, Open;
    Parts(o, i);
    var p := o.sys.procs[i];
    if Owns(p.allocs, g) {
      var k :| 0 <= k < |p.allocs| && InRun(p.allocs[k], g);
      SlotOwns(o.sys.ks, p, k);
      b := p.allocs[k].ptr / PAGE_SIZE - HEAP_FRAME;
      assert p.allocs[k].ptr / PAGE_SIZE in OwnedFrames(p.allocs);
    } else {
      b :| b in o.held[i] && Covers(o.sys.ks.live, b, g - HEAP_FRAME);
    }
  }

  /** No frame belongs to two processes. */
  lemma BelongsToOne(o: Owned, i: nat, j: nat, g: nat)
    requires OInv(o) && Belongs(o, i, g) && Belongs(o, j, g)
    ensures i == j
  {
    hide Inv, Belongs, HeldOk, WritesOk, Footprint, Refines, OwnedFrames, Open;
    BelongsIndex(o, i, g);
    BelongsIndex(o, j, g);
    var a := RunOf(o, i, g);
    var b := RunOf(o, j, g);
    Parts(o, i);
    Parts(o, j);
    RunsDisjoint(o.sys.ks.table, o.sys.ks.live, a, b, g - HEAP_FRAME);
    if i != j {
      I.ClaimsDisjoint(o.sys, i, j);
      if a in o.held[i] { HeldIsLive(o, i, a); }
      if a in o.held[j] { HeldIsLive(o, j, a); }
    }
  }

  lemma BelongsIndex(o: Owned, i: nat, g: int)
    requires Belongs(o, i, g)
    ensures i < |o.sys.procs| == |o.held|
  {
  }

  /** No frame of a process is a page table, directory or chunk of any process, its own included. */
  lemma BelongsIsNoTable(o: Owned, i: nat, j: nat, g: nat)
    requires OInv(o) && Belongs(o, i, g) && j < |o.sys.procs|
    ensures o.sys.procs[j].chunk < FRAMES && g !in Footprint(o.sys.ks.mem, o.sys.procs[j].chunk)
  {
    hide OInv, Inv, Belongs, HeldOk, WritesOk, Footprint, Refines, OwnedFrames, SpaceAt, SlotsOk, WindowOk, ViewAt, Open;
    BelongsIndex(o, i, g);
    var b := RunOf(o, i, g);
    Parts(o, i);
    Parts(o, j);
    var q := o.sys.procs[j];
    if g in Footprint(o.sys.ks.mem, q.chunk) {
      LiveCoversItself(o.sys.ks, g - HEAP_FRAME);
      RunsDisjoint(o.sys.ks.table, o.sys.ks.live, b, g - HEAP_FRAME, g - HEAP_FRAME);
      if b in o.held[i] { HeldIsLive(o, i, b); } else if i != j { I.ClaimsDisjoint(o.sys, i, j); }
    }
  }

  /**
    Isolation of the whole address space: two processes never map the same frame writable, whatever
    pages they use, and no process maps a page table of any process writable.
   */
  lemma NoFrameWritableTwice(o: Owned, i: nat, j: nat, v: nat, w: nat)
    requires OInv(o) && i < |o.sys.procs| && j < |o.sys.procs| && i != j && v < FRAMES && w < FRAMES
    ensures o.sys.procs[i].chunk < FRAMES && o.sys.procs[j].chunk < FRAMES
    ensures var e, d := ViewAt(o.sys.ks.mem, o.sys.procs[i].chunk)[v], ViewAt(o.sys.ks.mem, o.sys.procs[j].chunk)[w];
      && (P.IsWriteable(e) && P.IsWriteable(d) ==> P.Frame(e) != P.Frame(d))
      && (P.IsWriteable(e) ==>
        P.Frame(e) !in Footprint(o.sys.ks.mem, o.sys.procs[i].chunk) + Footprint(o.sys.ks.mem, o.sys.procs[j].chunk))
  {
    hide OInv, Belongs, Footprint, ViewAt, P.IsWriteable, Open;
    WritableBelongs(o, i, v);
    WritableBelongs(o, j, w);
    var e, d := ViewAt(o.sys.ks.mem, o.sys.procs[i].chunk)[v], ViewAt(o.sys.ks.mem, o.sys.procs[j].chunk)[w];
    if P.IsWriteable(e) {
      BelongsIsNoTable(o, i, i, P.Frame(e));
      BelongsIsNoTable(o, i, j, P.Frame(e));
      if P.IsWriteable(d) && P.Frame(e) == P.Frame(d) { BelongsToOne(o, i, j, P.Frame(e)); }
    }
  }
}
