/**
  process_malloc and process_free as steps of a system of processes that share one heap and
  one physical memory, and the ownership invariant that every interleaving keeps.
 */
module ProcessMemory {
  import opened Status
  import opened HeapTable
  import opened Memory
  import opened KernelState
  import opened AddressSpace
  import HT = HeapTheory
  import P = Paging

  const MAX_PROGRAM_ALLOCATIONS := 1024

  /** struct process_allocation; a null pointer marks an unused slot. */
  datatype Alloc = Alloc(ptr: nat, size: nat)

  /** The parts of struct process that hold memory: the chunk frame of its task and its allocation slots. */
  datatype Proc = Proc(chunk: nat, allocs: seq<Alloc>)

  const UNUSED := Alloc(0, 0)

  // ---------------------------------------------------------------- the operations

  /** process_find_free_allocation_index */
  ghost function FreeSlot(allocs: seq<Alloc>): (r: int)
    ensures r < 0 ==> r == -3 && forall k :: 0 <= k < |allocs| ==> allocs[k].ptr != 0
    ensures r >= 0 ==> r < |allocs| && allocs[r].ptr == 0 && forall k :: 0 <= k < r ==> allocs[k].ptr != 0
  {
    FreeSlotFrom(allocs, 0)
  }

  ghost function FreeSlotFrom(allocs: seq<Alloc>, i: nat): (r: int)
    requires i <= |allocs| && forall k :: 0 <= k < i ==> allocs[k].ptr != 0
    ensures r < 0 ==> r == -3 && forall k :: 0 <= k < |allocs| ==> allocs[k].ptr != 0
    ensures r >= 0 ==> i <= r < |allocs| && allocs[r].ptr == 0 && forall k :: 0 <= k < r ==> allocs[k].ptr != 0
    decreases |allocs| - i
  {
    if i == |allocs| then -ENOMEM else if allocs[i].ptr == 0 then i else FreeSlotFrom(allocs, i + 1)
  }

  /** process_get_allocation_by_addr: index of the first slot with that pointer, or -1. */
  ghost function SlotOf(allocs: seq<Alloc>, ptr: nat): (r: int)
    ensures r < 0 ==> r == -1 && forall k :: 0 <= k < |allocs| ==> allocs[k].ptr != ptr
    ensures r >= 0 ==> r < |allocs| && allocs[r].ptr == ptr && forall k :: 0 <= k < r ==> allocs[k].ptr != ptr
  {
    if exists k :: 0 <= k < |allocs| && allocs[k].ptr == ptr then FirstSlot(allocs, ptr, 0) else -1
  }

  ghost function FirstSlot(allocs: seq<Alloc>, ptr: nat, i: nat): (r: nat)
    requires exists k :: i <= k < |allocs| && allocs[k].ptr == ptr
    ensures i <= r < |allocs| && allocs[r].ptr == ptr
    ensures forall k :: i <= k < r ==> allocs[k].ptr != ptr
    decreases |allocs| - i
  {
    if allocs[i].ptr == ptr then i else FirstSlot(allocs, ptr, i + 1)
  }

  /** process_allocation_unjoin: every slot with that pointer becomes unused. */
  ghost function Unjoin(allocs: seq<Alloc>, ptr: nat): (r: seq<Alloc>)
    ensures |r| == |allocs|
  {
    seq(|allocs|, k requires 0 <= k < |allocs| => if allocs[k].ptr == ptr then UNUSED else allocs[k])
  }

  datatype Outcome = Outcome(ks: KState, proc: Proc, ptr: nat)

  ghost predicate Serves(ks: KState, size: nat) {
    0 < size <= 0xFFFF_F000 && Ok(ks) && Fits(ks.table, BlocksFor(size))
  }

  /** The pages of an allocation mapped onto themselves in its process, with the given flags. */
  ghost function MapSelf(m: Ram, chunk: nat, ptr: nat, size: nat, flags: nat): Ram
    requires chunk < FRAMES && flags < PAGE_SIZE && ptr + size <= 0xFFFF_F000
  {
    MapTo(m, Dir(m, chunk), ptr, ptr, P.AlignAddress(ptr + size), flags)
  }

  /** process_malloc */
  ghost function ProcessMalloc(ks: KState, proc: Proc, size: nat): Outcome
    requires proc.chunk < FRAMES && Serves(ks, size)
  {
    var s := StartBlock(ks.table, BlocksFor(size));
    if s < 0 then Outcome(ks, proc, 0)
    else
      var ks1, ptr, index := Zalloc(ks, size), (HEAP_FRAME + s) * PAGE_SIZE, FreeSlot(proc.allocs);
      if index < 0 then Outcome(Release(ks1, s), proc, 0)
      else
        RunInHeap(ks, size);
        Outcome(ks1.(mem := MapSelf(ks1.mem, proc.chunk, ptr, size, P.USER_WRITE)),
                proc.(allocs := proc.allocs[index := Alloc(ptr, size)]), ptr)
  }

  /** process_free of a non-null pointer */
  ghost function ProcessFree(ks: KState, proc: Proc, ptr: nat): Outcome
    requires proc.chunk < FRAMES && 0 < ptr
    requires AllOwn(ks.live, proc.allocs)
    requires Ok(ks)
  {
    var k := SlotOf(proc.allocs, ptr);
    if k < 0 then Outcome(ks, proc, 0)
    else
      var a := proc.allocs[k];
      OwnedInHeap(ks, a);
      Outcome(Release(ks.(mem := MapSelf(ks.mem, proc.chunk, a.ptr, a.size, 0)), ptr / PAGE_SIZE - HEAP_FRAME),
              proc.(allocs := Unjoin(proc.allocs, ptr)), 0)
  }

  /** The pointer of a slot is the start of a live run of exactly the blocks its size needs. */
  ghost predicate OwnsRun(live: map<nat, nat>, a: Alloc) {
    && a.ptr % PAGE_SIZE == 0 && HEAP_FRAME <= a.ptr / PAGE_SIZE
    && 0 < a.size <= 0xFFFF_F000
    && a.ptr / PAGE_SIZE - HEAP_FRAME in live && live[a.ptr / PAGE_SIZE - HEAP_FRAME] == BlocksFor(a.size)
  }

  ghost predicate AllOwn(live: map<nat, nat>, allocs: seq<Alloc>) {
    forall k :: 0 <= k < |allocs| && allocs[k].ptr != 0 ==> OwnsRun(live, allocs[k])
  }

  lemma RunInHeap(ks: KState, size: nat)
    requires Serves(ks, size) && StartBlock(ks.table, BlocksFor(size)) >= 0
    ensures (HEAP_FRAME + StartBlock(ks.table, BlocksFor(size))) * PAGE_SIZE + size <= 0xFFFF_F000
  {
    hide StartBlock, Fits, Zalloc, BlocksFor, FreeRun;
    ZallocFacts(ks, size);
  }

  lemma OwnedInHeap(ks: KState, a: Alloc)
    requires Ok(ks) && OwnsRun(ks.live, a)
    ensures a.ptr + a.size <= 0xFFFF_F000
    ensures a.ptr / PAGE_SIZE + BlocksFor(a.size) <= HEAP_FRAME + HEAP_BLOCKS && a.ptr / PAGE_SIZE < FRAMES
  {
    AlignUpperIsLeastMultiple(a.size);
  }

  /** The page range of an allocation is its run. */
  lemma MapSelfPages(m: Ram, chunk: nat, ptr: nat, size: nat, flags: nat)
    requires chunk < FRAMES && flags < PAGE_SIZE && 0 < size && ptr + size <= 0xFFFF_F000 && ptr % PAGE_SIZE == 0
    ensures BlocksFor(size) >= 1 && ptr / PAGE_SIZE + BlocksFor(size) <= FRAMES
    ensures MapSelf(m, chunk, ptr, size, flags)
      == MapMem(m, Dir(m, chunk), ptr / PAGE_SIZE, ptr / PAGE_SIZE, BlocksFor(size), flags)
  {
    hide MapMem, Dir;
    AlignUpperIsLeastMultiple(size);
    assert P.AlignAddress(ptr + size) == ptr + BlocksFor(size) * PAGE_SIZE;
  }

  // ---------------------------------------------------------------- the invariant

  /** Page `g` belongs to the allocation. */
  ghost predicate InRun(a: Alloc, g: nat) {
    a.ptr != 0 && a.size < WORD_LIMIT && a.ptr / PAGE_SIZE <= g < a.ptr / PAGE_SIZE + BlocksFor(a.size)
  }

  ghost predicate Owns(allocs: seq<Alloc>, g: nat) {
    exists k :: 0 <= k < |allocs| && InRun(allocs[k], g)
  }

  /**
    In the window of heap addresses an owned page maps to itself, present, writable and open to
    the user; any other page maps to itself read-only or not at all.
   */
  ghost predicate WindowOk(view: P.View, allocs: seq<Alloc>) {
    forall g: nat :: HEAP_FRAME <= g < HEAP_FRAME + HEAP_BLOCKS ==>
      if Owns(allocs, g) then view[g] == g * PAGE_SIZE + P.USER_WRITE
      else view[g] == g * PAGE_SIZE + P.USER_READ || view[g] == g * PAGE_SIZE
  }

  ghost function OwnedFrames(allocs: seq<Alloc>): set<nat> {
    set k | 0 <= k < |allocs| && allocs[k].ptr != 0 :: allocs[k].ptr / PAGE_SIZE
  }

  ghost predicate SlotsOk(live: map<nat, nat>, allocs: seq<Alloc>) {
    && |allocs| == MAX_PROGRAM_ALLOCATIONS
    && AllOwn(live, allocs)
    && (forall k :: 0 <= k < |allocs| && allocs[k].ptr == 0 ==> allocs[k] == UNUSED)
    && (forall k, l :: 0 <= k < l < |allocs| && allocs[k].ptr != 0 ==> allocs[k].ptr != allocs[l].ptr)
  }

  ghost predicate ProcOk(ks: KState, p: Proc) {
    && SpaceAt(ks.mem, p.chunk) && Open(ks.mem, p.chunk)
    && SingleRuns(ks.live, Footprint(ks.mem, p.chunk))
    && SlotsOk(ks.live, p.allocs)
    && Footprint(ks.mem, p.chunk) !! OwnedFrames(p.allocs)
    && WindowOk(ViewAt(ks.mem, p.chunk), p.allocs)
  }

  /** First frames of all the runs that a process holds: page tables and allocations. */
  ghost function Claims(m: Ram, p: Proc): set<nat>
    requires p.chunk < FRAMES
  {
    Footprint(m, p.chunk) + OwnedFrames(p.allocs)
  }

  datatype System = System(ks: KState, procs: seq<Proc>)

  ghost predicate Inv(sys: System) {
    && Ok(sys.ks)
    && (forall i :: 0 <= i < |sys.procs| ==> ProcOk(sys.ks, sys.procs[i]))
    && (forall i, j :: 0 <= i < j < |sys.procs| ==> Claims(sys.ks.mem, sys.procs[i]) !! Claims(sys.ks.mem, sys.procs[j]))
  }

  /** What a process holds survives any step that keeps its runs live and its tables untouched. */
  lemma OtherProc(ks: KState, ks': KState, q: Proc)
    requires ProcOk(ks, q)
    requires forall f :: f in Claims(ks.mem, q) ==>
      f - HEAP_FRAME in ks.live && f - HEAP_FRAME in ks'.live && ks'.live[f - HEAP_FRAME] == ks.live[f - HEAP_FRAME]
    requires forall g: nat :: g in Footprint(ks.mem, q.chunk) ==> ks'.mem[g] == ks.mem[g]
    ensures ProcOk(ks', q) && Claims(ks'.mem, q) == Claims(ks.mem, q) && ViewAt(ks'.mem, q.chunk) == ViewAt(ks.mem, q.chunk)
  {
    hide Footprint, ViewAt, SpaceAt, Open;
    SpaceFrame(ks.mem, ks'.mem, q.chunk);
    assert forall f :: f in Footprint(ks.mem, q.chunk) ==> f in Claims(ks.mem, q);
    forall k | 0 <= k < |q.allocs| && q.allocs[k].ptr != 0 ensures OwnsRun(ks'.live, q.allocs[k]) {
      assert q.allocs[k].ptr / PAGE_SIZE in OwnedFrames(q.allocs);
      assert q.allocs[k].ptr / PAGE_SIZE in Claims(ks.mem, q);
    }
  }

  lemma ClaimsAreLive(ks: KState, q: Proc, f: nat)
    requires ProcOk(ks, q) && f in Claims(ks.mem, q)
    ensures HEAP_FRAME <= f && f - HEAP_FRAME in ks.live
  {
    hide Footprint, ViewAt, SpaceAt, WindowOk, Open;
  }

  // ---------------------------------------------------------------- process_malloc keeps the invariant

  /** A run that was not live before overlaps no live run: the other memory of a live start is untouched. */
  lemma ZallocKeepsProc(ks: KState, p: Proc, size: nat)
    requires Serves(ks, size) && p.chunk < FRAMES && ProcOk(ks, p) && StartBlock(ks.table, BlocksFor(size)) >= 0
    ensures var ks1, s := Zalloc(ks, size), StartBlock(ks.table, BlocksFor(size));
      && Ok(ks1) && ProcOk(ks1, p) && Claims(ks1.mem, p) == Claims(ks.mem, p)
      && s !in ks.live && ks1.live == ks.live[s as nat := BlocksFor(size)] && HEAP_FRAME + s !in Claims(ks.mem, p)
      && (forall g: nat :: TakenFrame(ks, g) ==> ks1.mem[g] == ks.mem[g])
  {
    hide Refines, StartBlock, Fits, Zalloc, BlocksFor, FreeRun, Footprint, OwnedFrames, ProcOk;
    ZallocFacts(ks, size);
    var ks1, s := Zalloc(ks, size), StartBlock(ks.table, BlocksFor(size));
    forall g: nat | TakenFrame(ks, g) ensures ks1.mem[g] == ks.mem[g] {
      var b := TakenIsCovered(ks, g);
    }
    forall f | f in Claims(ks.mem, p) ensures TakenFrame(ks, f) && f - HEAP_FRAME in ks.live {
      ClaimsAreLive(ks, p, f);
      LiveIsTaken(ks, f - HEAP_FRAME);
    }
    assert forall f :: f in Footprint(ks.mem, p.chunk) ==> f in Claims(ks.mem, p);
    OtherProc(ks, ks1, p);
  }

  /** The frame belongs to some live run. */
  ghost predicate TakenFrame(ks: KState, g: nat)
    requires Ok(ks)
  {
    HEAP_FRAME <= g < HEAP_FRAME + HEAP_BLOCKS && ks.table[g - HEAP_FRAME] != FREE
  }

  lemma TakenIsCovered(ks: KState, g: nat) returns (b: nat)
    requires Ok(ks) && TakenFrame(ks, g)
    ensures Covers(ks.live, b, g - HEAP_FRAME)
  {
    b :| Covers(ks.live, b, g - HEAP_FRAME);
  }

  lemma LiveIsTaken(ks: KState, b: nat)
    requires Ok(ks) && b in ks.live
    ensures b < HEAP_BLOCKS && ks.table[b] != FREE && TakenFrame(ks, HEAP_FRAME + b)
  {
    assert Covers(ks.live, b, b);
    CellBits(0, ks.live[b]);
  }

  lemma LiveCoversItself(ks: KState, b: nat)
    requires Ok(ks) && b in ks.live
    ensures Covers(ks.live, b, b)
  {
  }

  lemma LiveInHeap(ks: KState, b: nat)
    requires Ok(ks) && b in ks.live
    ensures b + ks.live[b] <= HEAP_BLOCKS && ks.live[b] >= 1
  {
  }

  lemma OwnsUpdate(allocs: seq<Alloc>, i: nat, a: Alloc, g: nat)
    requires i < |allocs| && (allocs[i].ptr == 0 || a.ptr == 0)
    ensures allocs[i].ptr == 0 ==> (Owns(allocs[i := a], g) <==> Owns(allocs, g) || InRun(a, g))
  {
    var r := allocs[i := a];
    if allocs[i].ptr == 0 {
      if k :| 0 <= k < |allocs| && InRun(allocs[k], g) { assert InRun(r[k], g); }
      if InRun(a, g) { assert InRun(r[i], g); }
    }
  }

  /** The runs of different slots share no page. */
  lemma SlotRunsDisjoint(ks: KState, a: Alloc, b: Alloc, g: nat)
    requires Ok(ks) && OwnsRun(ks.live, a) && OwnsRun(ks.live, b) && InRun(a, g) && InRun(b, g)
    ensures a.ptr == b.ptr
  {
    hide Refines, BlocksFor;
    assert Covers(ks.live, a.ptr / PAGE_SIZE - HEAP_FRAME, g - HEAP_FRAME);
    assert Covers(ks.live, b.ptr / PAGE_SIZE - HEAP_FRAME, g - HEAP_FRAME);
    RunsDisjoint(ks.table, ks.live, a.ptr / PAGE_SIZE - HEAP_FRAME, b.ptr / PAGE_SIZE - HEAP_FRAME, g - HEAP_FRAME);
  }

  lemma OwnedFramesUpdate(allocs: seq<Alloc>, i: nat, a: Alloc)
    requires i < |allocs| && allocs[i].ptr == 0 && a.ptr != 0
    ensures OwnedFrames(allocs[i := a]) == OwnedFrames(allocs) + {a.ptr / PAGE_SIZE}
  {
    var r := allocs[i := a];
    assert r[i] == a;
    forall f | f in OwnedFrames(allocs) ensures f in OwnedFrames(r) {
      var k :| 0 <= k < |allocs| && allocs[k].ptr != 0 && allocs[k].ptr / PAGE_SIZE == f;
      assert r[k].ptr / PAGE_SIZE == f;
    }
  }

  /** Entering a live run in an unused slot and mapping its pages. */
  lemma JoinKeepsWindow(ks: KState, view: P.View, allocs: seq<Alloc>, i: nat, a: Alloc)
    requires Ok(ks) && SlotsOk(ks.live, allocs) && WindowOk(view, allocs)
    requires i < |allocs| && allocs[i].ptr == 0 && OwnsRun(ks.live, a) && a.ptr != 0
    requires a.ptr / PAGE_SIZE + BlocksFor(a.size) <= FRAMES
    ensures WindowOk(P.MapPages(view, a.ptr / PAGE_SIZE, a.ptr / PAGE_SIZE, BlocksFor(a.size), P.USER_WRITE), allocs[i := a])
  {
    hide Refines, BlocksFor, Owns;
    var f, n := a.ptr / PAGE_SIZE, BlocksFor(a.size);
    var r, allocs' := P.MapPages(view, f, f, n, P.USER_WRITE), allocs[i := a];
    forall g: nat | HEAP_FRAME <= g < HEAP_FRAME + HEAP_BLOCKS
      ensures if Owns(allocs', g) then r[g] == g * PAGE_SIZE + P.USER_WRITE
              else r[g] == g * PAGE_SIZE + P.USER_READ || r[g] == g * PAGE_SIZE
    {
      OwnsUpdate(allocs, i, a, g);
      assert if f <= g < f + n then r[g] == (f + g - f) * PAGE_SIZE + P.USER_WRITE else r[g] == view[g];
    }
  }

  lemma JoinKeepsSlots(live: map<nat, nat>, allocs: seq<Alloc>, i: nat, a: Alloc)
    requires SlotsOk(live, allocs) && i < |allocs| && allocs[i].ptr == 0 && OwnsRun(live, a) && a.ptr != 0
    requires a.ptr / PAGE_SIZE !in OwnedFrames(allocs)
    ensures SlotsOk(live, allocs[i := a])
  {
    hide OwnsRun;
    forall k | 0 <= k < |allocs| && allocs[k].ptr != 0 ensures allocs[k].ptr != a.ptr {
      assert allocs[k].ptr / PAGE_SIZE in OwnedFrames(allocs);
    }
  }

  lemma JoinKeepsProc(ks: KState, p: Proc, i: nat, a: Alloc)
    requires Ok(ks) && ProcOk(ks, p) && i < |p.allocs| && p.allocs[i].ptr == 0 && a.ptr != 0
    requires OwnsRun(ks.live, a) && a.ptr / PAGE_SIZE !in Claims(ks.mem, p) && a.ptr + a.size <= 0xFFFF_F000
    ensures var ks', p' := ks.(mem := MapSelf(ks.mem, p.chunk, a.ptr, a.size, P.USER_WRITE)), p.(allocs := p.allocs[i := a]);
      && ProcOk(ks', p') && Claims(ks'.mem, p') == Claims(ks.mem, p) + {a.ptr / PAGE_SIZE}
      && (forall g: nat :: g < FRAMES && g !in Footprint(ks.mem, p.chunk) ==> ks'.mem[g] == ks.mem[g])
  {
    hide Refines, BlocksFor, Owns, SpaceAt, SlotsOk, WindowOk, MapMem, MapSelf, ViewAt, P.MapPages, P.Tables, OwnedFrames, Open;
    MapSelfPages(ks.mem, p.chunk, a.ptr, a.size, P.USER_WRITE);
    MapKeepsSpace(ks.mem, p.chunk, a.ptr / PAGE_SIZE, a.ptr / PAGE_SIZE, BlocksFor(a.size), P.USER_WRITE);
    JoinKeepsWindow(ks, ViewAt(ks.mem, p.chunk), p.allocs, i, a);
    JoinKeepsSlots(ks.live, p.allocs, i, a);
    OwnedFramesUpdate(p.allocs, i, a);
  }

  /** A failed process_malloc gives the heap back and leaves slots and page tables alone. */
  ghost predicate Refused(ks: KState, p: Proc, o: Outcome)
    requires p.chunk < FRAMES
  {
    && o.proc == p && o.ks.table == ks.table && o.ks.live == ks.live
    && Footprint(o.ks.mem, p.chunk) == Footprint(ks.mem, p.chunk)
    && ViewAt(o.ks.mem, p.chunk) == ViewAt(ks.mem, p.chunk)
  }

  /** A granted pointer is the start of a run that was free and is now live, held in one more slot. */
  ghost predicate Granted(ks: KState, p: Proc, size: nat, o: Outcome)
    requires p.chunk < FRAMES && o.proc.chunk < FRAMES && size < WORD_LIMIT
  {
    && o.ptr % PAGE_SIZE == 0 && o.ptr / PAGE_SIZE >= HEAP_FRAME
    && o.ptr / PAGE_SIZE - HEAP_FRAME !in ks.live
    && o.ks.live == ks.live[o.ptr / PAGE_SIZE - HEAP_FRAME := BlocksFor(size)]
    && (exists i :: 0 <= i < |p.allocs| && p.allocs[i].ptr == 0 && o.proc == p.(allocs := p.allocs[i := Alloc(o.ptr, size)]))
    && Claims(o.ks.mem, o.proc) == Claims(ks.mem, p) + {o.ptr / PAGE_SIZE}
  }

  lemma MallocKeepsProc(ks: KState, p: Proc, size: nat)
    requires Serves(ks, size) && p.chunk < FRAMES && ProcOk(ks, p)
    ensures var o := ProcessMalloc(ks, p, size);
      && o.proc.chunk == p.chunk && Ok(o.ks) && ProcOk(o.ks, o.proc)
      && (o.ptr == 0 <==> StartBlock(ks.table, BlocksFor(size)) < 0 || FreeSlot(p.allocs) < 0)
      && (if o.ptr == 0 then Refused(ks, p, o) && Claims(o.ks.mem, p) == Claims(ks.mem, p) else Granted(ks, p, size, o))
      && (forall g: nat :: TakenFrame(ks, g) && g !in Footprint(ks.mem, p.chunk) ==> o.ks.mem[g] == ks.mem[g])
  {
    hide Refines, StartBlock, Fits, Zalloc, BlocksFor, Footprint, SpaceAt, SlotsOk, WindowOk, MapSelf, ViewAt, OwnedFrames, FreeSlot, Open;
    var s, i := StartBlock(ks.table, BlocksFor(size)), FreeSlot(p.allocs);
    if s >= 0 {
      ZallocKeepsProc(ks, p, size);
      var ks1 := Zalloc(ks, size);
      if i < 0 {
        ZallocThenRelease(ks, size);
        RefusedKeepsProc(ks, ks1, Release(ks1, s), p);
      } else {
        RunInHeap(ks, size);
        var a := Alloc((HEAP_FRAME + s) * PAGE_SIZE, size);
        assert OwnsRun(ks1.live, a);
        JoinKeepsProc(ks1, p, i, a);
      }
    }
  }

  lemma RefusedKeepsProc(ks: KState, ks1: KState, ks2: KState, p: Proc)
    requires Ok(ks) && ProcOk(ks, p) && ProcOk(ks1, p) && ks2.mem == ks1.mem && ks2.live == ks.live && ks2.table == ks.table
    requires forall g: nat :: TakenFrame(ks, g) ==> ks1.mem[g] == ks.mem[g]
    ensures Ok(ks2) && ProcOk(ks2, p) && Claims(ks2.mem, p) == Claims(ks.mem, p)
    ensures Footprint(ks2.mem, p.chunk) == Footprint(ks.mem, p.chunk) && ViewAt(ks2.mem, p.chunk) == ViewAt(ks.mem, p.chunk)
  {
    hide Refines, Footprint, ViewAt, OwnedFrames, WindowOk, SlotsOk, Open;
    forall f | f in Claims(ks.mem, p) ensures TakenFrame(ks, f) && f - HEAP_FRAME in ks.live {
      ClaimsAreLive(ks, p, f);
      LiveIsTaken(ks, f - HEAP_FRAME);
    }
    assert forall f :: f in Footprint(ks.mem, p.chunk) ==> f in Claims(ks.mem, p);
    OtherProc(ks, ks2, p);
    SpaceFrame(ks.mem, ks2.mem, p.chunk);
  }

  /** A page outside the window of heap addresses. */
  predicate OutsideWindow(v: nat) {
    v < FRAMES && !(HEAP_FRAME <= v < HEAP_FRAME + HEAP_BLOCKS)
  }

  /** The mappings outside the window are the same. */
  ghost predicate SameOutside(m: Ram, m': Ram, c: nat)
    requires c < FRAMES
  {
    forall v: nat :: OutsideWindow(v) ==> ViewAt(m', c)[v] == ViewAt(m, c)[v]
  }

  lemma MallocKeepsOutside(ks: KState, p: Proc, size: nat)
    requires Serves(ks, size) && p.chunk < FRAMES && ProcOk(ks, p)
    ensures SameOutside(ks.mem, ProcessMalloc(ks, p, size).ks.mem, p.chunk)
  {
    hide Refines, StartBlock, Fits, Zalloc, BlocksFor, Footprint, SpaceAt, SlotsOk, WindowOk, MapSelf, MapMem, ViewAt, OwnedFrames, FreeSlot, FreeRun, Open, P.MapPages;
    MallocKeepsProc(ks, p, size);
    var s, i, n := StartBlock(ks.table, BlocksFor(size)), FreeSlot(p.allocs), BlocksFor(size);
    if s >= 0 && i >= 0 {
      ZallocKeepsProc(ks, p, size);
      ZallocFacts(ks, size);
      RunInHeap(ks, size);
      var ks1 := Zalloc(ks, size);
      SameView(ks, ks1, p);
      MapSelfPages(ks1.mem, p.chunk, (HEAP_FRAME + s) * PAGE_SIZE, size, P.USER_WRITE);
      MapKeepsSpace(ks1.mem, p.chunk, HEAP_FRAME + s, HEAP_FRAME + s, n, P.USER_WRITE);
      MapsInWindow(ViewAt(ks1.mem, p.chunk), s, n);
    }
  }

  lemma MapsInWindow(view: P.View, s: nat, n: nat)
    requires s + n <= HEAP_BLOCKS
    ensures forall v: nat :: OutsideWindow(v) ==> P.MapPages(view, HEAP_FRAME + s, HEAP_FRAME + s, n, P.USER_WRITE)[v] == view[v]
  {
  }

  /** Memory that keeps all taken frames keeps the view. */
  lemma SameView(ks: KState, ks1: KState, p: Proc)
    requires Ok(ks) && ProcOk(ks, p) && forall g: nat :: TakenFrame(ks, g) ==> ks1.mem[g] == ks.mem[g]
    ensures p.chunk < FRAMES && ViewAt(ks1.mem, p.chunk) == ViewAt(ks.mem, p.chunk)
  {
    hide Refines, Footprint, ViewAt, OwnedFrames, WindowOk, SlotsOk, Open;
    forall f | f in Footprint(ks.mem, p.chunk) ensures TakenFrame(ks, f) {
      assert f in Claims(ks.mem, p);
      ClaimsAreLive(ks, p, f);
      LiveIsTaken(ks, f - HEAP_FRAME);
    }
    SpaceFrame(ks.mem, ks1.mem, p.chunk);
  }

  // ---------------------------------------------------------------- process_free keeps the invariant

  lemma UnjoinIsOneSlot(live: map<nat, nat>, allocs: seq<Alloc>, k: nat)
    requires SlotsOk(live, allocs) && k < |allocs| && allocs[k].ptr != 0
    ensures Unjoin(allocs, allocs[k].ptr) == allocs[k := UNUSED]
    ensures OwnedFrames(allocs[k := UNUSED]) == OwnedFrames(allocs) - {allocs[k].ptr / PAGE_SIZE}
    ensures allocs[k].ptr / PAGE_SIZE in OwnedFrames(allocs)
  {
    hide BlocksFor;
    var r := allocs[k := UNUSED];
    assert Unjoin(allocs, allocs[k].ptr) == r;
    forall f | f in OwnedFrames(allocs) && f != allocs[k].ptr / PAGE_SIZE ensures f in OwnedFrames(r) {
      var j :| 0 <= j < |allocs| && allocs[j].ptr != 0 && allocs[j].ptr / PAGE_SIZE == f;
      assert r[j].ptr / PAGE_SIZE == f;
    }
    forall j | 0 <= j < |allocs| && j != k && allocs[j].ptr != 0
      ensures allocs[j].ptr / PAGE_SIZE != allocs[k].ptr / PAGE_SIZE
    {
      assert OwnsRun(live, allocs[j]) && OwnsRun(live, allocs[k]);
    }
  }

  lemma OwnsWithout(ks: KState, allocs: seq<Alloc>, k: nat, g: nat)
    requires Ok(ks) && SlotsOk(ks.live, allocs) && k < |allocs| && allocs[k].ptr != 0
    ensures Owns(allocs[k := UNUSED], g) <==> Owns(allocs, g) && !InRun(allocs[k], g)
  {
    hide BlocksFor, Refines, OwnsRun;
    var r := allocs[k := UNUSED];
    forall j | 0 <= j < |allocs| ensures InRun(r[j], g) <==> j != k && InRun(allocs[j], g) {}
    forall j | 0 <= j < |allocs| && j != k && InRun(allocs[j], g) ensures !InRun(allocs[k], g) {
      if InRun(allocs[k], g) { SlotRunsDisjoint(ks, allocs[j], allocs[k], g); }
    }
  }

  lemma LeaveKeepsWindow(ks: KState, view: P.View, allocs: seq<Alloc>, k: nat)
    requires Ok(ks) && SlotsOk(ks.live, allocs) && WindowOk(view, allocs) && k < |allocs| && allocs[k].ptr != 0
    requires allocs[k].size < WORD_LIMIT && allocs[k].ptr / PAGE_SIZE + BlocksFor(allocs[k].size) <= FRAMES
    ensures var a := allocs[k];
      WindowOk(P.MapPages(view, a.ptr / PAGE_SIZE, a.ptr / PAGE_SIZE, BlocksFor(a.size), 0), allocs[k := UNUSED])
  {
    hide Refines, BlocksFor, Owns, OwnsRun;
    var a := allocs[k];
    var f, n := a.ptr / PAGE_SIZE, BlocksFor(a.size);
    var r, allocs' := P.MapPages(view, f, f, n, 0), allocs[k := UNUSED];
    forall g: nat | HEAP_FRAME <= g < HEAP_FRAME + HEAP_BLOCKS
      ensures if Owns(allocs', g) then r[g] == g * PAGE_SIZE + P.USER_WRITE
              else r[g] == g * PAGE_SIZE + P.USER_READ || r[g] == g * PAGE_SIZE
    {
      OwnsWithout(ks, allocs, k, g);
      assert if f <= g < f + n then r[g] == (f + g - f) * PAGE_SIZE else r[g] == view[g];
    }
  }

  /** After process_free: the run is dead, the slot unused, and none of its pages is present any more. */
  ghost predicate Freed(ks: KState, p: Proc, ptr: nat, o: Outcome)
    requires p.chunk < FRAMES && o.proc.chunk < FRAMES
  {
    && ptr / PAGE_SIZE >= HEAP_FRAME && ptr / PAGE_SIZE - HEAP_FRAME in ks.live
    && o.ks.live == ks.live - {ptr / PAGE_SIZE - HEAP_FRAME}
    && o.ks.table == MarkFree(ks.table, ptr / PAGE_SIZE - HEAP_FRAME, ks.live[ptr / PAGE_SIZE - HEAP_FRAME])
    && (exists k :: 0 <= k < |p.allocs| && p.allocs[k].ptr == ptr && o.proc == p.(allocs := p.allocs[k := UNUSED]))
    && Claims(o.ks.mem, o.proc) == Claims(ks.mem, p) - {ptr / PAGE_SIZE}
    && (forall g: nat :: g < FRAMES ==>
      ViewAt(o.ks.mem, p.chunk)[g] ==
        if ptr / PAGE_SIZE <= g < ptr / PAGE_SIZE + ks.live[ptr / PAGE_SIZE - HEAP_FRAME] then g * PAGE_SIZE
        else ViewAt(ks.mem, p.chunk)[g])
  }

  lemma LeaveKeepsSlots(live: map<nat, nat>, allocs: seq<Alloc>, k: nat)
    requires SlotsOk(live, allocs) && k < |allocs| && allocs[k].ptr != 0
    ensures SlotsOk(live - {allocs[k].ptr / PAGE_SIZE - HEAP_FRAME}, allocs[k := UNUSED])
  {
    hide BlocksFor;
    var r := allocs[k := UNUSED];
    forall j | 0 <= j < |r| && r[j].ptr != 0 ensures OwnsRun(live - {allocs[k].ptr / PAGE_SIZE - HEAP_FRAME}, r[j]) {
      assert OwnsRun(live, allocs[j]) && OwnsRun(live, allocs[k]) && allocs[j].ptr != allocs[k].ptr;
    }
  }

  lemma SlotOwns(ks: KState, p: Proc, k: nat)
    requires ProcOk(ks, p) && Ok(ks) && k < |p.allocs| && p.allocs[k].ptr != 0
    ensures OwnsRun(ks.live, p.allocs[k])
  {
    hide OwnsRun, SpaceAt, Footprint, ViewAt, WindowOk, Open;
  }

  lemma FreeKeepsProc(ks: KState, p: Proc, ptr: nat)
    requires Ok(ks) && p.chunk < FRAMES && ProcOk(ks, p) && ptr != 0
    ensures AllOwn(ks.live, p.allocs)
    ensures var o := ProcessFree(ks, p, ptr);
      && o.proc.chunk == p.chunk && Ok(o.ks) && ProcOk(o.ks, o.proc)
      && (if SlotOf(p.allocs, ptr) < 0 then o.ks == ks && o.proc == p else Freed(ks, p, ptr, o))
      && (forall g: nat :: g < FRAMES && g !in Footprint(ks.mem, p.chunk) ==> o.ks.mem[g] == ks.mem[g])
  {
    hide Refines, BlocksFor, Owns, SpaceAt, WindowOk, MapMem, MapSelf, ViewAt, P.Tables, OwnedFrames, SlotOf, Unjoin, FreeAt, ChainLength, P.MapPages, SlotsOk, OwnsRun, Open;
    forall k | 0 <= k < |p.allocs| && p.allocs[k].ptr != 0 ensures OwnsRun(ks.live, p.allocs[k]) {
      SlotOwns(ks, p, k);
    }
    var k := SlotOf(p.allocs, ptr);
    if k >= 0 { FreeOwned(ks, p, k); }
  }

  lemma FreeOwned(ks: KState, p: Proc, k: nat)
    requires Ok(ks) && p.chunk < FRAMES && ProcOk(ks, p) && k < |p.allocs| && p.allocs[k].ptr != 0
    requires OwnsRun(ks.live, p.allocs[k])
    ensures var a := p.allocs[k];
      && a.ptr + a.size <= 0xFFFF_F000 && a.ptr / PAGE_SIZE >= HEAP_FRAME
      && var o := Outcome(Release(ks.(mem := MapSelf(ks.mem, p.chunk, a.ptr, a.size, 0)), a.ptr / PAGE_SIZE - HEAP_FRAME),
                        p.(allocs := Unjoin(p.allocs, a.ptr)), 0);
      && Ok(o.ks) && ProcOk(o.ks, o.proc) && Freed(ks, p, a.ptr, o)
      && (forall g: nat :: g < FRAMES && g !in Footprint(ks.mem, p.chunk) ==> o.ks.mem[g] == ks.mem[g])
  {
    hide Refines, BlocksFor, Owns, SpaceAt, WindowOk, MapMem, MapSelf, ViewAt, P.Tables, OwnedFrames, Unjoin, FreeAt, SlotsOk, P.MapPages, Footprint, Open;
    var a := p.allocs[k];
    OwnedInHeap(ks, a);
    MapSelfPages(ks.mem, p.chunk, a.ptr, a.size, 0);
    var f, n := a.ptr / PAGE_SIZE, BlocksFor(a.size);
    MapKeepsSpace(ks.mem, p.chunk, f, f, n, 0);
    UnjoinIsOneSlot(ks.live, p.allocs, k);
    LeaveKeepsSlots(ks.live, p.allocs, k);
    LeaveKeepsWindow(ks, ViewAt(ks.mem, p.chunk), p.allocs, k);
    var ks1 := ks.(mem := MapSelf(ks.mem, p.chunk, a.ptr, a.size, 0));
    ReleaseOk(ks1, f - HEAP_FRAME);
    MapPagesAt(ViewAt(ks.mem, p.chunk), f, n);
    SingleRunsWithout(ks.live, Footprint(ks.mem, p.chunk), f);
    TablesInFootprint(ks.mem, p.chunk);
  }

  lemma SingleRunsWithout(live: map<nat, nat>, fs: set<nat>, f: nat)
    requires SingleRuns(live, fs) && f !in fs && f >= HEAP_FRAME
    ensures SingleRuns(live - {f - HEAP_FRAME}, fs)
  {
  }

  lemma MapPagesAt(view: P.View, f: nat, n: nat)
    requires f + n <= FRAMES
    ensures forall g: nat :: g < FRAMES ==>
      P.MapPages(view, f, f, n, 0)[g] == if f <= g < f + n then g * PAGE_SIZE else view[g]
  {
  }

  // ---------------------------------------------------------------- a new process

  function NoAllocs(): seq<Alloc> {
    seq(MAX_PROGRAM_ALLOCATIONS, _ => UNUSED)
  }

  lemma NewWindow(live: map<nat, nat>)
    ensures WindowOk(P.Identity(P.USER_READ), NoAllocs()) && SlotsOk(live, NoAllocs())
  {
    forall g: nat | HEAP_FRAME <= g < HEAP_FRAME + HEAP_BLOCKS ensures !Owns(NoAllocs(), g) {}
  }

  lemma NewProcOk(ks: KState, ks': KState, c: nat)
    requires c < FRAMES && SpaceAt(ks'.mem, c) && ViewAt(ks'.mem, c) == P.Identity(P.USER_READ) && Took(ks, ks', Footprint(ks'.mem, c))
    requires Open(ks'.mem, c)
    ensures ProcOk(ks', Proc(c, NoAllocs())) && Claims(ks'.mem, Proc(c, NoAllocs())) == Footprint(ks'.mem, c)
  {
    hide Refines, Footprint, SpaceAt, ViewAt, HT.FreeFrom, MarkFrames, P.Identity, WindowOk, SlotsOk, SingleRuns, Took, Open;
    assert OwnedFrames(NoAllocs()) == {};
    NewWindow(ks'.live);
    TookIsSingleRuns(ks, ks', Footprint(ks'.mem, c));
  }
}
