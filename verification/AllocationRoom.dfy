/**
  How much a process can still be given: free heap blocks and unused slots, counted, and the exact
  condition under which process_malloc succeeds.
 */
module AllocationRoom {
  import opened HeapTable
  import opened Memory
  import opened KernelState
  import opened KernelMachine
  import opened AddressSpace
  import opened ProcessMemory
  import opened Processes
  import opened OwnMemory
  import HT = HeapTheory

  /** Number of unused slots. */
  ghost function Unused(allocs: seq<Alloc>): nat {
    if allocs == [] then 0 else Unused(allocs[..|allocs| - 1]) + if allocs[|allocs| - 1].ptr == 0 then 1 else 0
  }

  lemma {:induction false} UnusedIsZero(allocs: seq<Alloc>)
    ensures Unused(allocs) == 0 <==> forall k :: 0 <= k < |allocs| ==> allocs[k].ptr != 0
  {
    if allocs != [] {
      var n := |allocs| - 1;
      UnusedIsZero(allocs[..n]);
      assert forall k :: 0 <= k < n ==> allocs[..n][k] == allocs[k];
    }
  }

  lemma {:induction false} UnusedLess(allocs: seq<Alloc>, i: nat, a: Alloc)
    requires i < |allocs| && allocs[i].ptr == 0 && a.ptr != 0
    ensures Unused(allocs[i := a]) + 1 == Unused(allocs)
  {
    var n, r := |allocs| - 1, allocs[i := a];
    if i < n {
      UnusedLess(allocs[..n], i, a);
      assert r[..n] == allocs[..n][i := a];
    } else {
      assert r[..n] == allocs[..n];
    }
  }

  /** Marking a free run takes its length from the free count. */
  lemma {:induction false} TakeCounts(t: seq<Entry>, s: nat, n: nat, k: nat)
    requires FreeRun(t, s, n) && n >= 1
    ensures var rest := if k <= s then n else if k < s + n then s + n - k else 0;
      HT.FreeFrom(t, k) == HT.FreeFrom(MarkTaken(t, s, n), k) + rest
    decreases |t| - k
  {
    if k < |t| {
      TakeCounts(t, s, n, k + 1);
      if s <= k < s + n { CellBits(k - s, n); }
    }
  }

  /** One block: a run exists exactly when the free count is positive. */
  lemma OneBlockRun(t: seq<Entry>)
    ensures HasRun(t, 1) <==> HT.FreeFrom(t, 0) >= 1
  {
    if HT.FreeFrom(t, 0) >= 1 { FreeBlockExists(t, 0); }
    if HasRun(t, 1) {
      var s: nat :| FreeRun(t, s, 1);
      TakeCounts(t, s, 1, 0);
    }
  }

  lemma ServedRun(ks: KState, size: nat)
    requires Serves(ks, size)
    ensures BlocksFor(size) >= 1
    ensures StartBlock(ks.table, BlocksFor(size)) >= 0 <==> HasRun(ks.table, BlocksFor(size))
    ensures StartBlock(ks.table, BlocksFor(size)) >= 0 ==>
      FreeRun(ks.table, StartBlock(ks.table, BlocksFor(size)), BlocksFor(size))
  {
    hide StartBlock, BlocksFor, Refines, HasRun, Fits;
    ZallocFacts(ks, size);
    var n := BlocksFor(size);
    if HasRun(ks.table, n) { StartBlockFound(ks.table, n); }
    if StartBlock(ks.table, n) >= 0 { RunExists(ks.table, StartBlock(ks.table, n), n); }
  }

  lemma RunExists(t: seq<Entry>, s: nat, n: nat)
    requires FreeRun(t, s, n)
    ensures HasRun(t, n)
  {
  }

  /** The table after first fit has served n blocks, if it can. */
  ghost function TakeFirst(t: seq<Entry>, n: nat): seq<Entry> {
    if n >= 1 && HasRun(t, n) then
      StartBlockFound(t, n);
      MarkTaken(t, StartBlock(t, n), n)
    else t
  }

  /** process_malloc succeeds exactly when the run and a slot exist, and then uses up exactly those. */
  lemma MallocRoom(ks: KState, p: Proc, size: nat)
    requires Serves(ks, size) && p.chunk < FRAMES && ProcOk(ks, p)
    ensures var n, o := BlocksFor(size), ProcessMalloc(ks, p, size);
      && n >= 1
      && (o.ptr != 0 <==> HasRun(ks.table, n) && Unused(p.allocs) > 0)
      && (o.ptr != 0 ==>
        && o.ks.table == TakeFirst(ks.table, n)
        && HT.FreeFrom(o.ks.table, 0) + n == HT.FreeFrom(ks.table, 0)
        && Unused(o.proc.allocs) + 1 == Unused(p.allocs))
  {
    hide Refines, StartBlock, Fits, BlocksFor, ProcOk, HasRun, FreeSlot, Granted, Refused, MapSelf, ZeroFill, HT.FreeFrom, Unused;
    MallocKeepsProc(ks, p, size);
    ServedRun(ks, size);
    UnusedIsZero(p.allocs);
    SlotLeft(p.allocs);
    var s, n := StartBlock(ks.table, BlocksFor(size)), BlocksFor(size);
    if s >= 0 && FreeSlot(p.allocs) >= 0 {
      TakeCounts(ks.table, s, n, 0);
      assert ProcessMalloc(ks, p, size).ks.table == MarkTaken(ks.table, s, n);
      UnusedLess(p.allocs, FreeSlot(p.allocs), Alloc((HEAP_FRAME + s) * PAGE_SIZE, size));
    }
  }

  lemma SlotLeft(allocs: seq<Alloc>)
    ensures FreeSlot(allocs) >= 0 <==> exists k :: 0 <= k < |allocs| && allocs[k].ptr == 0
    ensures FreeSlot(allocs) >= 0 ==> FreeSlot(allocs) < |allocs| && allocs[FreeSlot(allocs)].ptr == 0
  {
  }

  // ---------------------------------------------------------------- the method, by what it uses up

  ghost predicate HasAlloc(p: Proc, a: Alloc) {
    a.ptr != 0 && a in p.allocs
  }

  lemma AllocStart(ks: KState, p: Proc, a: Alloc)
    requires ProcOk(ks, p) && HasAlloc(p, a)
    ensures OwnsRun(ks.live, a) && a.ptr / PAGE_SIZE in OwnedFrames(p.allocs)
  {
    hide BlocksFor, SpaceAt, ViewAt, WindowOk, Footprint, Open;
    var k :| 0 <= k < |p.allocs| && p.allocs[k] == a;
    assert OwnsRun(ks.live, p.allocs[k]);
    assert p.allocs[k].ptr / PAGE_SIZE in OwnedFrames(p.allocs);
  }

  /** A granted allocation is new: its pointer differs from every pointer held before. */
  lemma GrantedIsNew(ks: KState, p: Proc, size: nat, o: Outcome)
    requires Ok(ks) && p.chunk < FRAMES && ProcOk(ks, p) && o.proc.chunk < FRAMES && size < WORD_LIMIT
    requires Granted(ks, p, size, o)
    ensures o.ptr != 0 && HasAlloc(o.proc, Alloc(o.ptr, size))
    ensures forall a :: HasAlloc(p, a) ==> HasAlloc(o.proc, a) && a.ptr != o.ptr
  {
    hide Refines, Footprint, SpaceAt, ViewAt, WindowOk, BlocksFor, ProcOk, Claims;
    var i :| 0 <= i < |p.allocs| && p.allocs[i].ptr == 0 && o.proc == p.(allocs := p.allocs[i := Alloc(o.ptr, size)]);
    assert o.proc.allocs[i] == Alloc(o.ptr, size);
    forall a | HasAlloc(p, a) ensures HasAlloc(o.proc, a) && a.ptr != o.ptr {
      AllocStart(ks, p, a);
      var k :| 0 <= k < |p.allocs| && p.allocs[k] == a;
      assert o.proc.allocs[k] == a;
    }
  }

  /** This many blocks and slots were used up in between. */
  ghost predicate Used(ks: KState, p: Proc, ks': KState, p': Proc, blocks: nat, slots: nat) {
    && HT.FreeFrom(ks'.table, 0) + blocks == HT.FreeFrom(ks.table, 0)
    && Unused(p'.allocs) + slots == Unused(p.allocs)
  }

  /** process_malloc, told by what it uses up. */
  method Grant(k: Machine, p: Process, size: nat) returns (ptr: nat)
    requires k.Valid() && p.Valid() && ProcOk(k.State(), p.Model()) && Serves(k.State(), size)
    modifies k.heap`live, k.heap.entries, k.ram, p.allocations
    ensures k.Valid() && ProcOk(k.State(), p.Model()) && OnlyOwn(old(k.State()), old(p.Model()), k.State(), p.Model())
    ensures ptr == 0 ==> k.State().table == old(k.State()).table && k.State().live == old(k.State()).live && p.Model() == old(p.Model())
    ensures ptr != 0 ==>
      && HasAlloc(p.Model(), Alloc(ptr, size))
      && (forall a :: HasAlloc(old(p.Model()), a) ==> HasAlloc(p.Model(), a) && a.ptr != ptr)
      && (forall g: nat :: TakenFrame(old(k.State()), g) && g !in old(Footprint(k.Mem(), p.chunk)) ==>
            k.State().mem[g] == old(k.State()).mem[g])
    ensures ptr != 0 <==> HasRun(old(k.State()).table, BlocksFor(size)) && Unused(old(p.Model()).allocs) > 0
    ensures ptr != 0 ==>
      && Used(old(k.State()), old(p.Model()), k.State(), p.Model(), BlocksFor(size), 1)
      && k.State().table == TakeFirst(old(k.State()).table, BlocksFor(size))
  {
    hide Refines, ProcOk, OnlyOwn, ProcessMalloc, Granted, Refused, Footprint, HasAlloc, Serves, TakenFrame, HasRun, BlocksFor, Unused, TakeFirst;
    ghost var ks, proc := k.State(), p.Model();
    ServedOk(ks, size);
    MallocKeepsProc(ks, proc, size);
    MallocRoom(ks, proc, size);
    MallocIsOwn(ks, proc, size);
    ptr := p.Malloc(k, size);
    ghost var o := ProcessMalloc(ks, proc, size);
    assert k.State() == o.ks && p.Model() == o.proc && ptr == o.ptr;
    if ptr != 0 {
      GrantedIsNew(ks, proc, size, o);
    } else {
      RefusedHeap(ks, proc, o);
    }
  }

  lemma ServedOk(ks: KState, size: nat)
    requires Serves(ks, size)
    ensures Ok(ks) && size < WORD_LIMIT
  {
  }

  lemma RefusedHeap(ks: KState, p: Proc, o: Outcome)
    requires p.chunk < FRAMES && Refused(ks, p, o)
    ensures o.ks.table == ks.table && o.ks.live == ks.live && o.proc == p
  {
  }

  /** process_malloc of at most a page: it succeeds exactly when a block and a slot are left. */
  method GrantPage(k: Machine, p: Process, size: nat) returns (ptr: nat)
    requires k.Valid() && p.Valid() && ProcOk(k.State(), p.Model()) && 0 < size <= PAGE_SIZE
    modifies k.heap`live, k.heap.entries, k.ram, p.allocations
    ensures k.Valid() && ProcOk(k.State(), p.Model()) && OnlyOwn(old(k.State()), old(p.Model()), k.State(), p.Model())
    ensures ptr == 0 ==> k.State().table == old(k.State()).table && k.State().live == old(k.State()).live && p.Model() == old(p.Model())
    ensures ptr != 0 ==>
      && HasAlloc(p.Model(), Alloc(ptr, size))
      && (forall a :: HasAlloc(old(p.Model()), a) ==> HasAlloc(p.Model(), a) && a.ptr != ptr)
      && (forall g: nat :: TakenFrame(old(k.State()), g) && g !in old(Footprint(k.Mem(), p.chunk)) ==>
            k.State().mem[g] == old(k.State()).mem[g])
    ensures ptr != 0 <==> HT.FreeFrom(old(k.State()).table, 0) > 0 && Unused(old(p.Model()).allocs) > 0
    ensures ptr != 0 ==>
      && Used(old(k.State()), old(p.Model()), k.State(), p.Model(), 1, 1)
      && k.State().table == TakeFirst(old(k.State()).table, 1)
  {
    hide Refines, ProcOk, OnlyOwn, Footprint, HasAlloc, TakenFrame, HasRun, BlocksFor, Unused, TakeFirst, HT.FreeFrom, Fits;
    BlocksForPage(size);
    OneBlockFits(k.State().table);
    OneBlockRun(k.State().table);
    ptr := Grant(k, p, size);
  }
}
