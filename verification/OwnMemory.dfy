/**
  A process at work on its own memory: new allocations and stores into its own pages. Such work keeps
  every other process, with its page tables and the contents of its pages.
 */
module OwnMemory {
  import opened HeapTable
  import opened Memory
  import opened KernelState
  import opened AddressSpace
  import opened ProcessMemory
  import I = Isolation
  import P = Paging

  /** Between the two states the process took free runs at most, and wrote to its own memory and tables. */
  ghost predicate OnlyOwn(ks: KState, p: Proc, ks': KState, p': Proc) {
    && Ok(ks) && Ok(ks') && p.chunk < FRAMES && p'.chunk == p.chunk && LiveStays(ks, ks')
    && Footprint(ks'.mem, p.chunk) == Footprint(ks.mem, p.chunk) && SameOutside(ks.mem, ks'.mem, p.chunk)
    && (forall g: nat :: TakenFrame(ks, g) && !Mine(ks, p, g) ==> ks'.mem[g] == ks.mem[g])
    && (forall g: nat :: Owns(p'.allocs, g) ==> Owns(p.allocs, g) || !TakenFrame(ks, g))
  }

  ghost predicate LiveStays(ks: KState, ks': KState) {
    forall b :: b in ks.live ==> b in ks'.live && ks'.live[b] == ks.live[b]
  }

  ghost predicate Mine(ks: KState, p: Proc, g: nat)
    requires p.chunk < FRAMES
  {
    g in Footprint(ks.mem, p.chunk) || Owns(p.allocs, g)
  }

  lemma NothingDone(ks: KState, p: Proc)
    requires Ok(ks) && p.chunk < FRAMES
    ensures OnlyOwn(ks, p, ks, p)
  {
  }

  lemma StillTaken(ks: KState, ks': KState, g: nat)
    requires Ok(ks) && Ok(ks') && LiveStays(ks, ks') && TakenFrame(ks, g)
    ensures TakenFrame(ks', g)
  {
    hide Refines;
    var b := TakenIsCovered(ks, g);
    assert Covers(ks'.live, b, g - HEAP_FRAME);
    CoveredIsTaken(ks', b, g);
  }

  lemma CoveredIsTaken(ks: KState, b: nat, g: nat)
    requires Ok(ks) && g >= HEAP_FRAME && Covers(ks.live, b, g - HEAP_FRAME)
    ensures TakenFrame(ks, g)
  {
    CellBits(g - HEAP_FRAME - b, ks.live[b]);
  }

  lemma OnlyOwnAgain(ks: KState, p: Proc, ks1: KState, p1: Proc, ks2: KState, p2: Proc)
    requires OnlyOwn(ks, p, ks1, p1) && OnlyOwn(ks1, p1, ks2, p2)
    ensures OnlyOwn(ks, p, ks2, p2)
  {
    hide Refines, TakenFrame, Footprint, Owns, ViewAt, Open;
    forall g: nat | TakenFrame(ks, g) ensures TakenFrame(ks1, g) { StillTaken(ks, ks1, g); }
  }

  /** process_malloc */
  lemma MallocIsOwn(ks: KState, p: Proc, size: nat)
    requires Serves(ks, size) && p.chunk < FRAMES && ProcOk(ks, p)
    ensures var o := ProcessMalloc(ks, p, size); OnlyOwn(ks, p, o.ks, o.proc)
  {
    hide Refines, ProcessMalloc, ProcOk, Footprint, Fits, BlocksFor, ViewAt, SameOutside, Owns, OwnedFrames;
    MallocKeepsProc(ks, p, size);
    MallocKeepsOutside(ks, p, size);
    var o := ProcessMalloc(ks, p, size);
    if o.ptr != 0 { GrantIsOwn(ks, p, size, o); }
  }

  lemma GrantIsOwn(ks: KState, p: Proc, size: nat, o: Outcome)
    requires Ok(ks) && p.chunk < FRAMES && o.proc.chunk == p.chunk && size < WORD_LIMIT && Ok(o.ks)
    requires ProcOk(ks, p) && ProcOk(o.ks, o.proc) && Granted(ks, p, size, o) && o.ptr != 0
    ensures LiveStays(ks, o.ks) && Footprint(o.ks.mem, p.chunk) == Footprint(ks.mem, p.chunk)
    ensures forall g: nat :: Owns(o.proc.allocs, g) ==> Owns(p.allocs, g) || !TakenFrame(ks, g)
  {
    hide Refines, Footprint, OwnedFrames, ProcOk, Owns, InRun, TakenFrame, BlocksFor;
    var a := Alloc(o.ptr, size);
    var i :| 0 <= i < |p.allocs| && p.allocs[i].ptr == 0 && o.proc == p.(allocs := p.allocs[i := a]);
    OwnedFramesUpdate(p.allocs, i, a);
    TablesApart(ks, p);
    TablesApart(o.ks, o.proc);
    forall g: nat | Owns(o.proc.allocs, g) && TakenFrame(ks, g) ensures Owns(p.allocs, g) {
      OwnsUpdate(p.allocs, i, a, g);
      if InRun(a, g) { NewRunWasFree(ks, o.ks, a, g); }
    }
  }

  lemma TablesApart(ks: KState, p: Proc)
    requires ProcOk(ks, p)
    ensures p.chunk < FRAMES && Footprint(ks.mem, p.chunk) !! OwnedFrames(p.allocs)
    ensures forall f :: f in Footprint(ks.mem, p.chunk) ==> f - HEAP_FRAME in ks.live
  {
    hide Footprint, OwnedFrames, SlotsOk, WindowOk, ViewAt, Open;
  }

  lemma NewRunWasFree(ks: KState, ks': KState, a: Alloc, g: nat)
    requires Ok(ks) && Ok(ks') && LiveStays(ks, ks') && InRun(a, g) && a.ptr / PAGE_SIZE >= HEAP_FRAME
    requires a.ptr / PAGE_SIZE - HEAP_FRAME !in ks.live && a.ptr / PAGE_SIZE - HEAP_FRAME in ks'.live
    requires ks'.live[a.ptr / PAGE_SIZE - HEAP_FRAME] == BlocksFor(a.size)
    ensures !TakenFrame(ks, g)
  {
    hide Refines, BlocksFor;
    if TakenFrame(ks, g) {
      var b := TakenIsCovered(ks, g);
      assert Covers(ks'.live, b, g - HEAP_FRAME) && Covers(ks'.live, a.ptr / PAGE_SIZE - HEAP_FRAME, g - HEAP_FRAME);
      RunsDisjoint(ks'.table, ks'.live, b, a.ptr / PAGE_SIZE - HEAP_FRAME, g - HEAP_FRAME);
    }
  }

  /** A store into a page of the process. */
  lemma StoreIsOwn(ks: KState, p: Proc, g: nat, page: Page)
    requires Ok(ks) && p.chunk < FRAMES && ProcOk(ks, p) && g < FRAMES && g !in Footprint(ks.mem, p.chunk) && Owns(p.allocs, g)
    ensures OnlyOwn(ks, p, ks.(mem := ks.mem[g := page]), p)
  {
    hide Refines, Footprint, OwnedFrames, SpaceAt, ViewAt, WindowOk, SlotsOk, Owns, Open;
    SpaceFrame(ks.mem, ks.mem[g := page], p.chunk);
  }

  // ---------------------------------------------------------------- the others

  /** The first frame of a run that a process claims belongs to no other process. */
  lemma ClaimIsNotMine(sys: System, i: nat, j: nat, f: nat)
    requires Inv(sys) && i < |sys.procs| && j < |sys.procs| && i != j
    requires sys.procs[i].chunk < FRAMES && sys.procs[j].chunk < FRAMES && f in Claims(sys.ks.mem, sys.procs[j])
    ensures Ok(sys.ks) && f < FRAMES && TakenFrame(sys.ks, f) && f - HEAP_FRAME in sys.ks.live && !Mine(sys.ks, sys.procs[i], f)
  {
    hide Inv, Refines, Footprint, OwnedFrames, ProcOk, InRun, TakenFrame;
    var ks, p := sys.ks, sys.procs[i];
    I.InvParts(sys, i);
    I.InvParts(sys, j);
    I.ClaimsDisjoint(sys, i, j);
    ClaimsAreLive(ks, sys.procs[j], f);
    LiveIsTaken(ks, f - HEAP_FRAME);
    if Owns(p.allocs, f) {
      StartIsOwned(ks, p, f);
    }
  }

  /** The start of a live run that lies in an allocation is the start of that. */
  lemma StartIsOwned(ks: KState, p: Proc, f: nat)
    requires Ok(ks) && AllOwn(ks.live, p.allocs) && Owns(p.allocs, f)
    requires HEAP_FRAME <= f && f - HEAP_FRAME in ks.live
    ensures f in OwnedFrames(p.allocs)
  {
    hide Refines, BlocksFor;
    var k :| 0 <= k < |p.allocs| && InRun(p.allocs[k], f);
    var a := p.allocs[k];
    assert OwnsRun(ks.live, a);
    assert Covers(ks.live, a.ptr / PAGE_SIZE - HEAP_FRAME, f - HEAP_FRAME);
    LiveCoversItself(ks, f - HEAP_FRAME);
    RunsDisjoint(ks.table, ks.live, a.ptr / PAGE_SIZE - HEAP_FRAME, f - HEAP_FRAME, f - HEAP_FRAME);
  }

  /** The first frame of an allocation is a page of its process. */
  lemma OwnedIsMine(ks: KState, p: Proc, f: nat)
    requires Ok(ks) && AllOwn(ks.live, p.allocs) && f in OwnedFrames(p.allocs)
    ensures Owns(p.allocs, f)
  {
    hide Refines, BlocksFor;
    var k :| 0 <= k < |p.allocs| && p.allocs[k].ptr != 0 && p.allocs[k].ptr / PAGE_SIZE == f;
    assert OwnsRun(ks.live, p.allocs[k]);
    I.RunHasFirstPage(ks, p.allocs[k]);
  }

  /** Work of one process on its own memory keeps the system, and the pages and mappings of the others. */
  lemma OwnWorkKeepsOthers(sys: System, i: nat, ks': KState, p': Proc)
    requires Inv(sys) && i < |sys.procs| && OnlyOwn(sys.ks, sys.procs[i], ks', p') && ProcOk(ks', p')
    ensures Inv(System(ks', sys.procs[i := p'])) && I.AllKeptOutside(sys, System(ks', sys.procs[i := p']))
  {
    hide Inv, Refines, Footprint, OwnedFrames, ProcOk, TakenFrame, ViewAt, Owns, SameOutside, I.KeptOutside;
    var ks, p := sys.ks, sys.procs[i];
    var sys' := System(ks', sys.procs[i := p']);
    OwnClaims(sys, i, ks', p');
    forall j | 0 <= j < |sys.procs| && j != i
      ensures sys.procs[j].chunk < FRAMES && ProcOk(ks', sys.procs[j])
        && Claims(ks'.mem, sys.procs[j]) == Claims(ks.mem, sys.procs[j])
        && Claims(ks'.mem, p') !! Claims(ks.mem, sys.procs[j]) && I.KeptOutside(sys, sys', j)
    {
      I.InvParts(sys, j);
      var q := sys.procs[j];
      forall f | f in Claims(ks.mem, q)
        ensures f - HEAP_FRAME in ks.live && f - HEAP_FRAME in ks'.live && ks'.live[f - HEAP_FRAME] == ks.live[f - HEAP_FRAME]
        ensures f < FRAMES && (f in Footprint(ks.mem, q.chunk) ==> ks'.mem[f] == ks.mem[f]) && f !in Claims(ks'.mem, p')
      {
        ClaimIsNotMine(sys, i, j, f);
        if f in OwnedFrames(p'.allocs) {
          AllOwnOf(ks', p');
          OwnedIsMine(ks', p', f);
        }
      }
      assert forall f :: f in Footprint(ks.mem, q.chunk) ==> f in Claims(ks.mem, q);
      OtherProc(ks, ks', q);
      I.BystanderKept(sys, sys', j);
    }
    I.ReplaceProc(sys, i, ks', p');
  }

  /** What the working process claims anew was free. */
  lemma OwnClaims(sys: System, i: nat, ks': KState, p': Proc)
    requires Inv(sys) && i < |sys.procs| && OnlyOwn(sys.ks, sys.procs[i], ks', p') && ProcOk(ks', p')
    ensures I.KeptOutside(sys, System(ks', sys.procs[i := p']), i)
  {
    hide Inv, Refines, Footprint, OwnedFrames, ProcOk, TakenFrame, ViewAt, Owns, SameOutside;
    var ks, p := sys.ks, sys.procs[i];
    I.InvParts(sys, i);
    AllOwnOf(ks', p');
    forall f | f in Claims(ks'.mem, p') ensures f in Claims(ks.mem, p) || f - HEAP_FRAME !in ks.live {
      if f in OwnedFrames(p'.allocs) && f - HEAP_FRAME in ks.live {
        OwnedIsMine(ks', p', f);
        ClaimsAreLive(ks', p', f);
        LiveIsTaken(ks, f - HEAP_FRAME);
        StartIsOwned(ks, p, f);
      }
    }
  }

  lemma AllOwnOf(ks: KState, p: Proc)
    requires ProcOk(ks, p)
    ensures AllOwn(ks.live, p.allocs)
  {
    hide OwnsRun, WindowOk, P.Space;
  }

  /** What another process holds in its pages is still there. */
  lemma OwnWorkKeepsPages(sys: System, i: nat, ks': KState, p': Proc, j: nat, k: nat, g: nat)
    requires Inv(sys) && i < |sys.procs| && OnlyOwn(sys.ks, sys.procs[i], ks', p')
    requires j != i && I.Holds(sys, j, k, g)
    ensures g < FRAMES && ks'.mem[g] == sys.ks.mem[g]
  {
    hide Inv, Refines, Footprint, OwnedFrames, ProcOk, ViewAt, SameOutside, BlocksFor, Claims, OwnsRun;
    var ks, p := sys.ks, sys.procs[i];
    I.HoldsIsLive(sys, j, k, g);
    var b := sys.procs[j].allocs[k].ptr / PAGE_SIZE - HEAP_FRAME;
    I.InvParts(sys, i);
    I.InvParts(sys, j);
    CoveredIsTaken(ks, b, g);
    if g in Footprint(ks.mem, p.chunk) {
      TablesApart(ks, p);
      LiveCoversItself(ks, g - HEAP_FRAME);
      RunsDisjoint(ks.table, ks.live, b, g - HEAP_FRAME, g - HEAP_FRAME);
      ClaimIsNotMine(sys, i, j, g);
    }
    if Owns(p.allocs, g) {
      var l :| 0 <= l < |p.allocs| && InRun(p.allocs[l], g);
      assert I.Holds(sys, i, l, g);
      I.OneHolder(sys, i, l, j, k, g);
    }
  }
}
