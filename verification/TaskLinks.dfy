/**
  The links of the task list as words in memory. task_new and task_list_remove store through links that
  may name a block which has another use by now. Which of these stores keep ownership is decided exactly.
 */
module TaskLinks {
  import opened HeapTable
  import opened Memory
  import opened KernelState
  import opened AddressSpace
  import opened ProcessMemory
  import opened ProgramImage
  import opened Ownership
  import I = Isolation
  import P = Paging

  /** Word numbers of next and prev in struct task. */
  const NEXT := 14
  const PREV := 15

  /** A link is null or the address of a heap block. */
  predicate Link(w: Word) {
    w == 0 || (w % PAGE_SIZE == 0 && HEAP_FRAME <= w / PAGE_SIZE < HEAP_FRAME + HEAP_BLOCKS)
  }

  /** The same system with other memory. */
  function WithMem(o: Owned, m: Ram): Owned {
    o.(sys := o.sys.(ks := o.sys.ks.(mem := m)))
  }

  /** task->next = w for a task structure in frame f. */
  function StoreNext(m: Ram, f: nat, w: Word): Ram
    requires f < FRAMES
  {
    m[f := SetWord(m[f], NEXT, w)]
  }

  lemma WordOfStore(p: Page, w: Word, i: nat)
    requires i < ENTRIES
    ensures WordAt(SetWord(p, 14, w), i) == if i == 14 then w else WordAt(p, i)
  {
  }

  // ---------------------------------------------------------------- what a store must meet

  /** A frame that is a run of its own and nobody's. */
  ghost predicate LooseFrame(o: Owned, x: nat) {
    && HEAP_FRAME <= x && x - HEAP_FRAME in o.sys.ks.live && o.sys.ks.live[x - HEAP_FRAME] == 1
    && I.Unclaimed(o.sys, x) && Unheld(o, x - HEAP_FRAME)
  }

  /** What the invariant allows in the entry of page p. */
  ghost predicate EntryAllowed(allocs: seq<Alloc>, p: nat, e: Word) {
    HEAP_FRAME <= p < HEAP_FRAME + HEAP_BLOCKS ==>
      if Owns(allocs, p) then e == p * PAGE_SIZE + P.USER_WRITE else e == p * PAGE_SIZE + P.USER_READ || e == p * PAGE_SIZE
  }

  /** The store of w at word NEXT of frame f, as far as process j is concerned. */
  ghost predicate SpaceTakes(o: Owned, j: nat, f: nat, w: Word)
    requires j < |o.sys.procs|
  {
    var m, p := o.sys.ks.mem, o.sys.procs[j];
    p.chunk < FRAMES && var d := Dir(m, p.chunk);
    && f != d
    && (forall t: nat :: t < ENTRIES && P.Table(m, d, t) == f ==> EntryAllowed(p.allocs, t * ENTRIES + NEXT, w))
  }

  /**
    The store harms nobody: frame f is no page directory, and where it is a page table, the entry that is
    written is outside the window or allowed there.
   */
  ghost predicate StoreFits(o: Owned, f: nat, w: Word) {
    forall j :: 0 <= j < |o.sys.procs| ==> SpaceTakes(o, j, f, w)
  }

  // ---------------------------------------------------------------- stores outside the address spaces

  ghost predicate Tabled(sys: System, f: nat) {
    exists j :: 0 <= j < |sys.procs| && sys.procs[j].chunk < FRAMES && f in Footprint(sys.ks.mem, sys.procs[j].chunk)
  }

  /** An address space with its directory and its view. */
  ghost predicate SameSpace(m: Ram, r: Ram, c: nat)
    requires c < FRAMES
  {
    Dir(r, c) == Dir(m, c) && ViewAt(r, c) == ViewAt(m, c)
  }

  lemma SameDir(m: Ram, r: Ram, c: nat)
    requires c < FRAMES && forall g: nat :: g in Footprint(m, c) ==> g < FRAMES && r[g] == m[g]
    ensures Dir(r, c) == Dir(m, c)
  {
    hide WordAt, P.Tables;
    assert c in Footprint(m, c);
  }

  /** Any content in any frame that is no page table, directory or chunk. */
  lemma StoreElsewhere(o: Owned, f: nat, page: Page)
    requires OInv(o) && f < FRAMES && !Tabled(o.sys, f)
    ensures OInv(WithMem(o, o.sys.ks.mem[f := page]))
    ensures I.AllKeptOutside(o.sys, WithMem(o, o.sys.ks.mem[f := page]).sys)
    ensures forall j :: 0 <= j < |o.sys.procs| ==>
      && o.sys.procs[j].chunk < FRAMES && SameSpace(o.sys.ks.mem, o.sys.ks.mem[f := page], o.sys.procs[j].chunk)
      && Claims(o.sys.ks.mem[f := page], o.sys.procs[j]) == Claims(o.sys.ks.mem, o.sys.procs[j])
  {
    hide OInv, Inv, Refines, ProcOk, Footprint, Claims, ViewAt, Dir, I.KeptOutside;
    InvOf(o);
    SystemOk(o.sys);
    var sys, ks' := o.sys, o.sys.ks.(mem := o.sys.ks.mem[f := page]);
    var sys' := System(ks', sys.procs);
    forall j | 0 <= j < |sys.procs|
      ensures sys.procs[j].chunk < FRAMES && ProcOk(ks', sys.procs[j]) && Claims(ks'.mem, sys.procs[j]) == Claims(sys.ks.mem, sys.procs[j])
      ensures I.KeptOutside(sys, sys', j) && SameSpace(sys.ks.mem, ks'.mem, sys.procs[j].chunk)
    {
      I.InvParts(sys, j);
      NotTabled(sys, j, f);
      UntouchedProc(sys.ks, ks', sys.procs[j]);
      I.BystanderKept(sys, sys', j);
      SameDir(sys.ks.mem, ks'.mem, sys.procs[j].chunk);
    }
    SameClaimsInv(sys, ks');
    forall i, b | 0 <= i < |o.held| && b in o.held[i] ensures b in sys.ks.live { HeldIsLive(o, i, b); }
    Transport(o, sys');
  }

  lemma NotTabled(sys: System, j: nat, f: nat)
    requires !Tabled(sys, f) && j < |sys.procs| && sys.procs[j].chunk < FRAMES
    ensures f !in Footprint(sys.ks.mem, sys.procs[j].chunk)
    ensures forall g :: g in Footprint(sys.ks.mem, sys.procs[j].chunk) ==> g < FRAMES
  {
  }

  /** A process whose frames are as they were. */
  lemma UntouchedProc(ks: KState, ks': KState, q: Proc)
    requires q.chunk < FRAMES && ProcOk(ks, q) && ks'.live == ks.live
    requires forall g: nat :: g in Footprint(ks.mem, q.chunk) ==> ks'.mem[g] == ks.mem[g]
    ensures ProcOk(ks', q) && Claims(ks'.mem, q) == Claims(ks.mem, q) && ViewAt(ks'.mem, q.chunk) == ViewAt(ks.mem, q.chunk)
  {
    hide Footprint, ViewAt, Claims, ProcOk;
    forall f | f in Claims(ks.mem, q) ensures f - HEAP_FRAME in ks.live { ClaimsAreLive(ks, q, f); }
    OtherProc(ks, ks', q);
  }

  lemma SameClaimsInv(sys: System, ks': KState)
    requires Inv(sys) && Ok(ks') && forall j :: 0 <= j < |sys.procs| ==>
      && sys.procs[j].chunk < FRAMES && ProcOk(ks', sys.procs[j]) && Claims(ks'.mem, sys.procs[j]) == Claims(sys.ks.mem, sys.procs[j])
    ensures Inv(System(ks', sys.procs))
  {
    hide Refines, ProcOk, Claims;
    forall i, j | 0 <= i < j < |sys.procs| ensures Claims(ks'.mem, sys.procs[i]) !! Claims(ks'.mem, sys.procs[j]) {
      I.ClaimsDisjoint(sys, i, j);
    }
  }

  // ---------------------------------------------------------------- a store into a page table

  /** Entry p of the address space becomes w. */
  lemma EntryStore(o: Owned, j: nat, t: nat, w: Word)
    requires OInv(o) && j < |o.sys.procs| && t < ENTRIES && w % PAGE_SIZE == 0 && o.sys.procs[j].chunk < FRAMES
    ensures var m, c := o.sys.ks.mem, o.sys.procs[j].chunk;
      OInv(WithMem(o, StoreNext(m, P.Table(m, Dir(m, c), t), w))) <==> EntryAllowed(o.sys.procs[j].allocs, t * ENTRIES + NEXT, w)
  {
    hide OInv, Inv, ProcOk, Refines, HeldOk, WritesOk, SpaceAt, ViewAt, WindowOk, ViewOk, EntryAllowed, Footprint;
    var m, p := o.sys.ks.mem, o.sys.procs[j];
    var c, view := p.chunk, ViewAt(m, p.chunk);
    Parts(o, j);
    InvOf(o);
    ProcSpace(o.sys.ks, p);
    var q := t * ENTRIES + NEXT;
    OneEntryRemapped(m, c, t, w);
    RemapKeepsOInv(o, j, StoreNext(m, P.Table(m, Dir(m, c), t), w), view[q := w]);
    OwnViewOk(o.sys, j, o.held[j]);
    OwnWindow(o.sys.ks, p);
    OneEntryOk(o.sys.ks.live, o.held[j], p.allocs, view, q, w);
  }

  lemma OwnWindow(ks: KState, p: Proc)
    requires ProcOk(ks, p)
    ensures p.chunk < FRAMES && WindowOk(ViewAt(ks.mem, p.chunk), p.allocs)
  {
    hide Footprint, ViewAt, SlotsOk, WindowOk, Open;
  }

  lemma OneEntryRemapped(m: Ram, c: nat, t: nat, w: Word)
    requires SpaceAt(m, c) && t < ENTRIES
    ensures c < FRAMES && Remapped(m, StoreNext(m, P.Table(m, Dir(m, c), t), w), c, ViewAt(m, c)[t * ENTRIES + NEXT := w])
  {
    hide P.ViewOf, P.Space, WordAt, SetWord;
    var d, q := Dir(m, c), t * ENTRIES + NEXT;
    assert q / ENTRIES == t && q % ENTRIES == NEXT;
    P.SetPteView(m, d, q, w);
    assert P.Table(m, d, t) in P.Tables(m, d);
  }

  lemma OneEntryOk(live: map<nat, nat>, blocks: seq<nat>, allocs: seq<Alloc>, view: P.View, q: nat, w: Word)
    requires q < FRAMES && w % PAGE_SIZE == 0 && WindowOk(view, allocs) && ViewOk(live, blocks, view)
    ensures WindowOk(view[q := w], allocs) && ViewOk(live, blocks, view[q := w]) <==> EntryAllowed(allocs, q, w)
  {
    hide InHeld, P.Frame, Owns;
    var r := view[q := w];
    assert r[q] == w && !P.IsWriteable(w);
    assert forall g: nat :: g < FRAMES && g != q ==> r[g] == view[g];
  }

  /** The chunk structure holds nothing at NEXT that the address space reads. */
  lemma ChunkStore(o: Owned, j: nat, w: Word)
    requires OInv(o) && j < |o.sys.procs| && o.sys.procs[j].chunk < FRAMES
    ensures OInv(WithMem(o, StoreNext(o.sys.ks.mem, o.sys.procs[j].chunk, w)))
  {
    hide OInv, Inv, ProcOk, Refines, HeldOk, WritesOk, SpaceAt, ViewAt, WindowOk, ViewOk, Footprint;
    var m, p := o.sys.ks.mem, o.sys.procs[j];
    Parts(o, j);
    InvOf(o);
    ProcSpace(o.sys.ks, p);
    ChunkRemapped(m, p.chunk, w);
    RemapKeepsOInv(o, j, StoreNext(m, p.chunk, w), ViewAt(m, p.chunk));
    OwnViewOk(o.sys, j, o.held[j]);
    OwnWindow(o.sys.ks, p);
  }

  lemma ChunkRemapped(m: Ram, c: nat, w: Word)
    requires SpaceAt(m, c)
    ensures c < FRAMES && Remapped(m, StoreNext(m, c, w), c, ViewAt(m, c))
  {
    hide P.ViewOf, P.Space, WordAt, SetWord, P.Tables;
    P.ViewFrame(m, StoreNext(m, c, w), Dir(m, c));
  }

  // ---------------------------------------------------------------- a store into a directory

  /** A link has no flag bits: the directory word that it replaces is no longer present. */
  lemma DirectoryStore(o: Owned, j: nat, w: Word)
    requires OInv(o) && j < |o.sys.procs| && w % PAGE_SIZE == 0 && o.sys.procs[j].chunk < FRAMES
    ensures !OInv(WithMem(o, StoreNext(o.sys.ks.mem, Dir(o.sys.ks.mem, o.sys.procs[j].chunk), w)))
  {
    hide OInv, Inv, ProcOk, Refines, HeldOk, WritesOk, SpaceAt;
    var m, p := o.sys.ks.mem, o.sys.procs[j];
    var r := WithMem(o, StoreNext(m, Dir(m, p.chunk), w));
    Parts(o, j);
    ProcSpace(o.sys.ks, p);
    if OInv(r) {
      Parts(r, j);
      OpenProc(r.sys.ks, p);
      ClosedDirectory(m, p.chunk, w);
    }
  }

  lemma OpenProc(ks: KState, p: Proc)
    requires ProcOk(ks, p)
    ensures p.chunk < FRAMES && Open(ks.mem, p.chunk)
  {
    hide Footprint, ViewAt, SlotsOk, WindowOk, Open;
  }

  lemma ClosedDirectory(m: Ram, c: nat, w: Word)
    requires SpaceAt(m, c) && w % PAGE_SIZE == 0
    ensures c < FRAMES && !Open(StoreNext(m, Dir(m, c), w), c)
  {
    hide WordAt, SetWord, P.Space, P.Tables;
    var d, r := Dir(m, c), StoreNext(m, Dir(m, c), w);
    assert Dir(r, c) == d && WordAt(r[d], NEXT) == w;
  }

  /** Each frame of an address space is chunk, directory or some table. */
  lemma FrameOfSpace(m: Ram, c: nat, g: nat) returns (i: nat)
    requires c < FRAMES && g in Footprint(m, c)
    ensures i < ENTRIES && (g == c || g == Dir(m, c) || g == P.Table(m, Dir(m, c), i))
  {
    hide WordAt, Dir, P.Table;
    i := 0;
    if g != c && g != Dir(m, c) { i :| i < ENTRIES && P.Table(m, Dir(m, c), i) == g; }
  }

  lemma FrameIn(m: Ram, c: nat, i: nat)
    requires c < FRAMES && i < ENTRIES
    ensures {c, Dir(m, c), P.Table(m, Dir(m, c), i)} <= Footprint(m, c)
  {
    hide WordAt, Dir, P.Table;
  }

  lemma InClaims(m: Ram, p: Proc)
    requires p.chunk < FRAMES
    ensures Dir(m, p.chunk) in Claims(m, p) && Footprint(m, p.chunk) <= Claims(m, p)
    ensures forall g :: g in Footprint(m, p.chunk) ==> g < FRAMES
  {
  }

  lemma NotMine(o: Owned, j: nat, x: nat)
    requires LooseFrame(o, x) && j < |o.sys.procs|
    ensures o.sys.procs[j].chunk < FRAMES && x !in Claims(o.sys.ks.mem, o.sys.procs[j])
    ensures x !in Footprint(o.sys.ks.mem, o.sys.procs[j].chunk) && x !in OwnedFrames(o.sys.procs[j].allocs)
  {
    hide Footprint, OwnedFrames, Open;
  }

  // ---------------------------------------------------------------- every store

  /** A store through a link keeps ownership if and only if it fits. */
  lemma StoreKeepsOwnershipExactly(o: Owned, f: nat, w: Word)
    requires OInv(o) && f < FRAMES && w % PAGE_SIZE == 0
    ensures OInv(WithMem(o, StoreNext(o.sys.ks.mem, f, w))) <==> StoreFits(o, f, w)
  {
    hide OInv, Inv, Claims, EntryAllowed, Footprint, P.Table, Dir, SetWord, Open;
    InvOf(o);
    if Tabled(o.sys, f) {
      var j :| 0 <= j < |o.sys.procs| && o.sys.procs[j].chunk < FRAMES && f in Footprint(o.sys.ks.mem, o.sys.procs[j].chunk);
      StoreInSpace(o, j, f, w);
      OnlyOneTakes(o, j, f, w);
    } else {
      StoreElsewhere(o, f, SetWord(o.sys.ks.mem[f], NEXT, w));
      NobodyTakes(o, f, w);
    }
  }

  lemma StoreInSpace(o: Owned, j: nat, f: nat, w: Word)
    requires OInv(o) && j < |o.sys.procs| && o.sys.procs[j].chunk < FRAMES && w % PAGE_SIZE == 0
    requires f in Footprint(o.sys.ks.mem, o.sys.procs[j].chunk) && f < FRAMES
    ensures OInv(WithMem(o, StoreNext(o.sys.ks.mem, f, w))) <==> SpaceTakes(o, j, f, w)
  {
    hide OInv, Inv, ProcOk, EntryAllowed, WordAt, SetWord, StoreNext;
    var m, p := o.sys.ks.mem, o.sys.procs[j];
    var d := Dir(m, p.chunk);
    Parts(o, j);
    ProcSpace(o.sys.ks, p);
    if f == d {
      DirectoryStore(o, j, w);
    } else if f == p.chunk {
      ChunkStore(o, j, w);
    } else {
      var t: nat :| t < ENTRIES && P.Table(m, d, t) == f;
      EntryStore(o, j, t, w);
      assert forall i: nat :: i < ENTRIES && i != t ==> P.Table(m, d, i) != f;
    }
  }

  /** A frame outside the address space is none of its tables. */
  lemma TakesElsewhere(o: Owned, j: nat, f: nat, w: Word)
    requires j < |o.sys.procs| && o.sys.procs[j].chunk < FRAMES && f !in Footprint(o.sys.ks.mem, o.sys.procs[j].chunk)
    ensures SpaceTakes(o, j, f, w)
  {
    hide EntryAllowed, P.Table, Dir;
    var m, p := o.sys.ks.mem, o.sys.procs[j];
    assert forall t: nat :: t < ENTRIES ==> P.Table(m, Dir(m, p.chunk), t) in P.Tables(m, Dir(m, p.chunk));
  }

  lemma OnlyOneTakes(o: Owned, j: nat, f: nat, w: Word)
    requires OInv(o) && j < |o.sys.procs| && o.sys.procs[j].chunk < FRAMES && f in Footprint(o.sys.ks.mem, o.sys.procs[j].chunk)
    ensures StoreFits(o, f, w) <==> SpaceTakes(o, j, f, w)
  {
    hide OInv, Inv, ProcOk, SpaceTakes, Footprint, OwnedFrames, WritesOk, HeldOk;
    forall l | 0 <= l < |o.sys.procs| && l != j ensures SpaceTakes(o, l, f, w) {
      Parts(o, l);
      I.ClaimsDisjoint(o.sys, j, l);
      assert f in Claims(o.sys.ks.mem, o.sys.procs[j]);
      TakesElsewhere(o, l, f, w);
    }
  }

  lemma NobodyTakes(o: Owned, f: nat, w: Word)
    requires OInv(o) && !Tabled(o.sys, f)
    ensures StoreFits(o, f, w)
  {
    hide OInv, Inv, ProcOk, SpaceTakes, Footprint, WritesOk, HeldOk, Tabled;
    forall l | 0 <= l < |o.sys.procs| ensures SpaceTakes(o, l, f, w) {
      Parts(o, l);
      NotTabled(o.sys, l, f);
      TakesElsewhere(o, l, f, w);
    }
  }

  // ---------------------------------------------------------------- what a fitting store leaves alone

  /** Each process claims what it claimed. */
  lemma StoreClaims(o: Owned, l: nat, f: nat, w: Word)
    requires OInv(o) && l < |o.sys.procs| && f < FRAMES && w % PAGE_SIZE == 0 && StoreFits(o, f, w)
    ensures o.sys.procs[l].chunk < FRAMES
    ensures Claims(StoreNext(o.sys.ks.mem, f, w), o.sys.procs[l]) == Claims(o.sys.ks.mem, o.sys.procs[l])
  {
    hide OInv, Inv, ProcOk, SpaceAt, P.Table, WordAt, SetWord, OwnedFrames, StoreNext, Footprint, ViewAt, Dir, EntryAllowed;
    var m, p := o.sys.ks.mem, o.sys.procs[l];
    var c, r := p.chunk, StoreNext(m, f, w);
    Parts(o, l);
    ProcSpace(o.sys.ks, p);
    OnlyFrame(m, f, w);
    FootprintInRam(m, c);
    assert SpaceTakes(o, l, f, w);
    if f !in Footprint(m, c) {
      SpaceFrame(m, r, c);
    } else if f == c {
      ChunkRemapped(m, c, w);
    } else {
      var t := FrameOfSpace(m, c, f);
      OneEntryRemapped(m, c, t, w);
    }
  }

  lemma OnlyFrame(m: Ram, f: nat, w: Word)
    requires f < FRAMES
    ensures forall g: nat :: g < FRAMES && g != f ==> StoreNext(m, f, w)[g] == m[g]
  {
    hide SetWord;
  }

  /** A task structure stays nobody's. */
  lemma StoreKeepsLoose(o: Owned, f: nat, w: Word, x: nat)
    requires OInv(o) && f < FRAMES && w % PAGE_SIZE == 0 && StoreFits(o, f, w) && LooseFrame(o, x)
    ensures LooseFrame(WithMem(o, StoreNext(o.sys.ks.mem, f, w)), x)
  {
    hide OInv, Inv, Claims, StoreNext, StoreFits;
    forall l | 0 <= l < |o.sys.procs|
      ensures o.sys.procs[l].chunk < FRAMES && x !in Claims(StoreNext(o.sys.ks.mem, f, w), o.sys.procs[l])
    {
      StoreClaims(o, l, f, w);
      NotMine(o, l, x);
    }
  }

  /** A store into a frame that no process claims fits. */
  lemma UnclaimedFits(o: Owned, f: nat, w: Word)
    requires OInv(o) && I.Unclaimed(o.sys, f)
    ensures StoreFits(o, f, w) && !Tabled(o.sys, f)
  {
    hide OInv, Footprint, OwnedFrames, StoreFits, Open;
    NobodyTakes(o, f, w);
  }
}
