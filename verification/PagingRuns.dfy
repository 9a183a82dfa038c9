/**
  Whole runs of paging calls on one address space: through the page tables they act on the flat
  view of 2^20 pages, and they never change which frames the address space is made of.
 */
module PagingRuns {
  import opened Memory
  import opened KernelState
  import opened Mmu
  import opened AddressSpace
  import HT = HeapTheory
  import P = Paging

  /** A call of paging.c on this address space, or a store of a page elsewhere in memory. */
  datatype Call =
    | Set(virt: Word, val: Word)
    | Map(virt: Word, phys: Word, flags: nat)
    | MapRange(virt: Word, phys: Word, count: nat, flags: nat)
    | MapTo(virt: Word, phys: Word, physEnd: Word, flags: nat)
    | Store(frame: nat, page: Page)

  /** No address wraps, flags are flags, and other stores stay out of the address space. */
  ghost predicate Legal(own: set<nat>, op: Call) {
    match op
    case Set(virt, val) => true
    case Map(virt, phys, flags) => flags < PAGE_SIZE
    case MapRange(virt, phys, count, flags) =>
      flags < PAGE_SIZE && virt + count * PAGE_SIZE <= 0x1_0000_0000 && phys + count * PAGE_SIZE <= 0x1_0000_0000
    case MapTo(virt, phys, physEnd, flags) =>
      flags < PAGE_SIZE && (MapArgumentsOk(virt, phys, physEnd) ==> virt + (physEnd - phys) <= 0x1_0000_0000)
    case Store(frame, page) => frame < FRAMES && frame !in own
  }

  /** What the methods of Machine do to memory, refused arguments included. */
  ghost function Apply(m: Ram, d: nat, op: Call, own: set<nat>): Ram
    requires d < FRAMES && Legal(own, op)
  {
    match op
    case Set(virt, val) => if P.IsAligned(virt) then P.SetPte(m, d, virt / PAGE_SIZE, val) else m
    case Map(virt, phys, flags) =>
      if P.IsAligned(virt) && P.IsAligned(phys) then P.SetPte(m, d, virt / PAGE_SIZE, phys + flags) else m
    case MapRange(virt, phys, count, flags) =>
      if count == 0 || (P.IsAligned(virt) && P.IsAligned(phys))
      then MapMem(m, d, virt / PAGE_SIZE, phys / PAGE_SIZE, count, flags) else m
    case MapTo(virt, phys, physEnd, flags) => KernelState.MapTo(m, d, virt, phys, physEnd, flags)
    case Store(frame, page) => m[frame := page]
  }

  /** The same calls on the flat view. */
  ghost function ApplyView(view: P.View, op: Call, own: set<nat>): P.View
    requires Legal(own, op)
  {
    match op
    case Set(virt, val) => if P.IsAligned(virt) then view[virt / PAGE_SIZE := val] else view
    case Map(virt, phys, flags) =>
      if P.IsAligned(virt) && P.IsAligned(phys) then view[virt / PAGE_SIZE := phys + flags] else view
    case MapRange(virt, phys, count, flags) =>
      if count == 0 || (P.IsAligned(virt) && P.IsAligned(phys))
      then P.MapPages(view, virt / PAGE_SIZE, phys / PAGE_SIZE, count, flags) else view
    case MapTo(virt, phys, physEnd, flags) =>
      if MapArgumentsOk(virt, phys, physEnd)
      then P.MapPages(view, virt / PAGE_SIZE, phys / PAGE_SIZE, (physEnd - phys) / PAGE_SIZE, flags) else view
    case Store(frame, page) => view
  }

  ghost predicate AllLegal(own: set<nat>, ops: seq<Call>) {
    forall i :: 0 <= i < |ops| ==> Legal(own, ops[i])
  }

  /** The calls in order, through the directory that the chunk names. */
  ghost function RunCalls(m: Ram, c: nat, ops: seq<Call>, own: set<nat>): Ram
    requires c < FRAMES && AllLegal(own, ops)
  {
    if ops == [] then m
    else
      var m1 := RunCalls(m, c, ops[..|ops| - 1], own);
      Apply(m1, Dir(m1, c), ops[|ops| - 1], own)
  }

  ghost function RunView(view: P.View, ops: seq<Call>, own: set<nat>): P.View
    requires AllLegal(own, ops)
  {
    if ops == [] then view else ApplyView(RunView(view, ops[..|ops| - 1], own), ops[|ops| - 1], own)
  }

  lemma FrontLegal(own: set<nat>, ops: seq<Call>)
    requires ops != [] && AllLegal(own, ops)
    ensures AllLegal(own, ops[..|ops| - 1]) && Legal(own, ops[|ops| - 1])
  {
    hide Legal;
  }

  /** The directory is where it was, with the words that it had. */
  ghost predicate SameDirectory(m: Ram, r: Ram, c: nat)
    requires c < FRAMES
  {
    Dir(r, c) == Dir(m, c) && r[Dir(m, c)] == m[Dir(m, c)]
  }

  /** One paging_set of any value. */
  lemma SetKeepsSpace(m: Ram, c: nat, p: nat, val: Word)
    requires SpaceAt(m, c) && p < FRAMES
    ensures var r := P.SetPte(m, Dir(m, c), p, val);
      && SpaceAt(r, c) && Footprint(r, c) == Footprint(m, c) && ViewAt(r, c) == ViewAt(m, c)[p := val]
      && SameDirectory(m, r, c)
  {
    hide P.ViewOf, P.Space, P.Tables, P.SetPte;
    P.SetPteView(m, Dir(m, c), p, val);
  }

  lemma StoreKeepsSpace(m: Ram, c: nat, g: nat, page: Page)
    requires SpaceAt(m, c) && g < FRAMES && g !in Footprint(m, c)
    ensures SpaceAt(m[g := page], c) && Footprint(m[g := page], c) == Footprint(m, c) && ViewAt(m[g := page], c) == ViewAt(m, c)
    ensures SameDirectory(m, m[g := page], c)
  {
    SpaceFrame(m, m[g := page], c);
  }

  lemma MapKeeps(m: Ram, c: nat, v: nat, f: nat, n: nat, flags: nat)
    requires SpaceAt(m, c) && v + n <= FRAMES && f + n <= FRAMES && flags < PAGE_SIZE
    ensures var r := MapMem(m, Dir(m, c), v, f, n, flags);
      && SpaceAt(r, c) && Footprint(r, c) == Footprint(m, c) && SameDirectory(m, r, c)
      && ViewAt(r, c) == P.MapPages(ViewAt(m, c), v, f, n, flags)
  {
    hide P.ViewOf, P.Space, P.Tables, P.MapPages, MapMem;
    MapKeepsSpace(m, c, v, f, n, flags);
    NoOwnTable(m, c);
  }

  lemma NoOwnTable(m: Ram, c: nat)
    requires SpaceAt(m, c)
    ensures c !in P.Tables(m, Dir(m, c)) && Dir(m, c) !in P.Tables(m, Dir(m, c))
  {
  }

  lemma StepKeepsSpace(m: Ram, c: nat, op: Call, own: set<nat>)
    requires SpaceAt(m, c) && own == Footprint(m, c) && Legal(own, op)
    ensures var r := Apply(m, Dir(m, c), op, own);
      SpaceAt(r, c) && Footprint(r, c) == own && ViewAt(r, c) == ApplyView(ViewAt(m, c), op, own) && SameDirectory(m, r, c)
  {
    hide SpaceAt, Footprint, ViewAt, Dir, P.MapPages, P.SetPte, MapMem, Open;
    match op
    case Set(virt, val) => if P.IsAligned(virt) { SetKeepsSpace(m, c, virt / PAGE_SIZE, val); }
    case Map(virt, phys, flags) =>
      if P.IsAligned(virt) && P.IsAligned(phys) { SetKeepsSpace(m, c, virt / PAGE_SIZE, phys + flags); }
    case MapRange(virt, phys, count, flags) => MapKeeps(m, c, virt / PAGE_SIZE, phys / PAGE_SIZE, count, flags);
    case MapTo(virt, phys, physEnd, flags) =>
      if MapArgumentsOk(virt, phys, physEnd) {
        MapKeeps(m, c, virt / PAGE_SIZE, phys / PAGE_SIZE, (physEnd - phys) / PAGE_SIZE, flags);
      }
    case Store(frame, page) => StoreKeepsSpace(m, c, frame, page);
  }

  /** Every run: the tables stay distinct, the set of frames is the same, and the view is the run's on the view. */
  lemma {:induction false} EveryRunKeepsSpace(m: Ram, c: nat, ops: seq<Call>, own: set<nat>)
    requires SpaceAt(m, c) && own == Footprint(m, c) && AllLegal(own, ops)
    ensures var r := RunCalls(m, c, ops, own);
      SpaceAt(r, c) && Footprint(r, c) == own && ViewAt(r, c) == RunView(ViewAt(m, c), ops, own) && SameDirectory(m, r, c)
  {
    assert c < FRAMES;
    hide SpaceAt, Footprint, ViewAt, Apply, ApplyView, Legal, Open;
    if ops != [] {
      var front := ops[..|ops| - 1];
      FrontLegal(own, ops);
      EveryRunKeepsSpace(m, c, front, own);
      StepKeepsSpace(RunCalls(m, c, front, own), c, ops[|ops| - 1], own);
    }
  }

  /**
    After paging_new_4gb and any run the processor, walking from the directory, gets for every address what
    the flat view of that run says, with the rights of its entry and of `flags`.
   */
  lemma EveryRunIsWalked(ks: KState, flags: nat, ops: seq<Call>, own: set<nat>, address: Word, user: bool, write: bool)
    requires Ok(ks) && flags < 0x100 && HT.FreeFrom(ks.table, 0) >= SPACE_BLOCKS
    requires 0 <= NewFrame(ks) < FRAMES && 0 <= NewFrame(BuiltState(ks, flags)) < FRAMES
    requires own == Footprint(New4gb(ks, flags).mem, NewFrame(BuiltState(ks, flags))) && AllLegal(own, ops)
    ensures var c := NewFrame(BuiltState(ks, flags));
      var m := RunCalls(New4gb(ks, flags).mem, c, ops, own);
      var e := RunView(P.Identity(flags), ops, own)[address / 0x1000];
      Walk(m, Fetch(m, c, 0) / 0x1000, address, user, write) == Allow(
        flags % 2 == 1 && e % 2 == 1 && (user ==> flags / 4 % 2 == 1 && e / 4 % 2 == 1) && (user && write ==> e / 2 % 2 == 1), e, address)
  {
    hide HT.FreeFrom, New4gb, BuiltState, NewFrame, Footprint, SpaceAt, ViewAt, Dir, AllLegal, RunCalls, RunView, Walk, Fetch, P.Identity, DirectoryIs, SameDirectory, EntryAccess, Allow, Open;
    New4gbBuilds(ks, flags);
    var c, r := NewFrame(BuiltState(ks, flags)), New4gb(ks, flags).mem;
    var m := RunCalls(r, c, ops, own);
    EveryRunKeepsSpace(r, c, ops, own);
    WalkAfter(r, m, c, flags + if flags / 2 % 2 == 1 then 0 else 2, address, user, write);
    EntryIs(RunView(P.Identity(flags), ops, own)[address / 0x1000], flags, address, user, write);
  }

  /** A new address space with the flags of task_init: user code reads every address as itself and writes none. */
  lemma NewSpaceIsWalked(ks: KState, address: Word)
    requires Ok(ks) && HT.FreeFrom(ks.table, 0) >= SPACE_BLOCKS
    ensures 0 <= NewFrame(ks) < FRAMES && 0 <= NewFrame(BuiltState(ks, 5)) < FRAMES
    ensures var m, c := New4gb(ks, 5).mem, NewFrame(BuiltState(ks, 5));
      var cr3 := Fetch(m, c, 0) / 0x1000;
      && Walk(m, cr3, address, true, false) == Physical(address) && Walk(m, cr3, address, true, true) == Fault
      && Walk(m, cr3, address, false, true) == Physical(address)
  {
    hide HT.FreeFrom, New4gb, BuiltState, NewFrame, Footprint, SpaceAt, Walk, Fetch, Dir, Open;
    New4gbBuilds(ks, 5);
    var own := Footprint(New4gb(ks, 5).mem, NewFrame(BuiltState(ks, 5)));
    EveryRunIsWalked(ks, 5, [], own, address, true, false);
    EveryRunIsWalked(ks, 5, [], own, address, true, true);
    EveryRunIsWalked(ks, 5, [], own, address, false, true);
    IdentityEntry(address);
  }

  lemma IdentityEntry(address: Word)
    ensures var e := P.Identity(5)[address / 0x1000];
      e % 2 == 1 && e / 2 % 2 == 0 && e / 4 % 2 == 1 && e / 0x1000 * 0x1000 + address % 0x1000 == address
  {
  }

  lemma WalkAfter(m: Ram, r: Ram, c: nat, low: nat, address: Word, user: bool, write: bool)
    requires c < FRAMES && DirectoryIs(m, Dir(m, c), low) && SameDirectory(m, r, c)
    ensures Walk(r, Fetch(r, c, 0) / 0x1000, address, user, write) == EntryAccess(ViewAt(r, c)[address / 0x1000], low, address, user, write)
  {
    hide WordAt, Fetch, Walk, DirectoryIs;
    FetchIs(r, c, 0);
    SameWords(m, r, Dir(m, c), low);
    WalkIsView(r, Dir(r, c), low, address, user, write);
  }

  lemma EntryIs(e: Word, flags: nat, address: Word, user: bool, write: bool)
    ensures EntryAccess(e, flags + if flags / 2 % 2 == 1 then 0 else 2, address, user, write) == Allow(
      flags % 2 == 1 && e % 2 == 1 && (user ==> flags / 4 % 2 == 1 && e / 4 % 2 == 1) && (user && write ==> e / 2 % 2 == 1), e, address)
  {
    FlagBits(flags);
  }

  lemma SameWords(m: Ram, r: Ram, d: nat, low: nat)
    requires DirectoryIs(m, d, low) && r[d] == m[d]
    ensures DirectoryIs(r, d, low)
  {
    hide WordAt;
  }

  lemma FlagBits(flags: nat)
    ensures var low := flags + if flags / 2 % 2 == 1 then 0 else 2;
      low % 2 == flags % 2 && low / 2 % 2 == 1 && low / 4 % 2 == flags / 4 % 2
  {
  }

  /**
    paging_new_4gb, then any run of paging calls and of stores elsewhere, then paging_free_4gb: the
    heap table is what it was before creation, byte for byte.
   */
  lemma NewThenFree(ks: KState, flags: nat, ops: seq<Call>, own: set<nat>)
    requires Ok(ks) && flags < 0x100 && HT.FreeFrom(ks.table, 0) >= SPACE_BLOCKS
    requires 0 <= NewFrame(ks) < FRAMES && 0 <= NewFrame(BuiltState(ks, flags)) < FRAMES
    requires own == Footprint(New4gb(ks, flags).mem, NewFrame(BuiltState(ks, flags))) && AllLegal(own, ops)
    ensures var c, r := NewFrame(BuiltState(ks, flags)), New4gb(ks, flags);
      var m := RunCalls(r.mem, c, ops, own);
      && ViewAt(m, c) == RunView(P.Identity(flags), ops, own)
      && HEAP_FRAME <= c && HEAP_FRAME <= Dir(m, c)
      && Free4gb(r.(mem := m), c).table == ks.table && Free4gb(r.(mem := m), c).live == ks.live
  {
    hide HT.FreeFrom, New4gb, BuiltState, NewFrame, Free4gb, Footprint, SpaceAt, ViewAt, AllLegal, RunCalls, RunView, Open;
    New4gbBuilds(ks, flags);
    var c, r := NewFrame(BuiltState(ks, flags)), New4gb(ks, flags);
    EveryRunKeepsSpace(r.mem, c, ops, own);
    ReleaseUndoesBuild(ks, flags, RunCalls(r.mem, c, ops, own));
  }
}
