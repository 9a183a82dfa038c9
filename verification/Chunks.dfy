/**
  paging_new_4gb and paging_free_4gb on the machine, proved equal to their functions on KState.
 */
module Chunks {
  import opened HeapTable
  import opened HeapTheory
  import opened Memory
  import opened KernelState
  import opened KernelMachine
  import opened Mmu
  import opened AddressSpace
  import P = Paging

  /** The inner loop of paging_new_4gb: one table of the identity map. */
  method FillTable(k: Machine, f: nat, i: nat, flags: nat)
    requires k.ram.Length == FRAMES && f < FRAMES && i < ENTRIES && flags < 0x100
    modifies k.ram
    ensures k.Mem() == old(k.Mem())[f := FillWords(old(k.Mem())[f], i, flags, ENTRIES)]
  {
    hide SetWord, WordAt;
    var offset := i * (ENTRIES * PAGE_SIZE);
    var b := 0;
    while b < ENTRIES
      invariant 0 <= b <= ENTRIES
      invariant k.Mem() == old(k.Mem())[f := FillWords(old(k.Mem())[f], i, flags, b)]
    {
      k.ram[f] := SetWord(k.ram[f], b, offset + b * PAGE_SIZE + flags);
      b := b + 1;
    }
  }

  /** One round of the outer loop: allocate a table, fill it, enter it in the directory. */
  method AddTable(k: Machine, d: nat, i: nat, flags: nat)
    requires k.Valid() && d < FRAMES && i < ENTRIES && flags < 0x100
    requires Fits(k.State().table, 1) && StartBlock(k.State().table, 1) >= 0 && NewFrame(k.State()) < FRAMES
    requires NewFrame(k.State()) != d
    modifies k.heap`live, k.heap.entries, k.ram
    ensures k.Valid() && k.State() == BuildStep(old(k.State()), d, i, flags)
  {
    hide SetWord, WordAt, FillWords, StartBlock, Fits, Zalloc;
    BlocksForPage(PAGE_SIZE);
    ghost var ks := k.State();
    var entry := k.KZalloc(PAGE_SIZE);
    var f := entry / PAGE_SIZE;
    assert f == NewFrame(ks);
    FillTable(k, f, i, flags);
    k.ram[d] := SetWord(k.ram[d], i, entry + WithWriteable(flags));
    assert k.Mem() == BuildStep(ks, d, i, flags).mem;
  }

  /** One round, in terms of the whole construction. */
  method NextTable(k: Machine, d: nat, i: nat, flags: nat, ghost ks0: KState, ghost ks1: KState, ghost fs: set<nat>)
    returns (ghost fs': set<nat>)
    requires k.Valid() && d < FRAMES && i < ENTRIES && flags < 0x100 && FreeFrom(ks0.table, 0) >= SPACE_BLOCKS
    requires k.State() == BuildTables(ks1, d, i, flags) && Building(ks0, k.State(), d, i, flags, fs)
    modifies k.heap`live, k.heap.entries, k.ram
    ensures k.Valid()
    ensures k.State() == BuildTables(ks1, d, i + 1, flags) && Building(ks0, k.State(), d, i + 1, flags, fs')
  {
    hide StartBlock, Fits, NewFrame, Building, BuildStep, FreeFrom, BuildTables;
    ghost var ks := k.State();
    BuildStepBuilds(ks0, ks, d, i, flags, fs);
    NewFrameIs(ks);
    AddTable(k, d, i, flags);
    TablesStep(ks1, ks, d, i, flags);
    fs' := fs + {NewFrame(ks)};
  }

  /** The outer loop of paging_new_4gb behind the directory `d`. */
  method AddTables(k: Machine, d: nat, flags: nat, ghost ks0: KState) returns (ghost fs: set<nat>)
    requires k.Valid() && d < FRAMES && flags < 0x100 && Building(ks0, k.State(), d, 0, flags, {d}) && FreeFrom(ks0.table, 0) >= SPACE_BLOCKS
    modifies k.heap`live, k.heap.entries, k.ram
    ensures k.Valid()
    ensures k.State() == BuildTables(old(k.State()), d, ENTRIES, flags) && Building(ks0, k.State(), d, ENTRIES, flags, fs)
  {
    hide Building, FreeFrom, BuildTables;
    ghost var ks1 := k.State();
    fs := {d};
    TablesStart(ks1, d, flags);
    var i := 0;
    while i < ENTRIES
      invariant 0 <= i <= ENTRIES && k.Valid()
      invariant k.State() == BuildTables(ks1, d, i, flags) && Building(ks0, k.State(), d, i, flags, fs)
    {
      fs := NextTable(k, d, i, flags, ks0, ks1, fs);
      i := i + 1;
    }
  }

  lemma TablesStart(ks: KState, d: nat, flags: nat)
    requires d < FRAMES && flags < 0x100
    ensures BuildTables(ks, d, 0, flags) == ks
  {
  }

  lemma TablesStep(ks1: KState, ks: KState, d: nat, i: nat, flags: nat)
    requires d < FRAMES && flags < 0x100 && i < ENTRIES && ks == BuildTables(ks1, d, i, flags) && 0 <= NewFrame(ks) < FRAMES
    ensures BuildTables(ks1, d, i + 1, flags) == BuildStep(ks, d, i, flags)
  {
    hide BuildStep, NewFrame;
  }

  /** paging_new_4gb with 1026 free blocks. */
  method PagingNew4gb(k: Machine, flags: nat) returns (chunk: nat)
    requires k.Valid() && flags < 0x100 && FreeFrom(k.State().table, 0) >= SPACE_BLOCKS
    modifies k.heap`live, k.heap.entries, k.ram
    ensures k.Valid()
    ensures 0 <= NewFrame(old(k.State())) < FRAMES && 0 <= NewFrame(BuiltState(old(k.State()), flags)) < FRAMES
    ensures k.State() == New4gb(old(k.State()), flags)
    ensures chunk == NewFrame(BuiltState(old(k.State()), flags)) * PAGE_SIZE
    ensures var c := chunk / PAGE_SIZE;
      && SpaceAt(k.State().mem, c) && ViewAt(k.State().mem, c) == P.Identity(flags)
      && DirectoryIs(k.State().mem, Dir(k.State().mem, c), flags + if flags / 2 % 2 == 1 then 0 else 2)
      && |Footprint(k.State().mem, c)| == SPACE_BLOCKS
      && Took(old(k.State()), k.State(), Footprint(k.State().mem, c))
  {
    hide BuildTables, SetWord, WordAt, StartBlock, Fits, Zalloc, NewFrame, Took, Building, BuildStep, FreeFrom, Footprint, SpaceAt, ViewAt, Refines, P.Identity, BlocksFor, DirectoryIs, Open;
    BlocksForPage(PAGE_SIZE);
    BlocksForPage(4);
    ghost var ks0 := k.State();
    New4gbBuilds(ks0, flags);
    TookNothing(ks0);
    TakePage(ks0, ks0, {}, PAGE_SIZE);
    NewFrameIs(ks0);
    var directory := k.KZalloc(PAGE_SIZE);
    var d := directory / PAGE_SIZE;
    ghost var ks1 := k.State();
    ghost var fs: set<nat>;
    assert {} + {d} == {d};
    BuildingStarts(ks0, ks1, d, flags);
    fs := AddTables(k, d, flags, ks0);
    ghost var ks2 := k.State();
    BuildingRoom(ks0, ks2, d, flags, fs);
    TakePage(ks0, ks2, fs, 4);
    NewFrameIs(ks2);
    chunk := k.KZalloc(4);
    k.ram[chunk / PAGE_SIZE] := SetWord(k.ram[chunk / PAGE_SIZE], 0, directory);
    assert k.State() == New4gb(ks0, flags);
  }

  lemma BuildingRoom(ks0: KState, ks: KState, d: nat, flags: nat, fs: set<nat>)
    requires Building(ks0, ks, d, ENTRIES, flags, fs)
    ensures Took(ks0, ks, fs) && |fs| == ENTRIES + 1
  {
  }

  /** kfree of a one-block run by its frame. */
  method FreePage(k: Machine, f: nat)
    requires k.Valid() && HEAP_FRAME <= f && f - HEAP_FRAME in k.State().live
    modifies k.heap`live, k.heap.entries
    ensures k.Valid() && k.State() == Release(old(k.State()), f - HEAP_FRAME)
  {
    k.KFree(f * PAGE_SIZE);
  }

  /** paging_free_4gb: every run of the footprint goes back, nothing else changes. */
  method PagingFree4gb(k: Machine, chunk: nat)
    requires k.Valid() && chunk % PAGE_SIZE == 0 && SpaceAt(k.State().mem, chunk / PAGE_SIZE)
    requires SingleRuns(k.State().live, Footprint(k.State().mem, chunk / PAGE_SIZE))
    modifies k.heap`live, k.heap.entries
    ensures k.Valid() && Gave(old(k.State()), k.State(), old(Footprint(k.State().mem, chunk / PAGE_SIZE)))
  {
    hide Refines, Gave, Release, WordAt, SomeTables, P.Table;
    var c := chunk / PAGE_SIZE;
    var directory := WordAt(k.ram[c], 0) / PAGE_SIZE;
    ghost var ks := k.State();
    ghost var m := ks.mem;
    GaveNothing(ks);
    FootprintParts(ks, c);
    var i := 0;
    while i < ENTRIES
      invariant 0 <= i <= ENTRIES && k.Valid() && k.State().mem == m
      invariant Gave(ks, k.State(), SomeTables(m, directory, i))
    {
      var table := WordAt(k.ram[directory], i) / PAGE_SIZE;
      TableOf(m, directory, i);
      GivePage(ks, k.State(), SomeTables(m, directory, i), table);
      FreePage(k, table);
      GaveMem(ks, k.State(), SomeTables(m, directory, i) + {table});
      i := i + 1;
    }
    GivePage(ks, k.State(), P.Tables(m, directory), directory);
    FreePage(k, directory);
    GivePage(ks, k.State(), P.Tables(m, directory) + {directory}, c);
    FreePage(k, c);
  }

  lemma TableOf(m: Ram, d: nat, i: nat)
    requires d < FRAMES && i < ENTRIES
    ensures P.Table(m, d, i) == WordAt(m[d], i) / PAGE_SIZE
    ensures SomeTables(m, d, 0) == {} && SomeTables(m, d, i + 1) == SomeTables(m, d, i) + {P.Table(m, d, i)}
  {
  }

  lemma GaveMem(ks0: KState, ks: KState, fs: set<nat>)
    requires Gave(ks0, ks, fs)
    ensures ks.mem == ks0.mem
  {
  }

  /** The order in which paging_free_4gb meets the frames of a footprint. */
  lemma FootprintParts(ks: KState, c: nat)
    requires SpaceAt(ks.mem, c) && SingleRuns(ks.live, Footprint(ks.mem, c))
    ensures var m, d := ks.mem, Dir(ks.mem, c);
      && SomeTables(m, d, 0) == {} && SomeTables(m, d, ENTRIES) == P.Tables(m, d)
      && (forall i: nat :: i < ENTRIES ==> P.Table(m, d, i) !in SomeTables(m, d, i) && SingleRuns(ks.live, {P.Table(m, d, i)}))
      && d !in P.Tables(m, d) && SingleRuns(ks.live, {d})
      && c !in P.Tables(m, d) + {d} && SingleRuns(ks.live, {c})
      && P.Tables(m, d) + {d} + {c} == Footprint(m, c)
  {
    hide WordAt, P.Table, SomeTables;
    var m, d := ks.mem, Dir(ks.mem, c);
    TableOf(m, d, 0);
    forall i: nat | i < ENTRIES ensures P.Table(m, d, i) !in SomeTables(m, d, i) && SingleRuns(ks.live, {P.Table(m, d, i)}) {
      TablePart(ks, c, i);
    }
    SomeTablesAre(m, d, ENTRIES);
    assert SomeTables(m, d, ENTRIES) == P.Tables(m, d);
    assert c in Footprint(m, c) && d in Footprint(m, c);
  }

  lemma TablePart(ks: KState, c: nat, i: nat)
    requires SpaceAt(ks.mem, c) && SingleRuns(ks.live, Footprint(ks.mem, c)) && i < ENTRIES
    ensures var m, d := ks.mem, Dir(ks.mem, c);
      P.Table(m, d, i) !in SomeTables(m, d, i) && SingleRuns(ks.live, {P.Table(m, d, i)})
  {
    hide WordAt, P.Table, SomeTables;
    var m, d := ks.mem, Dir(ks.mem, c);
    SomeTablesAre(m, d, i);
    assert P.Table(m, d, i) in Footprint(m, c);
  }
}
