/**
  process_inject_arguments: the argument list of a new process is copied into memory that the
  process owns, and what the process then sees as argv is exactly that list.
 */
module Arguments {
  import opened Status
  import opened HeapTable
  import opened Memory
  import opened KernelState
  import opened KernelMachine
  import opened AddressSpace
  import opened ProcessMemory
  import opened Processes
  import opened Tokens
  import opened Command
  import opened AllocationRoom
  import opened OwnMemory
  import HT = HeapTheory
  import P = Paging
  import TC = TaskCopy

  const POINTER_SIZE := 4

  // ---------------------------------------------------------------- allocations of one process

  /** The pages of an allocation are taken, and none of them is a page table. */
  lemma AllocPages(ks: KState, p: Proc, a: Alloc, g: nat)
    requires Ok(ks) && p.chunk < FRAMES && ProcOk(ks, p) && HasAlloc(p, a) && InRun(a, g)
    ensures OwnsRun(ks.live, a) && TakenFrame(ks, g) && g !in Footprint(ks.mem, p.chunk)
  {
    hide BlocksFor, SpaceAt, ViewAt, WindowOk, Footprint, ProcOk, OwnedFrames, Covers, Refines;
    AllocStart(ks, p, a);
    var s := a.ptr / PAGE_SIZE - HEAP_FRAME;
    InRunIsCovered(ks, a, g);
    if g in Footprint(ks.mem, p.chunk) {
      FootprintPage(ks, p, g);
      RunsDisjoint(ks.table, ks.live, s, g - HEAP_FRAME, g - HEAP_FRAME);
    }
  }

  lemma InRunIsCovered(ks: KState, a: Alloc, g: nat)
    requires Ok(ks) && OwnsRun(ks.live, a) && InRun(a, g)
    ensures a.ptr / PAGE_SIZE >= HEAP_FRAME && Covers(ks.live, a.ptr / PAGE_SIZE - HEAP_FRAME, g - HEAP_FRAME)
    ensures TakenFrame(ks, g)
  {
    hide BlocksFor;
    var s := a.ptr / PAGE_SIZE - HEAP_FRAME;
    assert Covers(ks.live, s, g - HEAP_FRAME);
    CellBits(g - HEAP_FRAME - s, ks.live[s]);
  }

  lemma FootprintPage(ks: KState, p: Proc, g: nat)
    requires Ok(ks) && p.chunk < FRAMES && ProcOk(ks, p) && g in Footprint(ks.mem, p.chunk)
    ensures g >= HEAP_FRAME && Covers(ks.live, g - HEAP_FRAME, g - HEAP_FRAME) && g !in OwnedFrames(p.allocs)
  {
    hide SpaceAt, ViewAt, WindowOk, Footprint, OwnedFrames, SlotsOk, Open;
    LiveCoversItself(ks, g - HEAP_FRAME);
  }

  /** Different allocations of a process share no page. */
  lemma AllocsApart(ks: KState, p: Proc, a: Alloc, b: Alloc, g: nat)
    requires Ok(ks) && p.chunk < FRAMES && ProcOk(ks, p) && HasAlloc(p, a) && HasAlloc(p, b) && a.ptr != b.ptr
    requires InRun(a, g)
    ensures !InRun(b, g)
  {
    hide BlocksFor, SpaceAt, ViewAt, WindowOk, Footprint, InRun, Open;
    if InRun(b, g) {
      AllocPages(ks, p, a, g);
      AllocPages(ks, p, b, g);
      SlotRunsDisjoint(ks, a, b, g);
    }
  }

  // ---------------------------------------------------------------- what lies in memory

  /** Word i of a table of pointers. */
  function PointerAt(m: Ram, table: nat, i: nat): Word
    requires table / PAGE_SIZE + i / ENTRIES < FRAMES
  {
    WordAt(m[table / PAGE_SIZE + i / ENTRIES], i % ENTRIES)
  }

  /** A page that starts with a C string. */
  ghost predicate StringAt(m: Ram, ptr: nat, t: Str)
    requires ptr / PAGE_SIZE < FRAMES
  {
    |t| < ARGUMENT_SIZE && NUL !in t && m[ptr / PAGE_SIZE][..|t| + 1] == t + [NUL]
  }

  function StringAlloc(ptr: nat): Alloc {
    Alloc(ptr, ARGUMENT_SIZE)
  }

  /** The first strings of the list are in place and the pointer table names them. */
  ghost predicate Injected(ks: KState, p: Proc, argv: nat, argc: nat, ptrs: seq<nat>, texts: seq<Str>)
    requires Ok(ks) && p.chunk < FRAMES
  {
    && ProcOk(ks, p) && |ptrs| <= |texts| == argc && 0 < argc && POINTER_SIZE * argc < WORD_LIMIT
    && HasAlloc(p, Alloc(argv, POINTER_SIZE * argc))
    && (forall i :: 0 <= i < |ptrs| ==> HasAlloc(p, StringAlloc(ptrs[i])) && ptrs[i] != argv)
    && (forall i, j :: 0 <= i < j < |ptrs| ==> ptrs[i] != ptrs[j])
    && (forall i: nat :: i < argc ==> argv / PAGE_SIZE + i / ENTRIES < FRAMES)
    && (forall i :: 0 <= i < |ptrs| ==>
      ptrs[i] / PAGE_SIZE < FRAMES && PointerAt(ks.mem, argv, i) == ptrs[i] && StringAt(ks.mem, ptrs[i], texts[i]))
  }

  lemma StringPage(ks: KState, p: Proc, ptr: nat)
    requires Ok(ks) && p.chunk < FRAMES && ProcOk(ks, p) && HasAlloc(p, StringAlloc(ptr))
    ensures ptr % PAGE_SIZE == 0 && ptr / PAGE_SIZE < FRAMES && InRun(StringAlloc(ptr), ptr / PAGE_SIZE)
  {
    hide SpaceAt, ViewAt, WindowOk, Footprint, BlocksFor, Open;
    BlocksForPage(ARGUMENT_SIZE);
    assert InRun(StringAlloc(ptr), ptr / PAGE_SIZE);
    AllocPages(ks, p, StringAlloc(ptr), ptr / PAGE_SIZE);
  }

  /** Every word of the pointer table lies in its allocation. */
  lemma PointerPage(ks: KState, p: Proc, argv: nat, argc: nat, i: nat)
    requires Ok(ks) && p.chunk < FRAMES && ProcOk(ks, p) && i < argc && POINTER_SIZE * argc < WORD_LIMIT
    requires HasAlloc(p, Alloc(argv, POINTER_SIZE * argc))
    ensures InRun(Alloc(argv, POINTER_SIZE * argc), argv / PAGE_SIZE + i / ENTRIES)
    ensures argv / PAGE_SIZE + i / ENTRIES < FRAMES && argv % PAGE_SIZE == 0
  {
    hide SpaceAt, ViewAt, WindowOk, Footprint, BlocksFor, Open;
    var a := Alloc(argv, POINTER_SIZE * argc);
    TableBlocks(argc, i);
    AllocOwned(ks, p, a);
    OwnedInHeap(ks, a);
  }

  lemma TableBlocks(argc: nat, i: nat)
    requires i < argc && POINTER_SIZE * argc <= 0xFFFF_F000
    ensures i / ENTRIES < BlocksFor(POINTER_SIZE * argc)
  {
    AlignUpperIsLeastMultiple(POINTER_SIZE * argc);
  }

  lemma AllocOwned(ks: KState, p: Proc, a: Alloc)
    requires ProcOk(ks, p) && HasAlloc(p, a)
    ensures OwnsRun(ks.live, a)
  {
    hide OwnsRun, SpaceAt, ViewAt, WindowOk, Footprint, Open;
    var k :| 0 <= k < |p.allocs| && p.allocs[k] == a;
  }

  // ---------------------------------------------------------------- the steps keep what is in place

  /** A step that keeps allocations and the memory of taken frames keeps the injected arguments. */
  lemma KeepArguments(ks: KState, ks': KState, p: Proc, p': Proc, argv: nat, argc: nat, ptrs: seq<nat>, texts: seq<Str>)
    requires Ok(ks) && Ok(ks') && p.chunk < FRAMES && p'.chunk == p.chunk && ProcOk(ks', p')
    requires Injected(ks, p, argv, argc, ptrs, texts)
    requires forall a :: HasAlloc(p, a) ==> HasAlloc(p', a)
    requires forall g: nat :: TakenFrame(ks, g) && g !in Footprint(ks.mem, p.chunk) ==> ks'.mem[g] == ks.mem[g]
    ensures Injected(ks', p', argv, argc, ptrs, texts)
  {
    hide ProcOk, Refines, HasAlloc, TakenFrame, InRun, Footprint, WordAt;
    forall i | 0 <= i < |ptrs|
      ensures PointerAt(ks'.mem, argv, i) == ptrs[i] && StringAt(ks'.mem, ptrs[i], texts[i])
    {
      StringPage(ks, p, ptrs[i]);
      AllocPages(ks, p, StringAlloc(ptrs[i]), ptrs[i] / PAGE_SIZE);
      PointerPage(ks, p, argv, argc, i);
      AllocPages(ks, p, Alloc(argv, POINTER_SIZE * argc), argv / PAGE_SIZE + i / ENTRIES);
    }
  }

  /** Storing outside the page tables keeps the process. */
  lemma StoreKeepsProc(ks: KState, p: Proc, g: nat, page: Page)
    requires Ok(ks) && p.chunk < FRAMES && ProcOk(ks, p) && g < FRAMES && g !in Footprint(ks.mem, p.chunk)
    ensures var ks' := ks.(mem := ks.mem[g := page]);
      Ok(ks') && ProcOk(ks', p) && Footprint(ks'.mem, p.chunk) == Footprint(ks.mem, p.chunk)
  {
    hide Refines, Footprint, OwnedFrames, SpaceAt, ViewAt, WindowOk, SlotsOk, Open;
    SpaceFrame(ks.mem, ks.mem[g := page], p.chunk);
  }

  /** The string page and the pointer word written for the next argument. */
  ghost function Stored(m: Ram, argv: nat, i: nat, ptr: Word, t: Str): Ram
    requires argv / PAGE_SIZE + i / ENTRIES < FRAMES && |t| < PAGE_SIZE
  {
    var f, h := ptr / PAGE_SIZE, argv / PAGE_SIZE + i / ENTRIES;
    var m1 := m[f := TC.Prefixed(m[f], t + [NUL])];
    m1[h := SetWord(m1[h], i % ENTRIES, ptr)]
  }

  lemma StoredMemory(m: Ram, argv: nat, i: nat, ptr: Word, t: Str)
    requires argv / PAGE_SIZE + i / ENTRIES < FRAMES && |t| < ARGUMENT_SIZE && NUL !in t
    requires ptr / PAGE_SIZE != argv / PAGE_SIZE + i / ENTRIES
    ensures var m' := Stored(m, argv, i, ptr, t);
      && StringAt(m', ptr, t) && PointerAt(m', argv, i) == ptr
      && (forall g: nat :: g < FRAMES && g != ptr / PAGE_SIZE && g != argv / PAGE_SIZE + i / ENTRIES ==> m'[g] == m[g])
      && (forall j: nat :: j != i && argv / PAGE_SIZE + j / ENTRIES < FRAMES && argv / PAGE_SIZE + j / ENTRIES != ptr / PAGE_SIZE ==>
            PointerAt(m', argv, j) == PointerAt(m, argv, j))
  {
    hide WordAt, SetWord;
    var m' := Stored(m, argv, i, ptr, t);
    forall j: nat | j != i && argv / PAGE_SIZE + j / ENTRIES < FRAMES && argv / PAGE_SIZE + j / ENTRIES != ptr / PAGE_SIZE
      ensures PointerAt(m', argv, j) == PointerAt(m, argv, j)
    {
      if j / ENTRIES == i / ENTRIES { assert j % ENTRIES != i % ENTRIES; }
    }
    TC.ScratchStarts(m[ptr / PAGE_SIZE], t);
  }

  lemma AddArgument(ks: KState, p: Proc, argv: nat, argc: nat, ptrs: seq<nat>, texts: seq<Str>, ptr: Word)
    requires Ok(ks) && p.chunk < FRAMES && Injected(ks, p, argv, argc, ptrs, texts) && |ptrs| < argc
    requires HasAlloc(p, StringAlloc(ptr)) && ptr != argv && (forall i :: 0 <= i < |ptrs| ==> ptrs[i] != ptr)
    requires |texts[|ptrs|]| < ARGUMENT_SIZE && NUL !in texts[|ptrs|]
    ensures argv / PAGE_SIZE + |ptrs| / ENTRIES < FRAMES
    ensures var ks' := ks.(mem := Stored(ks.mem, argv, |ptrs|, ptr, texts[|ptrs|]));
      Ok(ks') && Injected(ks', p, argv, argc, ptrs + [ptr], texts)
  {
    hide ProcOk, Refines, HasAlloc, TakenFrame, InRun, Footprint, WordAt, SetWord, TC.Prefixed, StringAt, PointerAt;
    var n, t, a := |ptrs|, texts[|ptrs|], Alloc(argv, POINTER_SIZE * argc);
    var f, h := ptr / PAGE_SIZE, argv / PAGE_SIZE + n / ENTRIES;
    StringPage(ks, p, ptr);
    PointerPage(ks, p, argv, argc, n);
    AllocsApart(ks, p, StringAlloc(ptr), a, f);
    StoredMemory(ks.mem, argv, n, ptr, t);
    StoredKeepsProc(ks, p, argv, argc, n, ptr, t);
    var m' := Stored(ks.mem, argv, n, ptr, t);
    forall i | 0 <= i < n ensures PointerAt(m', argv, i) == ptrs[i] && StringAt(m', ptrs[i], texts[i]) {
      StringPage(ks, p, ptrs[i]);
      PointerPage(ks, p, argv, argc, i);
      AllocsApart(ks, p, StringAlloc(ptr), a, f);
      AllocsApart(ks, p, StringAlloc(ptrs[i]), StringAlloc(ptr), ptrs[i] / PAGE_SIZE);
      AllocsApart(ks, p, StringAlloc(ptrs[i]), a, ptrs[i] / PAGE_SIZE);
      SamePageSameString(ks.mem, m', ptrs[i], texts[i]);
    }
  }

  lemma SamePageSameString(m: Ram, m': Ram, ptr: nat, t: Str)
    requires ptr / PAGE_SIZE < FRAMES && m'[ptr / PAGE_SIZE] == m[ptr / PAGE_SIZE] && StringAt(m, ptr, t)
    ensures StringAt(m', ptr, t)
  {
  }

  lemma StoredKeepsProc(ks: KState, p: Proc, argv: nat, argc: nat, i: nat, ptr: Word, t: Str)
    requires Ok(ks) && p.chunk < FRAMES && ProcOk(ks, p) && i < argc && POINTER_SIZE * argc < WORD_LIMIT && |t| < PAGE_SIZE
    requires HasAlloc(p, Alloc(argv, POINTER_SIZE * argc)) && HasAlloc(p, StringAlloc(ptr))
    ensures argv / PAGE_SIZE + i / ENTRIES < FRAMES
    ensures var ks' := ks.(mem := Stored(ks.mem, argv, i, ptr, t)); Ok(ks') && ProcOk(ks', p)
  {
    hide ProcOk, Refines, HasAlloc, TakenFrame, InRun, Footprint, WordAt, SetWord, TC.Prefixed;
    var f, h := ptr / PAGE_SIZE, argv / PAGE_SIZE + i / ENTRIES;
    StringPage(ks, p, ptr);
    AllocPages(ks, p, StringAlloc(ptr), f);
    PointerPage(ks, p, argv, argc, i);
    AllocPages(ks, p, Alloc(argv, POINTER_SIZE * argc), h);
    var m1 := ks.mem[f := TC.Prefixed(ks.mem[f], t + [NUL])];
    StoreKeepsProc(ks, p, f, TC.Prefixed(ks.mem[f], t + [NUL]));
    StoreKeepsProc(ks.(mem := m1), p, h, SetWord(m1[h], i % ENTRIES, ptr));
  }

  /** The two stores lie in pages of the process. */
  lemma StoredIsOwn(ks: KState, p: Proc, argv: nat, argc: nat, i: nat, ptr: Word, t: Str)
    requires Ok(ks) && p.chunk < FRAMES && ProcOk(ks, p) && i < argc && POINTER_SIZE * argc < WORD_LIMIT && |t| < PAGE_SIZE
    requires HasAlloc(p, Alloc(argv, POINTER_SIZE * argc)) && HasAlloc(p, StringAlloc(ptr))
    requires argv / PAGE_SIZE + i / ENTRIES < FRAMES
    ensures OnlyOwn(ks, p, ks.(mem := Stored(ks.mem, argv, i, ptr, t)), p)
  {
    hide ProcOk, Refines, HasAlloc, TakenFrame, InRun, Footprint, WordAt, SetWord, TC.Prefixed, OnlyOwn, Owns;
    var f, h := ptr / PAGE_SIZE, argv / PAGE_SIZE + i / ENTRIES;
    StringPage(ks, p, ptr);
    AllocPages(ks, p, StringAlloc(ptr), f);
    AllocIsOwned(p, StringAlloc(ptr), f);
    PointerPage(ks, p, argv, argc, i);
    AllocPages(ks, p, Alloc(argv, POINTER_SIZE * argc), h);
    AllocIsOwned(p, Alloc(argv, POINTER_SIZE * argc), h);
    var page := TC.Prefixed(ks.mem[f], t + [NUL]);
    var ks1 := ks.(mem := ks.mem[f := page]);
    StoreKeepsProc(ks, p, f, page);
    StoreIsOwn(ks, p, f, page);
    StoreIsOwn(ks1, p, h, SetWord(ks1.mem[h], i % ENTRIES, ptr));
    OnlyOwnAgain(ks, p, ks1, p, ks.(mem := Stored(ks.mem, argv, i, ptr, t)), p);
  }

  lemma AllocIsOwned(p: Proc, a: Alloc, g: nat)
    requires HasAlloc(p, a) && InRun(a, g)
    ensures Owns(p.allocs, g)
  {
    hide InRun;
  }

  // ---------------------------------------------------------------- the method

  /** process_count_command_arguments */
  method CountCommandArguments(root: CommandArgument?, ghost nodes: seq<CommandArgument>) returns (i: nat)
    requires IsList(root, nodes)
    ensures i == |nodes|
  {
    var current := root;
    i := 0;
    while current != null
      invariant 0 <= i <= |nodes| && current == if i < |nodes| then nodes[i] else null
      decreases |nodes| - i
    {
      i := i + 1;
      current := current.next;
    }
  }

  /** strncpy of a node's text into a fresh block under the kernel's identity map. */
  method StoreString(k: Machine, ptr: Word, argument: seq<Byte>)
    requires k.ram.Length == FRAMES && ptr % PAGE_SIZE == 0 && |argument| == ARGUMENT_SIZE && Terminated(argument, 0)
    modifies k.ram
    ensures var f := ptr / PAGE_SIZE;
      k.Mem() == old(k.Mem())[f := TC.Prefixed(old(k.Mem())[f], Text(argument, 0) + [NUL])]
  {
    hide TC.Prefixed;
    var f := ptr / PAGE_SIZE;
    ghost var t, page := Text(argument, 0), k.ram[f];
    TC.PrefixNothing(page, t);
    var i := 0;
    while i < ARGUMENT_SIZE - 1 && argument[i] != NUL
      invariant 0 <= i <= |t|
      invariant k.Mem() == old(k.Mem())[f := TC.Prefixed(page, t[..i])]
    {
      TC.PrefixStep(page, t, i);
      k.ram[f] := k.ram[f][i := argument[i]];
      i := i + 1;
    }
    TC.PrefixEnd(page, t, i);
    k.ram[f] := k.ram[f][i := NUL];
  }

  ghost predicate NodesHold(nodes: seq<CommandArgument>, texts: seq<Str>) {
    |nodes| == |texts| && forall i :: 0 <= i < |nodes| ==> HoldsText(nodes[i], texts[i])
  }

  lemma NodeText(node: CommandArgument, t: Str)
    requires HoldsText(node, t)
    ensures |t| < ARGUMENT_SIZE && NUL !in t
  {
  }

  /** A run for the pointer table, a block for each text, and a slot for each of these. */
  ghost predicate RoomFor(ks: KState, p: Proc, argc: nat)
    requires POINTER_SIZE * argc < WORD_LIMIT
  {
    var n := BlocksFor(POINTER_SIZE * argc);
    HasRun(ks.table, n) && HT.FreeFrom(ks.table, 0) >= n + argc && Unused(p.allocs) >= 1 + argc
  }

  lemma InjectionStarts(ks: KState, p: Proc, argv: nat, argc: nat, texts: seq<Str>)
    requires Ok(ks) && p.chunk < FRAMES && ProcOk(ks, p) && 0 < argc == |texts| && POINTER_SIZE * argc < WORD_LIMIT
    requires HasAlloc(p, Alloc(argv, POINTER_SIZE * argc))
    ensures Injected(ks, p, argv, argc, [], texts)
  {
    hide ProcOk, Refines, HasAlloc;
    forall i: nat | i < argc ensures argv / PAGE_SIZE + i / ENTRIES < FRAMES {
      PointerPage(ks, p, argv, argc, i);
    }
  }

  lemma InjectedParts(ks: KState, p: Proc, argv: nat, argc: nat, ptrs: seq<nat>, texts: seq<Str>)
    requires Ok(ks) && p.chunk < FRAMES && Injected(ks, p, argv, argc, ptrs, texts)
    ensures ProcOk(ks, p) && HasAlloc(p, Alloc(argv, POINTER_SIZE * argc)) && |ptrs| <= |texts| == argc && POINTER_SIZE * argc < WORD_LIMIT
    ensures forall i :: 0 <= i < |ptrs| ==> HasAlloc(p, StringAlloc(ptrs[i]))
    ensures forall i: nat :: i < argc ==> argv / PAGE_SIZE + i / ENTRIES < FRAMES
  {
    hide ProcOk, HasAlloc, StringAt, PointerAt;
  }

  /** One round of the loop: a block for the text, the text, the pointer. */
  method InjectOne(k: Machine, p: Process, argv: nat, i: nat, node: CommandArgument, ghost argc: nat, ghost ptrs: seq<nat>, ghost texts: seq<Str>)
    returns (ptr: nat)
    requires k.Valid() && p.Valid() && Injected(k.State(), p.Model(), argv, argc, ptrs, texts) && i == |ptrs| < argc
    requires HoldsText(node, texts[i])
    modifies k.heap`live, k.heap.entries, k.ram, p.allocations
    ensures k.Valid() && ProcOk(k.State(), p.Model()) && OnlyOwn(old(k.State()), old(p.Model()), k.State(), p.Model())
    ensures ptr != 0 ==> Injected(k.State(), p.Model(), argv, argc, ptrs + [ptr], texts)
    ensures ptr != 0 <==> HT.FreeFrom(old(k.State()).table, 0) > 0 && Unused(old(p.Model()).allocs) > 0
    ensures ptr != 0 ==> Used(old(k.State()), old(p.Model()), k.State(), p.Model(), 1, 1)
  {
    hide HasRun, Unused, HT.FreeFrom, Refines, ProcOk, OnlyOwn, Footprint, HasAlloc, TakenFrame, Injected, Fits, BlocksFor, HoldsText, WordAt, SetWord, TC.Prefixed, Text, Terminated;
    ghost var ks, proc := k.State(), p.Model();
    InjectedParts(ks, proc, argv, argc, ptrs, texts);
    BlocksForPage(ARGUMENT_SIZE);
    ptr := GrantPage(k, p, ARGUMENT_SIZE);
    if ptr == 0 {
      return;
    }
    ghost var ks1, proc1 := k.State(), p.Model();
    KeepArguments(ks, ks1, proc, proc1, argv, argc, ptrs, texts);
    StringPage(ks1, proc1, ptr);
    NodeText(node, texts[i]);
    NewPointer(proc, argv, argc, ptrs, ptr);
    AddArgument(ks1, proc1, argv, argc, ptrs, texts, ptr);
    HeldText(node, texts[i]);
    StoreString(k, ptr, node.argument);
    var h := argv / PAGE_SIZE + i / ENTRIES;
    k.ram[h] := SetWord(k.ram[h], i % ENTRIES, ptr);
    StoredIs(ks1.mem, argv, i, ptr, texts[i]);
    assert k.State() == ks1.(mem := Stored(ks1.mem, argv, i, ptr, texts[i]));
    InjectedParts(k.State(), proc1, argv, argc, ptrs + [ptr], texts);
    InjectedParts(ks1, proc1, argv, argc, ptrs, texts);
    StoredIsOwn(ks1, proc1, argv, argc, i, ptr, texts[i]);
    OnlyOwnAgain(ks, proc, ks1, proc1, k.State(), proc1);
  }

  lemma NewPointer(p: Proc, argv: nat, argc: nat, ptrs: seq<nat>, ptr: nat)
    requires HasAlloc(p, Alloc(argv, POINTER_SIZE * argc)) && forall i :: 0 <= i < |ptrs| ==> HasAlloc(p, StringAlloc(ptrs[i]))
    requires forall a :: HasAlloc(p, a) ==> a.ptr != ptr
    ensures ptr != argv && forall i :: 0 <= i < |ptrs| ==> ptrs[i] != ptr
  {
    hide HasAlloc;
    forall i | 0 <= i < |ptrs| ensures ptrs[i] != ptr {
      assert HasAlloc(p, StringAlloc(ptrs[i])) && StringAlloc(ptrs[i]).ptr == ptrs[i];
    }
  }

  lemma HeldText(node: CommandArgument, t: Str)
    requires HoldsText(node, t)
    ensures |node.argument| == ARGUMENT_SIZE && Terminated(node.argument, 0) && Text(node.argument, 0) == t
  {
  }

  lemma StoredIs(m: Ram, argv: nat, i: nat, ptr: Word, t: Str)
    requires argv / PAGE_SIZE + i / ENTRIES < FRAMES && |t| < PAGE_SIZE
    ensures var f, h := ptr / PAGE_SIZE, argv / PAGE_SIZE + i / ENTRIES;
      var m1 := m[f := TC.Prefixed(m[f], t + [NUL])];
      Stored(m, argv, i, ptr, t) == m1[h := SetWord(m1[h], i % ENTRIES, ptr)]
  {
  }

  /** process_inject_arguments: on success argc and argv of the process name the texts of the list in order. */
  method ProcessInjectArguments(k: Machine, p: Process, root: CommandArgument?, ghost nodes: seq<CommandArgument>, ghost texts: seq<Str>)
    returns (res: int, ghost ptrs: seq<nat>)
    requires k.Valid() && p.Valid() && ProcOk(k.State(), p.Model())
    requires IsList(root, nodes) && NodesHold(nodes, texts)
    requires nodes != [] ==> POINTER_SIZE * |nodes| < WORD_LIMIT && Serves(k.State(), POINTER_SIZE * |nodes|)
    modifies k.heap`live, k.heap.entries, k.ram, p.allocations, p
    ensures k.Valid() && p.Valid() && ProcOk(k.State(), p.Model()) && OnlyOwn(old(k.State()), old(p.Model()), k.State(), p.Model())
    ensures nodes == [] ==> res == -EIO && k.State() == old(k.State()) && p.Model() == old(p.Model())
    ensures nodes != [] ==> res == if RoomFor(old(k.State()), old(p.Model()), |nodes|) then 0 else -ENOMEM
    ensures res == 0 ==>
      p.argc == |texts| == |ptrs| && Injected(k.State(), p.Model(), p.argv, p.argc, ptrs, texts)
    ensures res != 0 ==> p.argc == old(p.argc) && p.argv == old(p.argv)
  {
    hide HasRun, Unused, HT.FreeFrom, Refines, ProcOk, OnlyOwn, Footprint, HasAlloc, TakenFrame, Injected, Fits, BlocksFor, HoldsText, Serves;
    ghost var ks, proc := k.State(), p.Model();
    NothingDone(ks, proc);
    ptrs := [];
    var argc := CountCommandArguments(root, nodes);
    if argc == 0 {
      return -EIO, [];
    }
    var argv := Grant(k, p, POINTER_SIZE * argc);
    if argv == 0 {
      return -ENOMEM, [];
    }
    InjectionStarts(k.State(), p.Model(), argv, argc, texts);
    var current, i := root, 0;
    while current != null
      invariant 0 <= i == |ptrs| <= argc && current == if i < argc then nodes[i] else null
      invariant k.Valid() && p.Valid() && Injected(k.State(), p.Model(), argv, argc, ptrs, texts)
      invariant OnlyOwn(ks, proc, k.State(), p.Model())
      invariant IsList(root, nodes) && p.argc == old(p.argc) && p.argv == old(p.argv)
      invariant Used(ks, proc, k.State(), p.Model(), BlocksFor(POINTER_SIZE * argc) + i, 1 + i)
      decreases argc - i
    {
      ghost var ks1, proc1 := k.State(), p.Model();
      var argumentStr := InjectOne(k, p, argv, i, current, argc, ptrs, texts);
      OnlyOwnAgain(ks, proc, ks1, proc1, k.State(), p.Model());
      if argumentStr == 0 {
        return -ENOMEM, ptrs;
      }
      ptrs := ptrs + [argumentStr];
      current := current.next;
      i := i + 1;
    }
    InjectedParts(k.State(), p.Model(), argv, argc, ptrs, texts);
    p.argc := argc;
    p.argv := argv;
    res := 0;
  }

  // ---------------------------------------------------------------- what the process sees

  lemma {:induction false} BytesAreString(m: Ram, view: P.View, virt: nat, n: nat, t: Str)
    requires virt + n <= 0x1_0000_0000 && |t| < n && NUL !in t
    requires forall a: nat :: virt <= a < virt + |t| ==> TC.Peek(m, P.Translate(view, a)) == t[a - virt]
    requires TC.Peek(m, P.Translate(view, virt + |t|)) == NUL
    ensures TC.TaskString(m, view, virt, n) == t
    decreases n
  {
    hide TC.Peek, P.Translate;
    if t != [] {
      assert TC.Peek(m, P.Translate(view, virt)) == t[virt - virt];
      BytesAreString(m, view, virt + 1, n - 1, t[1..]);
    }
  }

  lemma PageByte(m: Ram, view: P.View, f: nat, j: nat)
    requires f < FRAMES && j < PAGE_SIZE && P.Frame(view[f]) == f
    ensures f * PAGE_SIZE + j < 0x1_0000_0000
    ensures TC.Peek(m, P.Translate(view, f * PAGE_SIZE + j)) == m[f][j]
  {
  }

  lemma OwnedPageIsSelf(ks: KState, p: Proc, a: Alloc, g: nat)
    requires Ok(ks) && p.chunk < FRAMES && ProcOk(ks, p) && HasAlloc(p, a) && InRun(a, g)
    ensures g < FRAMES && ViewAt(ks.mem, p.chunk)[g] == g * PAGE_SIZE + P.USER_WRITE
  {
    hide BlocksFor, SpaceAt, ViewAt, Footprint, InRun, SlotsOk, Open;
    AllocPages(ks, p, a, g);
    var k :| 0 <= k < |p.allocs| && p.allocs[k] == a;
    assert Owns(p.allocs, g);
  }

  /**
    In its own address space the process reads each injected text as the string at its pointer,
    and finds the pointers in order in the table at argv; all these pages are its own.
   */
  lemma ProcessSeesArguments(ks: KState, p: Proc, argv: nat, argc: nat, ptrs: seq<nat>, texts: seq<Str>, i: nat)
    requires Ok(ks) && p.chunk < FRAMES && Injected(ks, p, argv, argc, ptrs, texts) && i < |ptrs|
    ensures ptrs[i] + ARGUMENT_SIZE <= 0x1_0000_0000 && argv / PAGE_SIZE + i / ENTRIES < FRAMES
    ensures TC.TaskString(ks.mem, ViewAt(ks.mem, p.chunk), ptrs[i], ARGUMENT_SIZE) == texts[i]
    ensures PointerAt(ks.mem, argv, i) == ptrs[i]
    ensures var g := argv / PAGE_SIZE + i / ENTRIES; ViewAt(ks.mem, p.chunk)[g] == g * PAGE_SIZE + P.USER_WRITE
  {
    hide ProcOk, Refines, InRun, ViewAt, WordAt, BlocksFor, HasAlloc, TC.Peek, P.Translate, TC.TaskString;
    var t, f, view := texts[i], ptrs[i] / PAGE_SIZE, ViewAt(ks.mem, p.chunk);
    PointerPage(ks, p, argv, argc, i);
    OwnedPageIsSelf(ks, p, Alloc(argv, POINTER_SIZE * argc), argv / PAGE_SIZE + i / ENTRIES);
    StringPage(ks, p, ptrs[i]);
    OwnedPageIsSelf(ks, p, StringAlloc(ptrs[i]), f);
    StringInPage(ks.mem, view, ptrs[i], t);
  }

  lemma StringInPage(m: Ram, view: P.View, ptr: nat, t: Str)
    requires ptr % PAGE_SIZE == 0 && ptr / PAGE_SIZE < FRAMES && StringAt(m, ptr, t)
    requires view[ptr / PAGE_SIZE] == ptr / PAGE_SIZE * PAGE_SIZE + P.USER_WRITE
    ensures ptr + ARGUMENT_SIZE <= 0x1_0000_0000 && TC.TaskString(m, view, ptr, ARGUMENT_SIZE) == t
  {
    hide TC.Peek, P.Translate, TC.TaskString;
    var f := ptr / PAGE_SIZE;
    var page := m[f];
    assert forall j :: 0 <= j <= |t| ==> page[..|t| + 1][j] == page[j];
    forall a: nat | ptr <= a < ptr + |t| ensures TC.Peek(m, P.Translate(view, a)) == t[a - ptr] {
      PageByte(m, view, f, a - ptr);
      assert (t + [NUL])[a - ptr] == t[a - ptr];
    }
    PageByte(m, view, f, |t|);
    assert (t + [NUL])[|t|] == NUL;
    BytesAreString(m, view, ptr, ARGUMENT_SIZE, t);
  }
}
