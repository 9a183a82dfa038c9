/**
  What user code reaches: the results on address spaces, told by the processor's walk through directory and
  tables, with the rights of both entries.
 */
module UserAccess {
  import opened HeapTable
  import opened Memory
  import opened KernelState
  import opened Mmu
  import opened AddressSpace
  import opened ProcessMemory
  import opened ProgramImage
  import opened Ownership
  import opened Tokens
  import opened AllocationRoom
  import opened Arguments
  import I = Isolation
  import P = Paging
  import TC = TaskCopy

  /** The walk of the task whose chunk structure lies in frame c: its first word is the address of the directory. */
  function Reach(m: Ram, c: nat, address: Word, user: bool, write: bool): Access
    requires c < 0x10_0000
  {
    Walk(m, Fetch(m, c, 0) / 0x1000, address, user, write)
  }

  /** With an open directory the entry of the page decides. */
  lemma ReachIsView(m: Ram, c: nat, address: Word, user: bool, write: bool)
    requires c < FRAMES && Open(m, c)
    ensures Reach(m, c, address, user, write) == EntryAccess(ViewAt(m, c)[address / PAGE_SIZE], 7, address, user, write)
  {
    hide DirectoryIs, Walk, Fetch;
    FetchIs(m, c, 0);
    WalkIsView(m, Dir(m, c), 7, address, user, write);
  }

  lemma ProcReach(ks: KState, p: Proc, address: Word, user: bool, write: bool)
    requires ProcOk(ks, p)
    ensures p.chunk < FRAMES
    ensures Reach(ks.mem, p.chunk, address, user, write) == EntryAccess(ViewAt(ks.mem, p.chunk)[address / PAGE_SIZE], 7, address, user, write)
  {
    hide SpaceAt, Footprint, ViewAt, SlotsOk, WindowOk, Open, Reach, EntryAccess;
    ProcSpace(ks, p);
    ReachIsView(ks.mem, p.chunk, address, user, write);
  }

  /** An entry taken apart by its bits. */
  lemma EntryOf(f: nat, low: nat, address: Word, user: bool, write: bool)
    requires f < FRAMES && low < 8
    ensures EntryAccess(f * PAGE_SIZE + low, 7, address, user, write) ==
      if low % 2 == 0 || (user && low / 4 == 0) || (user && write && low / 2 % 2 == 0) then Fault
      else Physical(f * PAGE_SIZE + address % PAGE_SIZE)
  {
    Bits(f, low);
  }

  lemma FrameOfEntry(f: nat, low: nat)
    requires low < PAGE_SIZE
    ensures (f * PAGE_SIZE + low) / 0x1000 == f
  {
  }

  lemma Halves(f: nat, low: nat)
    requires low < 8
    ensures var e := f * PAGE_SIZE + low; e % 2 == low % 2 && e / 2 % 2 == low / 2 % 2 && e / 4 % 2 == low / 4
  {
    HalvesOf(512 * f, low);
  }

  lemma HalvesOf(k: nat, low: nat)
    requires low < 8
    ensures var e := 8 * k + low; e % 2 == low % 2 && e / 2 % 2 == low / 2 % 2 && e / 4 % 2 == low / 4
  {
    assert (8 * k + low) / 2 == 4 * k + low / 2 && (8 * k + low) / 4 == 2 * k + low / 4;
  }

  lemma Bits(f: nat, low: nat)
    requires f < FRAMES && low < 8
    ensures var e := f * PAGE_SIZE + low; e / 0x1000 == f && e % 2 == low % 2 && e / 2 % 2 == low / 2 % 2 && e / 4 % 2 == low / 4
  {
    FrameOfEntry(f, low);
    Halves(f, low);
  }

  // ---------------------------------------------------------------- allocations

  /** Every byte of an allocation is reached at its own address, for reading and writing. */
  lemma OwnedIsReached(sys: System, i: nat, k: nat, address: Word, user: bool, write: bool)
    requires Inv(sys) && I.Holds(sys, i, k, address / PAGE_SIZE)
    ensures i < |sys.procs| && sys.procs[i].chunk < FRAMES
    ensures Reach(sys.ks.mem, sys.procs[i].chunk, address, user, write) == Physical(address)
  {
    hide Inv, ProcOk, InRun, ViewAt, Reach, EntryAccess, Refines, Claims, OwnsRun;
    var g := address / PAGE_SIZE;
    I.HoldsIsLive(sys, i, k, g);
    I.InvParts(sys, i);
    assert Owns(sys.procs[i].allocs, g);
    I.OwnedEntry(sys.ks, sys.procs[i], g);
    ProcReach(sys.ks, sys.procs[i], address, user, write);
    EntryOf(g, 7, address, user, write);
  }

  /** Every byte that process_malloc has just granted reads 0 through the tables of the process. */
  lemma GrantedReadsZero(ks: KState, p: Proc, size: nat, a: Word, write: bool)
    requires Serves(ks, size) && p.chunk < FRAMES && ProcOk(ks, p) && ProcessMalloc(ks, p, size).ptr != 0
    requires var o := ProcessMalloc(ks, p, size); o.ptr <= a < o.ptr + size
    ensures var o := ProcessMalloc(ks, p, size);
      && Reach(o.ks.mem, p.chunk, a, true, write) == Physical(a)
      && o.ks.mem[a / 0x1000][a % 0x1000] == 0
  {
    hide Refines, ProcOk, Zalloc, StartBlock, Fits, BlocksFor, FreeSlot, MapSelf, Reach, EntryAccess, ViewAt, Footprint, OwnedFrames, ProcessMemory.Granted, Refused, InRun;
    MallocKeepsProc(ks, p, size);
    var o := ProcessMalloc(ks, p, size);
    GrantedPage(ks, p, size, a);
    ProcReach(o.ks, o.proc, a, true, write);
    I.OwnedEntry(o.ks, o.proc, a / PAGE_SIZE);
    EntryOf(a / PAGE_SIZE, 7, a, true, write);
    GrantedByte(ks, p, size, a);
  }

  lemma GrantedPage(ks: KState, p: Proc, size: nat, a: Word)
    requires Serves(ks, size) && p.chunk < FRAMES && ProcOk(ks, p) && ProcessMalloc(ks, p, size).ptr != 0
    requires var o := ProcessMalloc(ks, p, size); o.ptr <= a < o.ptr + size
    ensures var o := ProcessMalloc(ks, p, size);
      && Owns(o.proc.allocs, a / PAGE_SIZE) && HEAP_FRAME <= a / PAGE_SIZE < HEAP_FRAME + HEAP_BLOCKS
  {
    hide Refines, ProcOk, Zalloc, StartBlock, Fits, FreeSlot, MapSelf, ViewAt, Footprint, OwnedFrames, FreeRun;
    MallocKeepsProc(ks, p, size);
    ZallocFacts(ks, size);
    var o, i := ProcessMalloc(ks, p, size), FreeSlot(p.allocs);
    AlignUpperIsLeastMultiple(size);
    assert o.proc.allocs[i] == Alloc(o.ptr, size) && InRun(o.proc.allocs[i], a / PAGE_SIZE);
  }

  lemma GrantedByte(ks: KState, p: Proc, size: nat, a: Word)
    requires Serves(ks, size) && p.chunk < FRAMES && ProcOk(ks, p) && ProcessMalloc(ks, p, size).ptr != 0
    requires var o := ProcessMalloc(ks, p, size); o.ptr <= a < o.ptr + size
    ensures ProcessMalloc(ks, p, size).ks.mem[a / 0x1000][a % 0x1000] == 0
  {
    hide Refines, ProcOk, Zalloc, StartBlock, Fits, BlocksFor, FreeSlot, MapSelf, ViewAt, Footprint, OwnedFrames, FreeRun, SpaceAt, SlotsOk, WindowOk;
    ZallocFacts(ks, size);
    ZallocKeepsProc(ks, p, size);
    RunInHeap(ks, size);
    var s, ks1 := StartBlock(ks.table, BlocksFor(size)), Zalloc(ks, size);
    var f, g := HEAP_FRAME + s, a / PAGE_SIZE;
    assert (g - f) * 0x1000 + a % 0x1000 == a - f * PAGE_SIZE;
    MapSelfElsewhere(ks1, p, f * PAGE_SIZE, size, g, ks, s);
  }

  /** The new run is none of the page tables, so mapping it does not write to it. */
  lemma MapSelfElsewhere(ks1: KState, p: Proc, ptr: nat, size: nat, g: nat, ks: KState, s: nat)
    requires Ok(ks) && Ok(ks1) && p.chunk < FRAMES && ProcOk(ks, p) && ProcOk(ks1, p) && ptr == (HEAP_FRAME + s) * PAGE_SIZE
    requires Claims(ks1.mem, p) == Claims(ks.mem, p) && 0 < size <= 0xFFFF_F000 && ptr + size <= 0xFFFF_F000
    requires HEAP_FRAME + s <= g && (g - HEAP_FRAME - s) * PAGE_SIZE < size && s + BlocksFor(size) <= HEAP_BLOCKS
    requires forall b: nat, k: nat :: Covers(ks.live, b, k) ==> !(s <= k < s + BlocksFor(size))
    ensures g < FRAMES && MapSelf(ks1.mem, p.chunk, ptr, size, P.USER_WRITE)[g] == ks1.mem[g]
  {
    hide Refines, MapMem, MapSelf, P.MapPages, ViewAt, P.Tables, OwnedFrames, SlotsOk, WindowOk, Open;
    AlignUpperIsLeastMultiple(size);
    MapSelfPages(ks1.mem, p.chunk, ptr, size, P.USER_WRITE);
    ProcSpace(ks1, p);
    MapKeepsSpace(ks1.mem, p.chunk, ptr / PAGE_SIZE, ptr / PAGE_SIZE, BlocksFor(size), P.USER_WRITE);
    TablesInFootprint(ks1.mem, p.chunk);
    if g in P.Tables(ks1.mem, Dir(ks1.mem, p.chunk)) {
      assert g in Claims(ks1.mem, p);
      ClaimsAreLive(ks, p, g);
      LiveCoversItself(ks, g - HEAP_FRAME);
    }
  }

  /** After process_free no byte of the allocation can be reached by anybody. */
  lemma FreedFaults(ks: KState, p: Proc, k: nat, address: Word, user: bool, write: bool)
    requires Ok(ks) && p.chunk < FRAMES && ProcOk(ks, p) && k < |p.allocs| && InRun(p.allocs[k], address / PAGE_SIZE)
    ensures AllOwn(ks.live, p.allocs) && p.allocs[k].ptr != 0
    ensures var o := ProcessFree(ks, p, p.allocs[k].ptr);
      Reach(o.ks.mem, p.chunk, address, user, write) == Fault
  {
    hide Refines, ProcOk, MapSelf, Reach, EntryAccess, ViewAt, Footprint, OwnedFrames, SlotOf, MarkFree, BlocksFor;
    var a, g := p.allocs[k], address / PAGE_SIZE;
    FreeKeepsProc(ks, p, a.ptr);
    SlotOwns(ks, p, k);
    var o := ProcessFree(ks, p, a.ptr);
    ProcReach(o.ks, o.proc, address, user, write);
    EntryOf(g, 0, address, user, write);
  }

  // ---------------------------------------------------------------- isolation

  /**
    Isolation, by what the processor lets user code do: no byte that one process can write can be written by
    another, and none lies in a page table of either.
   */
  lemma NoByteWritableTwice(o: Owned, i: nat, j: nat, a: Word, b: Word)
    requires OInv(o) && i < |o.sys.procs| && j < |o.sys.procs| && i != j
    ensures o.sys.procs[i].chunk < FRAMES && o.sys.procs[j].chunk < FRAMES
    ensures var m, c, d := o.sys.ks.mem, o.sys.procs[i].chunk, o.sys.procs[j].chunk;
      var x, y := Reach(m, c, a, true, true), Reach(m, d, b, true, true);
      && (x.Physical? && y.Physical? ==> x.address / 0x1000 != y.address / 0x1000)
      && (x.Physical? ==> x.address / 0x1000 !in Footprint(m, c) + Footprint(m, d))
  {
    hide OInv, ProcOk, Footprint, ViewAt, Reach, HeldOk, WritesOk;
    Parts(o, i);
    Parts(o, j);
    NoFrameWritableTwice(o, i, j, a / PAGE_SIZE, b / PAGE_SIZE);
    ProcReach(o.sys.ks, o.sys.procs[i], a, true, true);
    ProcReach(o.sys.ks, o.sys.procs[j], b, true, true);
    WrittenEntry(ViewAt(o.sys.ks.mem, o.sys.procs[i].chunk)[a / PAGE_SIZE], a);
    WrittenEntry(ViewAt(o.sys.ks.mem, o.sys.procs[j].chunk)[b / PAGE_SIZE], b);
  }

  lemma WrittenEntry(e: Word, a: Word)
    ensures var x := EntryAccess(e, 7, a, true, true); x.Physical? ==> P.IsWriteable(e) && x.address / 0x1000 == P.Frame(e)
  {
  }

  // ---------------------------------------------------------------- image and stack

  /** After process_map_memory the view of image and stack is what the processor walks. */
  lemma ImageIsReached(m: Ram, c: nat, image: Image, stack: nat, address: Word, user: bool, write: bool)
    requires SpaceAt(m, c) && c < FRAMES && Open(m, c) && ImageOk(image) && stack % PAGE_SIZE == 0 && stack + STACK_SIZE <= 0xFFFF_F000
    ensures Reach(MapImageMem(m, c, image, stack), c, address, user, write)
      == EntryAccess(MapImage(ViewAt(m, c), image, stack)[address / PAGE_SIZE], 7, address, user, write)
  {
    hide SpaceAt, ViewAt, Footprint, MapImageMem, MapImage, ImageOk, Reach, EntryAccess, Dir, DirectoryIs, WordAt, Open;
    MapImageRemaps(m, c, image, stack);
    StillOpen(m, MapImageMem(m, c, image, stack), c, MapImage(ViewAt(m, c), image, stack));
    ReachIsView(MapImageMem(m, c, image, stack), c, address, user, write);
  }

  lemma StillOpen(m: Ram, r: Ram, c: nat, view: P.View)
    requires c < FRAMES && Open(m, c) && Remapped(m, r, c, view)
    ensures Open(r, c) && ViewAt(r, c) == view
  {
    hide SpaceAt, ViewAt, Footprint, Dir, WordAt;
  }

  /** The outcome of a present entry that is open to user code. */
  lemma FromTranslation(view: P.View, a: Word, user: bool, write: bool)
    requires P.IsPresent(view[a / PAGE_SIZE]) && P.IsUser(view[a / PAGE_SIZE])
    ensures EntryAccess(view[a / PAGE_SIZE], 7, a, user, write) ==
      if user && write && !P.IsWriteable(view[a / PAGE_SIZE]) then Fault else Physical(P.Translate(view, a))
  {
  }

  /** Every byte of a congruent, separate segment: at its place in the file, and writable exactly with PF_W. */
  lemma SegmentIsReached(m: Ram, c: nat, elf: nat, phdrs: seq<Phdr>, stack: nat, i: nat, a: Word, user: bool, write: bool)
    requires SpaceAt(m, c) && c < FRAMES && Open(m, c) && ImageOk(Elf(elf, phdrs)) && Separate(elf, phdrs)
    requires stack % PAGE_SIZE == 0 && stack + STACK_SIZE <= 0xFFFF_F000
    requires i < |phdrs| && Congruent(phdrs[i]) && phdrs[i].vaddr <= a < phdrs[i].vaddr + phdrs[i].memsz
    ensures 0 <= elf + phdrs[i].offset + (a - phdrs[i].vaddr) < 0x1_0000_0000
    ensures Reach(MapImageMem(m, c, Elf(elf, phdrs), stack), c, a, user, write) ==
      if user && write && phdrs[i].flags / 2 % 2 == 0 then Fault else Physical(elf + phdrs[i].offset + (a - phdrs[i].vaddr))
  {
    hide SpaceAt, ViewAt, Open, Reach, ImageOk, Separate, MapImage, MapImageMem, EntryAccess, P.Translate, P.IsPresent, P.IsUser, P.IsWriteable;
    var image := Elf(elf, phdrs);
    ImageIsReached(m, c, image, stack, a, user, write);
    SegmentTranslates(ViewAt(m, c), elf, phdrs, stack, i, a);
    FromTranslation(MapImage(ViewAt(m, c), image, stack), a, user, write);
  }

  /** The 16 KB below 0x3FF000 are the stack, writable, whatever the image. */
  lemma StackIsReached(m: Ram, c: nat, image: Image, stack: nat, a: Word, user: bool, write: bool)
    requires SpaceAt(m, c) && c < FRAMES && Open(m, c) && ImageOk(image) && stack % PAGE_SIZE == 0 && stack + 0x4000 <= 0xFFFF_F000
    requires 0x3F_B000 <= a < 0x3F_F000
    ensures Reach(MapImageMem(m, c, image, stack), c, a, user, write) == Physical(stack + (a - 0x3F_B000))
  {
    hide SpaceAt, ViewAt, Open, Reach, ImageOk, MapImage, MapImageMem, EntryAccess, P.Translate, P.IsPresent, P.IsUser, P.IsWriteable;
    ImageIsReached(m, c, image, stack, a, user, write);
    StackTranslates(ViewAt(m, c), image, stack, a);
    FromTranslation(MapImage(ViewAt(m, c), image, stack), a, user, write);
  }

  /** A flat binary, from 0x400000 on. */
  lemma BinaryIsReached(m: Ram, c: nat, ptr: nat, size: nat, stack: nat, a: Word, user: bool, write: bool)
    requires SpaceAt(m, c) && c < FRAMES && Open(m, c) && ImageOk(Binary(ptr, size))
    requires stack % PAGE_SIZE == 0 && stack + STACK_SIZE <= 0xFFFF_F000 && 0x40_0000 <= a < 0x40_0000 + size
    ensures 0 <= ptr + (a - 0x40_0000) < 0x1_0000_0000
    ensures Reach(MapImageMem(m, c, Binary(ptr, size), stack), c, a, user, write) == Physical(ptr + (a - 0x40_0000))
  {
    hide SpaceAt, ViewAt, Open, Reach, MapImage, MapImageMem, EntryAccess, P.Translate, P.IsPresent, P.IsUser, P.IsWriteable;
    ImageIsReached(m, c, Binary(ptr, size), stack, a, user, write);
    BinaryTranslates(ViewAt(m, c), ptr, size, stack, a);
    FromTranslation(MapImage(ViewAt(m, c), Binary(ptr, size), stack), a, user, write);
  }

  /** In a new process every other address reads as itself and cannot be written. */
  lemma OtherIsReadOnly(m: Ram, c: nat, image: Image, stack: nat, a: Word)
    requires SpaceAt(m, c) && c < FRAMES && Open(m, c) && ImageOk(image) && stack % PAGE_SIZE == 0 && stack + STACK_SIZE <= 0xFFFF_F000
    requires ViewAt(m, c) == P.Identity(P.USER_READ) && !InImage(image, a / 0x1000) && !(0x3F_B000 <= a < 0x3F_F000)
    ensures var r := MapImageMem(m, c, image, stack);
      Reach(r, c, a, true, false) == Physical(a) && Reach(r, c, a, true, true) == Fault
  {
    hide SpaceAt, ViewAt, Open, Reach, ImageOk, InImage, MapImage, MapImageMem, EntryAccess, P.Identity, P.IsPresent, P.IsUser, P.IsWriteable;
    var view := MapImage(ViewAt(m, c), image, stack);
    ImageIsReached(m, c, image, stack, a, true, false);
    ImageIsReached(m, c, image, stack, a, true, true);
    OtherPagesStayReadOnly(image, stack, a / PAGE_SIZE);
    FromTranslation(view, a, true, false);
    FromTranslation(view, a, true, true);
  }

  /**
    The string that copy_string_from_task copies, byte by byte and with its NUL, is what the task's tables show
    to the kernel, wherever the walk does not fault.
   */
  lemma TaskStringIsReached(m: Ram, c: nat, virt: nat, n: nat, i: nat)
    requires c < FRAMES && SpaceAt(m, c) && Open(m, c) && virt + n <= 0x1_0000_0000 && i < n
    requires Reach(m, c, virt + i, false, false) != Fault
    ensures var s, a := TC.TaskString(m, ViewAt(m, c), virt, n), Reach(m, c, virt + i, false, false).address;
      && (i < |s| ==> m[a / 0x1000][a % 0x1000] == s[i] && s[i] != 0)
      && (i == |s| ==> m[a / 0x1000][a % 0x1000] == 0)
  {
    hide SpaceAt, ViewAt, Open, Reach, TC.TaskString;
    ReachIsView(m, c, virt + i, false, false);
    TC.TaskStringAt(m, ViewAt(m, c), virt, n, i);
  }

  // ---------------------------------------------------------------- arguments

  /** A byte of an allocation is reached at its own address. */
  lemma AllocIsReached(ks: KState, p: Proc, a: Alloc, address: Word, user: bool, write: bool)
    requires Ok(ks) && p.chunk < FRAMES && ProcOk(ks, p) && HasAlloc(p, a) && InRun(a, address / PAGE_SIZE)
    ensures Reach(ks.mem, p.chunk, address, user, write) == Physical(address)
  {
    hide ProcOk, Refines, InRun, ViewAt, HasAlloc, Reach, EntryAccess;
    OwnedPageIsSelf(ks, p, a, address / PAGE_SIZE);
    ProcReach(ks, p, address, user, write);
    EntryOf(address / PAGE_SIZE, 7, address, user, write);
  }

  /** User code finds the i-th pointer in the four bytes at argv + 4 * i. */
  lemma PointerIsReached(ks: KState, p: Proc, argv: nat, argc: nat, ptrs: seq<nat>, texts: seq<Str>, i: nat, k: nat, write: bool)
    requires Ok(ks) && p.chunk < FRAMES && Injected(ks, p, argv, argc, ptrs, texts) && i < |ptrs| && k < 4
    ensures var a := argv + 4 * i;
      && a + k < 0x1_0000_0000 && a % 4 == 0
      && Reach(ks.mem, p.chunk, a + k, true, write) == Physical(a + k)
      && Fetch(ks.mem, a / 0x1000, a % 0x1000 / 4) == ptrs[i]
  {
    hide ProcOk, Refines, InRun, HasAlloc, Reach, WordAt, Fetch, StringAt, BlocksFor;
    PointerPage(ks, p, argv, argc, i);
    PointerPlace(argv, i, k);
    AllocIsReached(ks, p, Alloc(argv, POINTER_SIZE * argc), argv + 4 * i + k, true, write);
    FetchIs(ks.mem, argv / PAGE_SIZE + i / ENTRIES, i % ENTRIES);
  }

  lemma ByteOfWord(frame: nat, r: nat, k: nat)
    requires frame < FRAMES && r < ENTRIES && k < 4
    ensures var a := frame * PAGE_SIZE + (4 * r + k); a < 0x1_0000_0000 && a / 0x1000 == frame && a % 0x1000 / 4 == r
  {
    InFrame(frame, 4 * r + k);
    Quarter(r, k);
  }

  lemma Quarter(r: nat, k: nat)
    requires k < 4
    ensures (4 * r + k) / 4 == r && 4 * r % 4 == 0
  {
  }

  lemma InFrame(frame: nat, at: nat)
    requires at < PAGE_SIZE
    ensures (frame * PAGE_SIZE + at) / 0x1000 == frame && (frame * PAGE_SIZE + at) % 0x1000 == at
  {
  }

  lemma PointerPlace(argv: nat, i: nat, k: nat)
    requires argv % PAGE_SIZE == 0 && k < 4 && argv / PAGE_SIZE + i / ENTRIES < FRAMES
    ensures var a := argv + 4 * i;
      && a + k < 0x1_0000_0000 && a % 4 == 0
      && (a + k) / PAGE_SIZE == argv / PAGE_SIZE + i / ENTRIES && a / 0x1000 == (a + k) / PAGE_SIZE && a % 0x1000 / 4 == i % ENTRIES
  {
    var q, r := i / ENTRIES, i % ENTRIES;
    ByteOfWord(argv / PAGE_SIZE + q, r, 0);
    ByteOfWord(argv / PAGE_SIZE + q, r, k);
    Quarter(argv / PAGE_SIZE * 1024 + i, 0);
    assert argv + 4 * i == (argv / PAGE_SIZE + q) * PAGE_SIZE + (4 * r + 0);
  }

  /** User code reads the i-th text byte by byte at its pointer, and a NUL behind it. */
  lemma TextIsReached(ks: KState, p: Proc, argv: nat, argc: nat, ptrs: seq<nat>, texts: seq<Str>, i: nat, j: nat, write: bool)
    requires Ok(ks) && p.chunk < FRAMES && Injected(ks, p, argv, argc, ptrs, texts) && i < |ptrs| && j <= |texts[i]|
    ensures var a := ptrs[i] + j;
      && a < 0x1_0000_0000 && Reach(ks.mem, p.chunk, a, true, write) == Physical(a)
      && ks.mem[a / 0x1000][a % 0x1000] == if j < |texts[i]| then texts[i][j] else 0
  {
    hide ProcOk, Refines, InRun, HasAlloc, Reach, PointerAt, BlocksFor;
    StringPage(ks, p, ptrs[i]);
    TextPlace(ks.mem, ptrs[i], texts[i], j);
    AllocIsReached(ks, p, StringAlloc(ptrs[i]), ptrs[i] + j, true, write);
  }

  lemma TextPlace(m: Ram, ptr: nat, t: Str, j: nat)
    requires ptr % PAGE_SIZE == 0 && ptr / PAGE_SIZE < FRAMES && StringAt(m, ptr, t) && j <= |t|
    ensures ptr + j < 0x1_0000_0000 && (ptr + j) / PAGE_SIZE == ptr / PAGE_SIZE
    ensures m[(ptr + j) / 0x1000][(ptr + j) % 0x1000] == if j < |t| then t[j] else 0
  {
    assert (ptr + j) % 0x1000 == j;
    assert m[ptr / PAGE_SIZE][..|t| + 1][j] == (t + [NUL])[j];
  }
}
