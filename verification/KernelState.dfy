/**
  The kernel's memory as one value: heap table, live runs, physical memory. Each service of
  kheap.c and paging.c is a function on this value; the methods of Machine.dfy equal them.
 */
module KernelState {
  import opened HeapTable
  import opened HeapTheory
  import opened Memory
  import P = Paging

  const HEAP_ADDRESS := 0x0100_0000
  const HEAP_FRAME := 0x1000
  const HEAP_BLOCKS := 25600

  /** Frame number of a heap block. */
  function FrameOf(block: nat): nat {
    HEAP_FRAME + block
  }

  /** Its address. */
  function AddressOf(block: nat): nat {
    FrameOf(block) * PAGE_SIZE
  }

  datatype KState = KState(table: seq<Entry>, live: map<nat, nat>, mem: Ram)

  ghost predicate Ok(ks: KState) {
    |ks.table| == HEAP_BLOCKS && Refines(ks.table, ks.live)
  }

  /** The same live runs have the same table. */
  lemma LiveDeterminesTable(a: KState, b: KState)
    requires Ok(a) && Ok(b) && a.live == b.live
    ensures a.table == b.table
  {
    forall k | 0 <= k < HEAP_BLOCKS ensures a.table[k] == b.table[k] {
      FreeMeansUncovered(a.table, a.live, k);
      FreeMeansUncovered(b.table, b.live, k);
    }
  }

  // ---------------------------------------------------------------- kheap.c

  /** kzalloc served by the run at block `s`: the run is live and its first `size` bytes are zero. */
  ghost function ZallocAt(ks: KState, s: nat, size: nat): KState
    requires size < WORD_LIMIT
  {
    var n := BlocksFor(size);
    KState(MarkTaken(ks.table, s, n), if n == 0 then ks.live else ks.live[s := n], ZeroFill(ks.mem, HEAP_FRAME + s, size))
  }

  ghost function Zalloc(ks: KState, size: nat): KState
    requires size < WORD_LIMIT
  {
    var s := StartBlock(ks.table, BlocksFor(size));
    if s < 0 then ks else ZallocAt(ks, s, size)
  }

  ghost function Release(ks: KState, s: nat): KState {
    KState(FreeAt(ks.table, s), ks.live - {s}, ks.mem)
  }

  /** The `size` bytes from the start of frame f on are 0. */
  ghost predicate Zeroed(m: Ram, f: nat, size: nat) {
    forall g: nat, i: nat :: f <= g < 0x10_0000 && i < 0x1000 && (g - f) * 0x1000 + i < size ==> m[g][i] == 0
  }

  /**
    A successful kzalloc of a positive size: a new live run that overlaps no other, the other
    runs as they were, and no memory changed outside its frames.
   */
  lemma ZallocFacts(ks: KState, size: nat)
    requires Ok(ks) && 0 < size <= 0xFFFF_F000 && Fits(ks.table, BlocksFor(size))
    ensures Ok(Zalloc(ks, size))
    ensures var n, s := BlocksFor(size), StartBlock(ks.table, BlocksFor(size));
      && n >= 1 && size <= n * BLOCK_SIZE < size + BLOCK_SIZE
      && (s >= 0 ==>
        && FreeRun(ks.table, s, n) && s + n <= HEAP_BLOCKS && s !in ks.live
        && Zalloc(ks, size).live == ks.live[s as nat := n]
        && (forall b: nat, k: nat :: Covers(ks.live, b, k) ==> !(s <= k < s + n))
        && (forall g: nat :: g < FRAMES && !(HEAP_FRAME + s <= g < HEAP_FRAME + s + n) ==> Zalloc(ks, size).mem[g] == ks.mem[g])
        && Zeroed(Zalloc(ks, size).mem, HEAP_FRAME + s, size))
  {
    var n, s := BlocksFor(size), StartBlock(ks.table, BlocksFor(size));
    AlignUpperIsLeastMultiple(size);
    FitsExactly(ks.table, n);
    if s >= 0 {
      TakeRefines(ks.table, ks.live, s, n);
      ZeroFillFrame(ks.mem, HEAP_FRAME + s, size, n);
      ZeroFillZeroes(ks.mem, HEAP_FRAME + s, size);
    }
  }

  lemma ZeroFillZeroes(m: Ram, f: nat, size: nat)
    ensures Zeroed(ZeroFill(m, f, size), f, size)
  {
  }

  lemma ZallocRefused(ks: KState, size: nat)
    requires size < WORD_LIMIT && StartBlock(ks.table, BlocksFor(size)) < 0
    ensures Zalloc(ks, size) == ks
  {
    hide StartBlock, BlocksFor;
  }

  /** kfree right after kzalloc leaves the heap as before; only the bytes of free blocks differ. */
  lemma ZallocThenRelease(ks: KState, size: nat)
    requires Ok(ks) && 0 < size <= 0xFFFF_F000 && Fits(ks.table, BlocksFor(size))
    requires StartBlock(ks.table, BlocksFor(size)) >= 0
    ensures var r := Release(Zalloc(ks, size), StartBlock(ks.table, BlocksFor(size)));
      r.table == ks.table && r.live == ks.live
  {
    ZallocFacts(ks, size);
    TakeThenFree(ks.table, ks.live, StartBlock(ks.table, BlocksFor(size)), BlocksFor(size));
  }

  lemma ReleaseOk(ks: KState, s: nat)
    requires Ok(ks) && s in ks.live
    ensures Ok(Release(ks, s)) && Release(ks, s).table == MarkFree(ks.table, s, ks.live[s])
  {
    FreeRefines(ks.table, ks.live, s);
  }

  // ---------------------------------------------------------------- paging.c

  /** `n` successive paging_map stores. */
  ghost function MapMem(m: Ram, d: nat, v: nat, f: nat, n: nat, flags: nat): Ram
    requires d < FRAMES && v + n <= FRAMES && f + n <= FRAMES && flags < PAGE_SIZE
  {
    if n == 0 then m
    else P.SetPte(MapMem(m, d, v, f, n - 1, flags), d, v + n - 1, (f + n - 1) * PAGE_SIZE + flags)
  }

  lemma MapMemStep(m: Ram, d: nat, v: nat, f: nat, n: nat, flags: nat)
    requires d < FRAMES && v + n < FRAMES && f + n < FRAMES && flags < PAGE_SIZE
    ensures MapMem(m, d, v, f, n + 1, flags)
      == P.SetPte(MapMem(m, d, v, f, n, flags), d, v + n, (f + n) * PAGE_SIZE + flags)
  {
    hide P.SetPte;
  }

  /** The stores act on the flat view as one range mapping and touch only the directory's tables. */
  lemma {:induction false} MapMemView(m: Ram, d: nat, v: nat, f: nat, n: nat, flags: nat)
    requires d < FRAMES && P.Space(m, d) && v + n <= FRAMES && f + n <= FRAMES && flags < PAGE_SIZE
    ensures var r := MapMem(m, d, v, f, n, flags);
      && P.Space(r, d) && r[d] == m[d] && P.Tables(r, d) == P.Tables(m, d)
      && P.ViewOf(r, d) == P.MapPages(P.ViewOf(m, d), v, f, n, flags)
      && (forall g: nat :: g < FRAMES && g !in P.Tables(m, d) ==> r[g] == m[g])
  {
    hide P.ViewOf, P.Space, P.Tables, P.MapPages, P.SetPte, MapMem;
    if n == 0 {
      MapNothing(m, d, v, f, flags);
    } else {
      MapMemView(m, d, v, f, n - 1, flags);
      MapMemStep(m, d, v, f, n - 1, flags);
      P.SetPteView(MapMem(m, d, v, f, n - 1, flags), d, v + (n - 1), (f + (n - 1)) * PAGE_SIZE + flags);
      P.MapPagesStep(P.ViewOf(m, d), v, f, n - 1, flags);
    }
  }

  /** The i-th store of paging_map_range, in the addresses that its loop computes. */
  lemma MapRangeStep(m: Ram, d: nat, virt: Word, phys: Word, count: nat, flags: nat, i: nat)
    requires d < FRAMES && flags < PAGE_SIZE && i < count && P.IsAligned(virt) && P.IsAligned(phys)
    requires virt + count * PAGE_SIZE <= 0x1_0000_0000 && phys + count * PAGE_SIZE <= 0x1_0000_0000
    ensures var v, p := virt + i * PAGE_SIZE, phys + i * PAGE_SIZE;
      && P.IsAligned(v) && P.IsAligned(p) && v / PAGE_SIZE < FRAMES && p + flags < 0x1_0000_0000
      && virt / PAGE_SIZE + count <= FRAMES && phys / PAGE_SIZE + count <= FRAMES
      && MapMem(m, d, virt / PAGE_SIZE, phys / PAGE_SIZE, i + 1, flags)
        == P.SetPte(MapMem(m, d, virt / PAGE_SIZE, phys / PAGE_SIZE, i, flags), d, v / PAGE_SIZE, p + flags)
  {
    hide P.SetPte, MapMem;
    PageSteps(virt, i);
    PageSteps(phys, i);
    PageSteps(virt, count);
    PageSteps(phys, count);
    MapMemStep(m, d, virt / PAGE_SIZE, phys / PAGE_SIZE, i, flags);
  }

  lemma MapNothing(m: Ram, d: nat, v: nat, f: nat, flags: nat)
    requires d < FRAMES && v <= FRAMES && f <= FRAMES && flags < PAGE_SIZE
    ensures MapMem(m, d, v, f, 0, flags) == m
    ensures P.MapPages(P.ViewOf(m, d), v, f, 0, flags) == P.ViewOf(m, d)
  {
  }

  /** The argument check of paging_map_to. */
  predicate MapArgumentsOk(virt: Word, phys: Word, physEnd: Word) {
    P.IsAligned(virt) && P.IsAligned(phys) && P.IsAligned(physEnd) && phys <= physEnd
  }

  ghost function MapTo(m: Ram, d: nat, virt: Word, phys: Word, physEnd: Word, flags: nat): Ram
    requires d < FRAMES && flags < PAGE_SIZE
    requires MapArgumentsOk(virt, phys, physEnd) ==> virt + (physEnd - phys) <= 0x1_0000_0000
  {
    if MapArgumentsOk(virt, phys, physEnd)
    then MapMem(m, d, virt / PAGE_SIZE, phys / PAGE_SIZE, (physEnd - phys) / PAGE_SIZE, flags)
    else m
  }

  /**
    paging_map_to: every byte of the range translates into the physical range with the given
    flags, every other page keeps its entry; refused arguments change nothing.
   */
  lemma MapToTranslates(m: Ram, d: nat, virt: Word, phys: Word, physEnd: Word, flags: nat, a: Word)
    requires d < FRAMES && P.Space(m, d) && flags < PAGE_SIZE
    requires MapArgumentsOk(virt, phys, physEnd) ==> virt + (physEnd - phys) <= 0x1_0000_0000
    ensures var r := MapTo(m, d, virt, phys, physEnd, flags);
      && P.Space(r, d) && P.Tables(r, d) == P.Tables(m, d)
      && (if MapArgumentsOk(virt, phys, physEnd) && virt <= a < virt + (physEnd - phys) then
            && P.Translate(P.ViewOf(r, d), a) == phys + (a - virt)
            && P.Flags(P.ViewOf(r, d)[a / PAGE_SIZE]) == flags
          else P.ViewOf(r, d)[a / PAGE_SIZE] == P.ViewOf(m, d)[a / PAGE_SIZE])
      && (!MapArgumentsOk(virt, phys, physEnd) ==> r == m)
  {
    hide P.ViewOf, P.Space, P.Tables, P.MapPages, P.SetPte, MapMem;
    if MapArgumentsOk(virt, phys, physEnd) {
      MapMemView(m, d, virt / PAGE_SIZE, phys / PAGE_SIZE, (physEnd - phys) / PAGE_SIZE, flags);
      P.MapPagesTranslates(P.ViewOf(m, d), virt, phys, physEnd - phys, flags, a);
    }
  }
}
