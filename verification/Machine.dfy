/**
  The kernel's memory services over one physical memory: kheap.c on the block heap, and
  the page-table stores of paging.c. Every method is proved equal to its function on KState.
 */
module KernelMachine {
  import opened Status
  import opened HeapTable
  import opened BlockHeap
  import opened Memory
  import opened KernelState
  import P = Paging

  class Machine {
    const heap: Heap
    const ram: array<Page>

    ghost predicate Valid()
      reads this, heap, heap.entries, ram
    {
      && heap.Valid() && heap.saddr == HEAP_ADDRESS && heap.entries.Length == HEAP_BLOCKS
      && ram.Length == FRAMES
    }

    ghost function State(): (ks: KState)
      requires Valid()
      reads this, heap, heap.entries, ram
      ensures Ok(ks)
    {
      KState(heap.entries[..], heap.live, ram[..])
    }

    ghost function Mem(): Ram
      requires ram.Length == FRAMES
      reads ram
    {
      ram[..]
    }

    /** kheap_init over a cleared block table. */
    constructor (heap: Heap, ram: array<Page>)
      requires heap.Valid() && heap.saddr == HEAP_ADDRESS && heap.entries.Length == HEAP_BLOCKS && ram.Length == FRAMES
      ensures Valid() && this.heap == heap && this.ram == ram
    {
      this.heap := heap;
      this.ram := ram;
    }

    /** memset to zero of `size` bytes from a page-aligned address on. */
    method Clear(address: nat, size: nat)
      requires ram.Length == FRAMES && address % PAGE_SIZE == 0 && address + size <= FRAMES * PAGE_SIZE
      modifies ram
      ensures Mem() == ZeroFill(old(Mem()), address / PAGE_SIZE, size)
    {
      ghost var m, f := Mem(), address / PAGE_SIZE;
      ZeroFillNone(m, f);
      var i := 0;
      while i < size
        invariant 0 <= i <= size
        invariant Mem() == ZeroFill(m, f, i)
      {
        ZeroFillStep(m, f, i);
        var g := (address + i) / PAGE_SIZE;
        assert g == f + i / PAGE_SIZE && (address + i) % PAGE_SIZE == i % PAGE_SIZE;
        ram[g] := ram[g][(address + i) % PAGE_SIZE := 0];
        i := i + 1;
      }
    }

    /** kzalloc: null exactly when the first-fit search refuses. */
    method KZalloc(size: nat) returns (address: nat)
      requires Valid() && size <= 0xFFFF_F000 && Fits(heap.entries[..], BlocksFor(size))
      modifies heap`live, heap.entries, ram
      ensures Valid() && State() == Zalloc(old(State()), size)
      ensures var s := StartBlock(old(State()).table, BlocksFor(size));
        address == if s < 0 then 0 else 0x100_0000 + s * 0x1000
      ensures address != 0 && size > 0 ==> forall g: nat, i: nat ::
        address / 0x1000 <= g < 0x10_0000 && i < 0x1000 && (g - address / 0x1000) * 0x1000 + i < size ==> Mem()[g][i] == 0
    {
      hide ZeroFill, MarkTaken, StartBlock, FreeRun, HasRun;
      AlignUpperIsLeastMultiple(size);
      FitsExactly(heap.entries[..], BlocksFor(size));
      address := heap.Malloc(size);
      if address == 0 { return; }
      ZeroFillZeroes(Mem(), address / PAGE_SIZE, size);
      Clear(address, size);
    }

    method KFree(ptr: nat)
      requires Valid() && HEAP_ADDRESS <= ptr && (ptr - HEAP_ADDRESS) / BLOCK_SIZE in heap.live
      modifies heap`live, heap.entries
      ensures Valid() && State() == Release(old(State()), (ptr - HEAP_ADDRESS) / BLOCK_SIZE)
    {
      heap.Free(ptr);
    }

    // ---------------------------------------------------------------- paging.c

    /** paging_set: one word of one table, or an error and no change. */
    method PagingSet(directory: nat, virt: Word, val: Word) returns (res: int)
      requires ram.Length == FRAMES && directory < FRAMES
      modifies ram
      ensures res == if P.IsAligned(virt) then 0 else -EINVARG
      ensures Mem() == if res == 0 then P.SetPte(old(Mem()), directory, virt / PAGE_SIZE, val) else old(Mem())
    {
      if !P.IsAligned(virt) { return -EINVARG; }
      var (r, directoryIndex, tableIndex) := P.GetIndexes(virt);
      P.IndexSplitIsBijection(virt, directoryIndex, tableIndex);
      if r < 0 { return r; }
      var table := WordAt(ram[directory], directoryIndex) / PAGE_SIZE;
      ram[table] := SetWord(ram[table], tableIndex, val);
      return 0;
    }

    /** paging_get: the entry of the page; an unaligned address reads the entry of page 0. */
    method PagingGet(directory: nat, virt: Word) returns (entry: Word)
      requires ram.Length == FRAMES && directory < FRAMES
      ensures entry == P.ViewOf(Mem(), directory)[if P.IsAligned(virt) then virt / PAGE_SIZE else 0]
    {
      var (_, directoryIndex, tableIndex) := P.GetIndexes(virt);
      P.IndexSplitIsBijection(virt, directoryIndex, tableIndex);
      var table := WordAt(ram[directory], directoryIndex) / PAGE_SIZE;
      entry := WordAt(ram[table], tableIndex);
    }

    method PagingGetPhysicalAddress(directory: nat, virt: Word) returns (phys: Word)
      requires ram.Length == FRAMES && directory < FRAMES
      ensures phys == P.Translate(P.ViewOf(Mem(), directory), virt)
    {
      var lower := P.AlignToLowerPage(virt);
      var difference := virt - lower;
      var entry := PagingGet(directory, lower);
      phys := entry / PAGE_SIZE * PAGE_SIZE + difference;
    }

    method PagingMap(directory: nat, virt: Word, phys: Word, flags: nat) returns (res: int)
      requires ram.Length == FRAMES && directory < FRAMES && flags < PAGE_SIZE
      modifies ram
      ensures res == if P.IsAligned(virt) && P.IsAligned(phys) then 0 else -EINVARG
      ensures Mem() == if res == 0 then P.SetPte(old(Mem()), directory, virt / PAGE_SIZE, phys + flags) else old(Mem())
    {
      if virt % PAGE_SIZE != 0 || phys % PAGE_SIZE != 0 { return -EINVARG; }
      res := PagingSet(directory, virt, phys + flags);
    }

    method PagingMapRange(directory: nat, virt: Word, phys: Word, count: nat, flags: nat) returns (res: int)
      requires ram.Length == FRAMES && directory < FRAMES && flags < PAGE_SIZE
      requires virt + count * PAGE_SIZE <= 0x1_0000_0000 && phys + count * PAGE_SIZE <= 0x1_0000_0000
      modifies ram
      ensures res == if count == 0 || (P.IsAligned(virt) && P.IsAligned(phys)) then 0 else -EINVARG
      ensures Mem() == if res == 0 then MapMem(old(Mem()), directory, virt / PAGE_SIZE, phys / PAGE_SIZE, count, flags) else old(Mem())
    {
      hide P.SetPte, MapMem, P.IsAligned;
      ghost var m0, v0, p0 := Mem(), virt / PAGE_SIZE, phys / PAGE_SIZE;
      ghost var aligned := P.IsAligned(virt) && P.IsAligned(phys);
      MapNothing(m0, directory, v0, p0, flags);
      res := 0;
      var i := 0;
      var v, p := virt, phys;
      while i < count
        invariant 0 <= i <= count && v == virt + i * PAGE_SIZE && p == phys + i * PAGE_SIZE && res == 0
        invariant Mem() == MapMem(m0, directory, v0, p0, i, flags) && (i > 0 ==> aligned)
      {
        if aligned { MapRangeStep(m0, directory, virt, phys, count, flags, i); }
        res := PagingMap(directory, v, p, flags);
        if res < 0 { break; }
        v, p := v + PAGE_SIZE, p + PAGE_SIZE;
        i := i + 1;
      }
    }

    /** paging_map_to: the error is exactly an unaligned argument or an inverted physical range. */
    method PagingMapTo(directory: nat, virt: Word, phys: Word, physEnd: Word, flags: nat) returns (res: int)
      requires ram.Length == FRAMES && directory < FRAMES && flags < PAGE_SIZE
      requires MapArgumentsOk(virt, phys, physEnd) ==> virt + (physEnd - phys) <= 0x1_0000_0000
      modifies ram
      ensures res == if MapArgumentsOk(virt, phys, physEnd) then 0 else -EINVARG
      ensures Mem() == MapTo(old(Mem()), directory, virt, phys, physEnd, flags)
    {
      if virt % PAGE_SIZE != 0 { return -EINVARG; }
      if phys % PAGE_SIZE != 0 { return -EINVARG; }
      if physEnd % PAGE_SIZE != 0 { return -EINVARG; }
      if physEnd < phys { return -EINVARG; }
      var totalPages := (physEnd - phys) / PAGE_SIZE;
      res := PagingMapRange(directory, virt, phys, totalPages, flags);
    }
  }
}
