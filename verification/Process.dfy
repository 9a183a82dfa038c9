/**
  The allocation part of process.c: the slot array is searched and updated in place, and the
  whole effect on kernel memory and slots equals the step functions of ProcessMemory.
 */
module Processes {
  import opened Status
  import opened HeapTable
  import opened Memory
  import opened KernelState
  import opened KernelMachine
  import opened AddressSpace
  import PM = ProcessMemory
  import P = Paging

  class Process {
    /** Frame of the chunk structure of the process's task. */
    const chunk: nat
    const allocations: array<PM.Alloc>
    /** struct process_arguments */
    var argc: nat
    var argv: nat

    ghost predicate Valid() {
      chunk < FRAMES && allocations.Length == PM.MAX_PROGRAM_ALLOCATIONS
    }

    ghost function Model(): PM.Proc
      reads allocations
    {
      PM.Proc(chunk, allocations[..])
    }

    /** process_init: all slots unused. */
    constructor (chunk: nat)
      requires chunk < FRAMES
      ensures Valid() && fresh(allocations) && this.chunk == chunk
      ensures forall k :: 0 <= k < allocations.Length ==> allocations[k] == PM.UNUSED
    {
      this.chunk := chunk;
      argc, argv := 0, 0;
      allocations := new PM.Alloc[PM.MAX_PROGRAM_ALLOCATIONS](_ => PM.UNUSED);
    }

    /** process_find_free_allocation_index */
    method FindFreeAllocationIndex() returns (res: int)
      ensures res == PM.FreeSlot(allocations[..])
    {
      res := -ENOMEM;
      for i := 0 to allocations.Length
        invariant res == -ENOMEM && forall k :: 0 <= k < i ==> allocations[k].ptr != 0
      {
        if allocations[i].ptr == 0 {
          res := i;
          break;
        }
      }
    }

    /** process_get_allocation_by_addr: the index of the slot, or -1 for the null result. */
    method GetAllocationByAddr(addr: nat) returns (index: int)
      ensures index == PM.SlotOf(allocations[..], addr)
    {
      for i := 0 to allocations.Length
        invariant forall k :: 0 <= k < i ==> allocations[k].ptr != addr
      {
        if allocations[i].ptr == addr {
          assert allocations[..][i].ptr == addr;
          return i;
        }
      }
      return -1;
    }

    /** process_allocation_unjoin */
    method AllocationUnjoin(ptr: nat)
      modifies allocations
      ensures allocations[..] == PM.Unjoin(old(allocations[..]), ptr)
    {
      for i := 0 to allocations.Length
        invariant forall k :: 0 <= k < allocations.Length ==>
          allocations[k] == if k < i && old(allocations[k]).ptr == ptr then PM.UNUSED else old(allocations[k])
      {
        if allocations[i].ptr == ptr {
          allocations[i] := PM.UNUSED;
        }
      }
    }

    /** paging_map_to of an allocation onto itself, in the task of the process. */
    method MapSelfPages(k: Machine, ptr: nat, size: nat, flags: nat) returns (res: int)
      requires k.Valid() && Valid() && ptr % PAGE_SIZE == 0 && 0 < size && ptr + size <= 0xFFFF_F000 && flags < PAGE_SIZE
      modifies k.ram
      ensures k.Valid() && res == 0 && k.State() == old(k.State()).(mem := PM.MapSelf(old(k.Mem()), chunk, ptr, size, flags))
    {
      hide MapTo, Dir, Refines;
      SelfMapAllowed(ptr, size);
      res := k.PagingMapTo(DirOf(k, chunk), ptr, ptr, P.AlignAddress(ptr + size), flags);
    }

    /** process_malloc of a positive size that the heap fits or refuses. */
    method Malloc(k: Machine, size: nat) returns (ptr: nat)
      requires k.Valid() && Valid() && PM.Serves(k.State(), size)
      modifies k.heap`live, k.heap.entries, k.ram, allocations
      ensures k.Valid() && PM.Outcome(k.State(), Model(), ptr) == PM.ProcessMalloc(old(k.State()), old(Model()), size)
    {
      hide Zalloc, StartBlock, Fits, BlocksFor, Refines, MapTo, Release, PM.FreeSlot, PM.MapSelf, Dir;
      ghost var ks := k.State();
      ghost var s := StartBlock(ks.table, BlocksFor(size));
      ZallocFacts(ks, size);
      ptr := k.KZalloc(size);
      if ptr == 0 {
        ZallocRefused(ks, size);
        return 0;
      }
      PM.RunInHeap(ks, size);
      var index := FindFreeAllocationIndex();
      if index < 0 {
        k.KFree(ptr);
        return 0;
      }
      var res := MapSelfPages(k, ptr, size, P.USER_WRITE);
      if res < 0 {
        // The out_err path of a refused mapping is unreachable: SelfMapAllowed.
        assert false;
      }
      allocations[index] := PM.Alloc(ptr, size);
    }

    /** process_free of a non-null pointer. */
    method Free(k: Machine, ptr: nat)
      requires k.Valid() && Valid() && ptr != 0 && PM.AllOwn(k.State().live, allocations[..])
      modifies k.heap`live, k.heap.entries, k.ram, allocations
      ensures k.Valid() && PM.Outcome(k.State(), Model(), 0) == PM.ProcessFree(old(k.State()), old(Model()), ptr)
    {
      hide Zalloc, BlocksFor, Refines, MapTo, Release, PM.SlotOf, PM.Unjoin, PM.MapSelf, Dir;
      ghost var ks := k.State();
      var index := GetAllocationByAddr(ptr);
      if index < 0 {
        return;
      }
      var a := allocations[index];
      assert PM.OwnsRun(ks.live, a);
      PM.OwnedInHeap(ks, a);
      var res := MapSelfPages(k, a.ptr, a.size, 0);
      if res < 0 {
        assert false;
      }
      AllocationUnjoin(ptr);
      k.KFree(ptr);
    }
  }

  /** page_directory->directory_entry */
  function DirOf(k: Machine, chunk: nat): (d: nat)
    requires k.ram.Length == FRAMES && chunk < FRAMES
    reads k.ram
    ensures d < FRAMES && d == Dir(k.ram[..], chunk)
  {
    WordAt(k.ram[chunk], 0) / PAGE_SIZE
  }

  /** paging_map_to never refuses the page range of an allocation. */
  lemma SelfMapAllowed(ptr: nat, size: nat)
    requires ptr % PAGE_SIZE == 0 && 0 < size && ptr + size <= 0xFFFF_F000
    ensures MapArgumentsOk(ptr, ptr, P.AlignAddress(ptr + size))
  {
  }
}
