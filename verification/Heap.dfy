/**
  The heap of heap.c: the block table is scanned and marked in place. Every method is
  proved equal to the table functions of HeapTable.
 */
module BlockHeap {
  import opened Status
  import opened HeapTable

  class Heap {
    const saddr: nat
    const entries: array<Entry>
    ghost var live: map<nat, nat>

    /** The table encodes the live runs and no block address wraps or is null. */
    ghost predicate Valid()
      reads this, entries
    {
      && 0 < saddr && saddr + entries.Length * BLOCK_SIZE <= WORD_LIMIT
      && Refines(entries[..], live)
    }

    constructor (saddr: nat, entries: array<Entry>)
      ensures this.saddr == saddr && this.entries == entries && live == map[]
    {
      this.saddr := saddr;
      this.entries := entries;
      live := map[];
    }

    /**
      heap_create: refuses a misaligned range, with the heap structure untouched (null), or a table of
      the wrong size, with the structure already set up; otherwise it clears the table.
     */
    static method Create(ptr: nat, end: nat, table: array<Entry>) returns (res: int, heap: Heap?)
      requires 0 < ptr <= end <= WORD_LIMIT
      modifies table
      ensures res == 0 <==> ptr % BLOCK_SIZE == 0 && end % BLOCK_SIZE == 0 && ptr + table.Length * BLOCK_SIZE == end
      ensures res != 0 ==> res == -2 && table[..] == old(table[..])
      ensures heap == null <==> ptr % BLOCK_SIZE != 0 || end % BLOCK_SIZE != 0
      ensures heap != null ==> fresh(heap) && heap.saddr == ptr && heap.entries == table
      ensures res == 0 ==>
        && heap.Valid() && heap.live == map[] && forall k :: 0 <= k < table.Length ==> table[k] == FREE
    {
      heap := null;
      if ptr % BLOCK_SIZE != 0 || end % BLOCK_SIZE != 0 {
        return -EINVARG, null;
      }
      heap := new Heap(ptr, table);
      if table.Length != (end - ptr) / BLOCK_SIZE {
        return -EINVARG, heap;
      }
      var i := 0;
      while i < table.Length
        invariant 0 <= i <= table.Length
        invariant heap.live == map[] && forall k :: 0 <= k < i ==> table[k] == FREE
      {
        table[i] := FREE;
        i := i + 1;
      }
      res := 0;
    }

    /** The scan of heap_get_start_block, with its block counter and block start. */
    method GetStartBlock(totalBlocks: nat) returns (r: int)
      ensures r == StartBlock(entries[..], totalBlocks)
    {
      var bc, bs, i := 0, -1, 0;
      while i < entries.Length
        invariant 0 <= i <= entries.Length && 0 <= bc <= i
        invariant bc == TrailingFree(entries[..i])
        invariant bs == if bc == 0 then -1 else i - bc
        invariant bc != totalBlocks || bc == 0
        invariant totalBlocks >= 1 ==> !HasRun(entries[..i], totalBlocks)
      {
        assert entries[..i + 1][..i] == entries[..i];
        if !IsFree(entries[i]) {
          bc, bs := 0, -1;
          NoRunAcross(entries[..], i, totalBlocks, 0);
        } else {
          if bs == -1 { bs := i; }
          bc := bc + 1;
          assert bc == TrailingFree(entries[..i + 1]);
          if bc == totalBlocks {
            FoundIsLeast(entries[..], i, totalBlocks);
            break;
          }
          NoRunAcross(entries[..], i, totalBlocks, bc);
        }
        i := i + 1;
      }
      assert entries[..entries.Length] == entries[..];
      if bs == -1 { return -ENOMEM; }
      return bs;
    }

    method MarkBlocksTaken(startBlock: nat, totalBlocks: nat)
      requires startBlock + totalBlocks <= entries.Length
      modifies entries
      ensures entries[..] == MarkTaken(old(entries[..]), startBlock, totalBlocks)
      ensures forall k :: startBlock <= k < startBlock + totalBlocks ==>
        entries[k] == (if totalBlocks == 1 then 0x41 else if k == startBlock then 0xC1 else if k == startBlock + totalBlocks - 1 then 0x01 else 0x81)
    {
      var endBlock: int := startBlock + totalBlocks - 1;
      var entry: Entry := TAKEN | IS_FIRST;
      if totalBlocks > 1 { entry := entry | HAS_NEXT; }
      var i: int := startBlock;
      while i <= endBlock
        invariant startBlock <= i <= endBlock + 1
        invariant i <= endBlock ==> entry == RunCell(i - startBlock, totalBlocks)
        invariant forall k :: 0 <= k < entries.Length ==>
          entries[k] == if startBlock <= k < i then RunCell(k - startBlock, totalBlocks) else old(entries[k])
      {
        entries[i] := entry;
        entry := TAKEN;
        if i != endBlock - 1 { entry := entry | HAS_NEXT; }
        i := i + 1;
      }
      RunBytes(totalBlocks);
    }

    /** Clears from `startingBlock` on, up to and including the first block without HAS_NEXT. */
    method MarkBlocksFree(startingBlock: nat)
      modifies entries
      ensures entries[..] == FreeAt(old(entries[..]), startingBlock)
    {
      var i := startingBlock;
      while i < entries.Length
        invariant startingBlock <= i && (i <= entries.Length || i == startingBlock)
        invariant forall k :: 0 <= k < entries.Length ==>
          entries[k] == if startingBlock <= k < i then FREE else old(entries[k])
        invariant (i - startingBlock) + ChainLength(old(entries[..]), i) == ChainLength(old(entries[..]), startingBlock)
        invariant i > startingBlock ==> HasNext(old(entries[i - 1]))
      {
        var entry := entries[i];
        entries[i] := FREE;
        if entry & HAS_NEXT == 0 {
          assert ChainLength(old(entries[..]), i) == 1;
          break;
        }
        i := i + 1;
      }
    }

    function BlockToAddress(block: int): int {
      saddr + block * BLOCK_SIZE
    }

    function AddressToBlock(address: nat): int
      requires saddr <= address
    {
      (address - saddr) / BLOCK_SIZE
    }

    /** heap_malloc: null exactly when the search refuses; otherwise the first fitting run is live. */
    method Malloc(size: nat) returns (address: nat)
      requires Valid() && size < WORD_LIMIT && Fits(entries[..], BlocksFor(size))
      modifies this`live, entries
      ensures Valid()
      ensures var n, s := BlocksFor(size), StartBlock(old(entries[..]), BlocksFor(size));
        if s < 0 then address == 0 && entries[..] == old(entries[..]) && live == old(live)
        else
          && address == BlockToAddress(s)
          && entries[..] == MarkTaken(old(entries[..]), s, n)
          && live == (if n == 0 then old(live) else old(live)[s as nat := n])
    {
      var totalBlocks := BlocksFor(size);
      var start := GetStartBlock(totalBlocks);
      if start < 0 { return 0; }
      address := BlockToAddress(start);
      ghost var t := entries[..];
      MarkBlocksTaken(start, totalBlocks);
      if totalBlocks == 0 {
        assert entries[..] == t;
      } else {
        FitsExactly(t, totalBlocks);
        TakeRefines(t, live, start, totalBlocks);
        live := live[start as nat := totalBlocks];
      }
    }

    /** heap_free of the address of a live run: that run, and no other byte of the table, is cleared. */
    method Free(ptr: nat)
      requires Valid() && saddr <= ptr && (ptr - saddr) / BLOCK_SIZE in live
      modifies this`live, entries
      ensures Valid()
      ensures var s: nat := (ptr - saddr) / BLOCK_SIZE;
        && entries[..] == FreeAt(old(entries[..]), s)
        && entries[..] == MarkFree(old(entries[..]), s, old(live[s]))
        && live == old(live) - {s}
    {
      ghost var s: nat := (ptr - saddr) / BLOCK_SIZE;
      FreeRefines(entries[..], live, s);
      MarkBlocksFree(AddressToBlock(ptr));
      live := live - {s};
    }

    /** A successful malloc followed by the free of its address restores the table byte for byte. */
    method MallocThenFree(size: nat) returns (address: nat)
      requires Valid() && 0 < size <= 0xFFFF_F000 && Fits(entries[..], BlocksFor(size))
      modifies this`live, entries
      ensures Valid() && entries[..] == old(entries[..]) && live == old(live)
    {
      AlignUpperIsLeastMultiple(size);
      ghost var t, n := entries[..], BlocksFor(size);
      address := Malloc(size);
      if address != 0 {
        ghost var s: nat := StartBlock(t, n);
        FitsExactly(t, n);
        TakeThenFree(t, old(live), s, n);
        assert (address - saddr) / BLOCK_SIZE == s;
        Free(address);
      }
    }
  }

  /** Extending a prefix by one block finds no run when the trailing free run is still too short. */
  lemma NoRunAcross(t: seq<Entry>, i: nat, n: nat, bc: nat)
    requires i < |t| && bc == TrailingFree(t[..i + 1]) && (bc != n || bc == 0)
    requires n >= 1 ==> !HasRun(t[..i], n)
    ensures n >= 1 ==> !HasRun(t[..i + 1], n)
  {
    var p, q := t[..i + 1], t[..i];
    forall s: nat | n >= 1 ensures !FreeRun(p, s, n) {
      if bc > n { assert FreeRun(q, i - n, n); }
      if s + n <= i { assert FreeRun(p, s, n) ==> FreeRun(q, s, n); }
      if bc <= i { assert !IsFree(p[i - bc]); }
    }
  }

  /** The scan stops at the lowest start of `n` consecutive free blocks. */
  lemma FoundIsLeast(t: seq<Entry>, i: nat, n: nat)
    requires i < |t| && n >= 1 && n == TrailingFree(t[..i + 1])
    requires !HasRun(t[..i], n)
    ensures i + 1 >= n && StartBlock(t, n) == i + 1 - n
  {
    assert FreeRun(t, i + 1 - n, n) by {
      assert FreeRun(t[..i + 1], i + 1 - n, n);
      assert forall k :: i + 1 - n <= k <= i ==> t[..i + 1][k] == t[k];
    }
    forall s: nat | s < i + 1 - n ensures !FreeRun(t, s, n) {
      if FreeRun(t, s, n) { assert FreeRun(t[..i], s, n); }
    }
  }
}
