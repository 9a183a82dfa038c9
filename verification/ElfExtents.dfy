/**
  The load extents of an ELF file: one pass over the program headers keeps the lowest load address
  and the highest load end, each with the physical address that belongs to it.
 */
module ElfExtents {
  import opened Memory

  datatype Header = Header(load: bool, vaddr: Word, offset: Word, filesz: Word)

  datatype Extents = Extents(virtualBase: Word, physicalBase: Word, virtualEnd: Word, physicalEnd: Word)

  /** 32-bit pointer arithmetic. */
  function Wrap(x: nat): Word { x % 0x1_0000_0000 }

  function End(h: Header): Word { Wrap(h.vaddr + h.filesz) }

  function PtLoad(e: Extents, memory: Word, h: Header): Extents {
    var e1 := if e.virtualBase >= h.vaddr || e.virtualBase == 0
      then e.(virtualBase := h.vaddr, physicalBase := Wrap(memory + h.offset)) else e;
    if e1.virtualEnd <= End(h) || e1.virtualEnd == 0
      then e1.(virtualEnd := End(h), physicalEnd := Wrap(memory + h.offset + h.filesz)) else e1
  }

  /** The extents after these headers, from a zeroed file structure. */
  function After(memory: Word, hs: seq<Header>): Extents {
    if hs == [] then Extents(0, 0, 0, 0) else
      var e, h := After(memory, hs[..|hs| - 1]), hs[|hs| - 1];
      if h.load then PtLoad(e, memory, h) else e
  }

  /** j is the last load header with the lowest address. */
  ghost predicate LastLowest(hs: seq<Header>, j: nat) {
    && j < |hs| && hs[j].load
    && forall k :: 0 <= k < |hs| && hs[k].load ==> hs[j].vaddr <= hs[k].vaddr && (k > j ==> hs[j].vaddr < hs[k].vaddr)
  }

  /** j is the last load header with the highest end. */
  ghost predicate LastHighest(hs: seq<Header>, j: nat) {
    && j < |hs| && hs[j].load
    && forall k :: 0 <= k < |hs| && hs[k].load ==> End(hs[j]) >= End(hs[k]) && (k > j ==> End(hs[j]) > End(hs[k]))
  }

  predicate SomeLoad(hs: seq<Header>) {
    exists k :: 0 <= k < |hs| && hs[k].load
  }

  predicate NoZero(hs: seq<Header>) {
    forall k :: 0 <= k < |hs| && hs[k].load ==> hs[k].vaddr != 0
  }

  /** Whether the last load header has address zero. */
  predicate ZeroLast(hs: seq<Header>) {
    hs != [] && (if hs[|hs| - 1].load then hs[|hs| - 1].vaddr == 0 else ZeroLast(hs[..|hs| - 1]))
  }

  lemma NothingLoaded(memory: Word, hs: seq<Header>)
    requires !SomeLoad(hs)
    ensures After(memory, hs) == Extents(0, 0, 0, 0)
  {
    if hs != [] {
      assert !hs[|hs| - 1].load;
      assert !SomeLoad(hs[..|hs| - 1]);
      NothingLoaded(memory, hs[..|hs| - 1]);
    }
  }

  /** The end belongs to the last header that reaches highest, whatever the headers hold. */
  lemma EndIsLastHighest(memory: Word, hs: seq<Header>) returns (j: nat)
    requires SomeLoad(hs)
    ensures LastHighest(hs, j)
    ensures var e, h := After(memory, hs), hs[j];
      && e.virtualEnd == (h.vaddr + h.filesz) % 0x1_0000_0000 && e.physicalEnd == (memory + h.offset + h.filesz) % 0x1_0000_0000
  {
    j := LastHighestEnd(memory, hs);
  }

  lemma {:induction false} LastHighestEnd(memory: Word, hs: seq<Header>) returns (j: nat)
    requires SomeLoad(hs)
    ensures LastHighest(hs, j)
    ensures var e := After(memory, hs); e.virtualEnd == End(hs[j]) && e.physicalEnd == Wrap(memory + hs[j].offset + hs[j].filesz)
  {
    hide Wrap, End;
    var n := |hs| - 1;
    var front, h := hs[..n], hs[n];
    assert hs == front + [h];
    if !SomeLoad(front) {
      NothingLoaded(memory, front);
      assert forall k :: 0 <= k < n ==> !front[k].load;
      j := n;
    } else {
      j := LastHighestEnd(memory, front);
      assert forall k :: 0 <= k < n ==> hs[k] == front[k];
      if h.load && End(front[j]) <= End(h) { j := n; }
    }
  }

  /** Without a zero load address the base belongs to the last header that starts lowest. */
  lemma BaseIsLastLowest(memory: Word, hs: seq<Header>) returns (j: nat)
    requires SomeLoad(hs) && NoZero(hs)
    ensures LastLowest(hs, j)
    ensures var e := After(memory, hs); e.virtualBase == hs[j].vaddr && e.physicalBase == (memory + hs[j].offset) % 0x1_0000_0000
  {
    j := LastLowestBase(memory, hs);
  }

  lemma {:induction false} LastLowestBase(memory: Word, hs: seq<Header>) returns (j: nat)
    requires SomeLoad(hs) && NoZero(hs)
    ensures LastLowest(hs, j)
    ensures var e := After(memory, hs); e.virtualBase == hs[j].vaddr && e.physicalBase == Wrap(memory + hs[j].offset)
  {
    hide Wrap, End;
    var n := |hs| - 1;
    var front, h := hs[..n], hs[n];
    assert hs == front + [h];
    assert NoZero(front);
    if !SomeLoad(front) {
      NothingLoaded(memory, front);
      assert forall k :: 0 <= k < n ==> !front[k].load;
      j := n;
    } else {
      j := LastLowestBase(memory, front);
      assert forall k :: 0 <= k < n ==> hs[k] == front[k];
      if h.load && h.vaddr <= front[j].vaddr { j := n; }
    }
  }

  /** The base is zero exactly when nothing was loaded or the last load header has address zero. */
  lemma {:induction false} ZeroBase(memory: Word, hs: seq<Header>)
    ensures After(memory, hs).virtualBase == 0 <==> !SomeLoad(hs) || ZeroLast(hs)
  {
    if hs != [] {
      var n := |hs| - 1;
      ZeroBase(memory, hs[..n]);
      assert SomeLoad(hs) <==> SomeLoad(hs[..n]) || hs[n].load by {
        if hs[n].load { assert SomeLoad(hs); }
        if SomeLoad(hs[..n]) {
          var k :| 0 <= k < n && hs[..n][k].load;
          assert hs[k].load;
        }
        if SomeLoad(hs) && !hs[n].load {
          var k :| 0 <= k < |hs| && hs[k].load;
          assert hs[..n][k].load;
        }
      }
    }
  }

  /**
    Zero doubles as "not set", so a load address zero is forgotten at the next load header. The base
    is the lowest load address exactly when no load address is zero or the last one is.
   */
  lemma BaseIsLowestExactlyWhen(memory: Word, hs: seq<Header>)
    requires SomeLoad(hs)
    ensures (NoZero(hs) || ZeroLast(hs)) <==>
      forall k :: 0 <= k < |hs| && hs[k].load ==> After(memory, hs).virtualBase <= hs[k].vaddr
  {
    ZeroBase(memory, hs);
    if NoZero(hs) {
      var j := BaseIsLastLowest(memory, hs);
    } else {
      var k :| 0 <= k < |hs| && hs[k].load && hs[k].vaddr == 0;
      assert After(memory, hs).virtualBase <= hs[k].vaddr <==> ZeroLast(hs);
    }
  }

  /** Two segments, the first at address zero: the base is the address of the second. */
  lemma ZeroIsForgotten(memory: Word)
    ensures After(memory, [Header(true, 0, 0, 1), Header(true, 0x1000, 0, 1)]).virtualBase == 0x1000
  {
    var first, second := Header(true, 0, 0, 1), Header(true, 0x1000, 0, 1);
    assert [first, second][..1] == [first] && [first][..0] == [];
    assert After(memory, [first]).virtualBase == 0;
  }

  class ElfFile {
    const memory: Word
    const headers: seq<Header>
    var virtualBase: Word
    var physicalBase: Word
    var virtualEnd: Word
    var physicalEnd: Word

    ghost function State(): Extents
      reads this
    {
      Extents(virtualBase, physicalBase, virtualEnd, physicalEnd)
    }

    constructor (memory: Word, headers: seq<Header>)
      ensures this.memory == memory && this.headers == headers && State() == Extents(0, 0, 0, 0)
    {
      this.memory, this.headers := memory, headers;
      virtualBase, physicalBase, virtualEnd, physicalEnd := 0, 0, 0, 0;
    }

    /** elf_phdr_phys_address */
    function PhysAddress(h: Header): Word { Wrap(memory + h.offset) }

    method ElfProcessPhdrPtLoad(h: Header)
      modifies this
      ensures State() == PtLoad(old(State()), memory, h)
    {
      if virtualBase >= h.vaddr || virtualBase == 0 {
        virtualBase := h.vaddr;
        physicalBase := PhysAddress(h);
      }
      var end := Wrap(h.vaddr + h.filesz);
      if virtualEnd <= end || virtualEnd == 0 {
        virtualEnd := end;
        physicalEnd := Wrap(memory + h.offset + h.filesz);
      }
    }

    method ElfProcessPheader(h: Header)
      modifies this
      ensures State() == if h.load then PtLoad(old(State()), memory, h) else old(State())
    {
      if h.load {
        ElfProcessPhdrPtLoad(h);
      }
    }

    method ElfProcessPheaders()
      requires State() == Extents(0, 0, 0, 0)
      modifies this
      ensures State() == After(memory, headers)
    {
      var i := 0;
      while i < |headers|
        invariant 0 <= i <= |headers| && State() == After(memory, headers[..i])
      {
        assert headers[..i + 1][..i] == headers[..i];
        ElfProcessPheader(headers[i]);
        i := i + 1;
      }
      assert headers[..i] == headers;
    }
  }
}
