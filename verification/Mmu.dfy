/**
  What the processor makes of page tables: 32-bit paging with 4-KByte pages (section 4.3 of the Intel SDM,
  volume 3A), and the access rights of section 4.6. The kernel leaves CR0.WP and CR4.PSE clear, so its own
  stores ignore the write bits and no directory entry maps a large page.
 */
module Mmu {
  import opened Memory
  import P = Paging

  datatype Access = Fault | Physical(address: Word)

  /** The i-th 32-bit word of a frame, as the processor fetches it. */
  function Fetch(m: Ram, frame: nat, i: nat): (w: Word)
    requires frame < 0x10_0000 && i < 1024
  {
    var page := m[frame];
    var b0: int, b1: int, b2: int, b3: int := page[4 * i], page[4 * i + 1], page[4 * i + 2], page[4 * i + 3];
    b0 + 0x100 * b1 + 0x1_0000 * b2 + 0x100_0000 * b3
  }

  /** The walk from CR3: directory entry, table entry, and the rights of both. */
  function Walk(m: Ram, directory: nat, address: Word, user: bool, write: bool): Access
    requires directory < 0x10_0000
  {
    var pde := Fetch(m, directory, address / 0x40_0000);
    if pde % 2 == 0 then Fault
    else
      var pte := Fetch(m, pde / 0x1000, address / 0x1000 % 0x400);
      if pte % 2 == 0 then Fault
      else if user && (pde / 4 % 2 == 0 || pte / 4 % 2 == 0) then Fault
      else if user && write && (pde / 2 % 2 == 0 || pte / 2 % 2 == 0) then Fault
      else Physical(pte / 0x1000 * 0x1000 + address % 0x1000)
  }

  /** Every word of the directory has these low 12 bits. */
  ghost predicate DirectoryIs(m: Ram, d: nat, low: nat) {
    d < FRAMES && forall i: nat :: i < ENTRIES ==> WordAt(m[d], i) % PAGE_SIZE == low
  }

  /** The frame of a table entry and the offset of an address, if the access is granted. */
  function Allow(granted: bool, e: Word, address: Word): Access {
    if granted then Physical(e / 0x1000 * 0x1000 + address % 0x1000) else Fault
  }

  /** The outcome for a table entry e under directory entries with these low bits. */
  function EntryAccess(e: Word, low: nat, address: Word, user: bool, write: bool): Access {
    if low % 2 == 0 || e % 2 == 0 then Fault
    else if user && (low / 4 % 2 == 0 || e / 4 % 2 == 0) then Fault
    else if user && write && (low / 2 % 2 == 0 || e / 2 % 2 == 0) then Fault
    else Physical(e / 0x1000 * 0x1000 + address % 0x1000)
  }

  /** With such a directory the walk is decided by the entry that the flat view has for the page. */
  lemma WalkIsView(m: Ram, d: nat, low: nat, address: Word, user: bool, write: bool)
    requires d < FRAMES && DirectoryIs(m, d, low)
    ensures Walk(m, d, address, user, write) == EntryAccess(P.ViewOf(m, d)[address / PAGE_SIZE], low, address, user, write)
  {
    hide DirectoryIs, Fetch, WordAt;
    var i, p := address / 0x40_0000, address / PAGE_SIZE;
    PageSplit(address);
    FetchIs(m, d, i);
    LowBits(m, d, low, i);
    FetchIs(m, P.Table(m, d, i), p % ENTRIES);
    TableEntry(m, d, p);
    BitsOfLow(WordAt(m[d], i), low);
  }

  lemma PageSplit(address: Word)
    ensures address / PAGE_SIZE / ENTRIES == address / 0x40_0000 && address / PAGE_SIZE % ENTRIES == address / 0x1000 % 0x400
    ensures address / 0x40_0000 < 1024
  {
  }

  lemma FetchIs(m: Ram, frame: nat, i: nat)
    requires frame < FRAMES && i < ENTRIES
    ensures Fetch(m, frame, i) == WordAt(m[frame], i)
  {
  }

  lemma LowBits(m: Ram, d: nat, low: nat, i: nat)
    requires DirectoryIs(m, d, low) && i < ENTRIES
    ensures WordAt(m[d], i) % PAGE_SIZE == low
  {
    hide WordAt;
  }

  lemma TableEntry(m: Ram, d: nat, p: nat)
    requires d < FRAMES && p < FRAMES
    ensures P.ViewOf(m, d)[p] == WordAt(m[P.Table(m, d, p / ENTRIES)], p % ENTRIES)
    ensures P.Table(m, d, p / ENTRIES) == WordAt(m[d], p / ENTRIES) / PAGE_SIZE
  {
    hide WordAt;
  }

  lemma BitsOfLow(w: Word, low: nat)
    requires w % PAGE_SIZE == low
    ensures w % 2 == low % 2 && w / 2 % 2 == low / 2 % 2 && w / 4 % 2 == low / 4 % 2
  {
    SameLowBits(w, w / PAGE_SIZE, low);
    LowBitsOf(w);
    LowBitsOf(low);
  }

  lemma SameLowBits(w: nat, q: nat, low: nat)
    requires w == q * PAGE_SIZE + low
    ensures w % 8 == low % 8
  {
    RemainderOf(512 * q + low / 8, low % 8);
    assert w == 8 * (512 * q + low / 8) + low % 8;
  }

  lemma RemainderOf(k: nat, r: nat)
    requires r < 8
    ensures (8 * k + r) % 8 == r
  {
  }

  lemma LowBitsOf(x: nat)
    ensures x % 2 == x % 8 % 2 && x / 2 % 2 == x % 8 / 2 % 2 && x / 4 % 2 == x % 8 / 4
  {
    var q, r := x / 8, x % 8;
    assert x == 8 * q + r;
    assert x / 2 == 4 * q + r / 2 && x / 4 == 2 * q + r / 4;
  }
}
