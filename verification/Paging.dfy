/**
  Two-level page tables as the flat map they stand for. A directory frame holds 1024 words
  that name the table frames; a table holds 1024 words; word 1024*i + j of the flat view is
  word j of table i.
 */
module Paging {
  import opened Status
  import opened Memory

  const PRESENT := 1
  const WRITEABLE := 2
  const ACCESS_FROM_ALL := 4

  /** The two kinds of entries that tasks get. */
  const USER_READ := PRESENT + ACCESS_FROM_ALL
  const USER_WRITE := PRESENT + WRITEABLE + ACCESS_FROM_ALL

  type View = v: seq<Word> | |v| == FRAMES witness seq(FRAMES, _ => 0)

  predicate IsAligned(address: nat) {
    address % PAGE_SIZE == 0
  }

  /** paging_align_address: up to the next page, with the wrap of 32-bit addition. */
  function AlignAddress(address: nat): nat
    requires address < 0x1_0000_0000
  {
    if address % PAGE_SIZE != 0
    then (address + PAGE_SIZE - address % PAGE_SIZE) % 0x1_0000_0000
    else address
  }

  function AlignToLowerPage(address: nat): nat {
    address - address % PAGE_SIZE
  }

  /** paging_get_indexes: directory and table index, or the error for an unaligned address. */
  function GetIndexes(address: Word): (r: (int, nat, nat))
    ensures r.1 < ENTRIES && r.2 < ENTRIES
  {
    if !IsAligned(address) then (-EINVARG, 0, 0)
    else (0, address / (ENTRIES * PAGE_SIZE), address % (ENTRIES * PAGE_SIZE) / PAGE_SIZE)
  }

  /** The index split is a bijection between aligned addresses and index pairs. */
  lemma IndexSplitIsBijection(address: Word, i: nat, j: nat)
    requires i < ENTRIES && j < ENTRIES
    ensures GetIndexes(address) == (0, i, j) <==> address == (i * ENTRIES + j) * PAGE_SIZE
    ensures IsAligned(address) ==> GetIndexes(address) == (0, address / PAGE_SIZE / ENTRIES, address / PAGE_SIZE % ENTRIES)
  {
    var page := address / PAGE_SIZE;
    DirectoryOf(address);
    assert IsAligned(address) ==> page * PAGE_SIZE == address;
    assert page == i * ENTRIES + j <==> page / ENTRIES == i && page % ENTRIES == j;
  }

  lemma DirectoryOf(address: Word)
    ensures address / (ENTRIES * PAGE_SIZE) == address / PAGE_SIZE / ENTRIES
    ensures address % (ENTRIES * PAGE_SIZE) / PAGE_SIZE == address / PAGE_SIZE % ENTRIES
  {
  }

  /** Frame that the i-th directory word names: the word with its 12 flag bits cleared. */
  function Table(m: Ram, d: nat, i: nat): (f: nat)
    requires d < FRAMES && i < ENTRIES
    ensures f < FRAMES
  {
    WordAt(m[d], i) / PAGE_SIZE
  }

  /** Page table entry of virtual page `p`. */
  function Pte(m: Ram, d: nat, p: nat): Word
    requires d < FRAMES && p < FRAMES
  {
    WordAt(m[Table(m, d, p / ENTRIES)], p % ENTRIES)
  }

  function SetPte(m: Ram, d: nat, p: nat, val: Word): Ram
    requires d < FRAMES && p < FRAMES
  {
    var f := Table(m, d, p / ENTRIES);
    m[f := SetWord(m[f], p % ENTRIES, val)]
  }

  /** The directory and its 1024 tables are pairwise distinct frames. */
  ghost predicate Space(m: Ram, d: nat) {
    && d < FRAMES
    && (forall i: nat :: i < ENTRIES ==> Table(m, d, i) != d)
    && (forall i: nat, j: nat :: i < j < ENTRIES ==> Table(m, d, i) != Table(m, d, j))
  }

  ghost function ViewOf(m: Ram, d: nat): View
    requires d < FRAMES
  {
    seq(FRAMES, p requires 0 <= p < FRAMES => Pte(m, d, p))
  }

  /** Frames of the tables of a directory. */
  ghost function Tables(m: Ram, d: nat): (s: set<nat>)
    requires d < FRAMES
    ensures forall i: nat :: i < ENTRIES ==> Table(m, d, i) in s
    ensures forall f :: f in s ==> f < FRAMES && exists i: nat :: i < ENTRIES && Table(m, d, i) == f
  {
    set i: nat | i < ENTRIES :: Table(m, d, i)
  }

  /** One store through the tables is one store in the flat view, and touches one table frame. */
  lemma SetPteView(m: Ram, d: nat, p: nat, val: Word)
    requires Space(m, d) && p < FRAMES
    ensures var m' := SetPte(m, d, p, val);
      && Space(m', d)
      && m'[d] == m[d]
      && Tables(m', d) == Tables(m, d)
      && ViewOf(m', d) == ViewOf(m, d)[p := val]
      && (forall g: nat :: g < FRAMES && g !in Tables(m, d) ==> m'[g] == m[g])
  {
    var m' := SetPte(m, d, p, val);
    var f := Table(m, d, p / ENTRIES);
    assert m'[d] == m[d];
    assert forall i: nat :: i < ENTRIES ==> Table(m', d, i) == Table(m, d, i);
    forall q | 0 <= q < FRAMES ensures ViewOf(m', d)[q] == ViewOf(m, d)[p := val][q] {
      if q / ENTRIES == p / ENTRIES {
        assert q != p ==> q % ENTRIES != p % ENTRIES;
      } else {
        assert Table(m, d, q / ENTRIES) != f;
      }
    }
  }

  /** What lies outside the directory and its tables has no influence on the view. */
  lemma ViewFrame(m: Ram, m': Ram, d: nat)
    requires Space(m, d) && m'[d] == m[d]
    requires forall g: nat :: g in Tables(m, d) ==> m'[g] == m[g]
    ensures Space(m', d) && ViewOf(m', d) == ViewOf(m, d) && Tables(m', d) == Tables(m, d)
  {
    assert forall i: nat :: i < ENTRIES ==> Table(m', d, i) == Table(m, d, i);
    forall q | 0 <= q < FRAMES ensures ViewOf(m', d)[q] == ViewOf(m, d)[q] {
      assert Table(m, d, q / ENTRIES) in Tables(m, d);
    }
  }

  // ---------------------------------------------------------------- flat mapping

  /** `n` pages from virtual page `v` on are mapped to the frames from `f` on. */
  ghost function MapPages(view: View, v: nat, f: nat, n: nat, flags: nat): (r: View)
    requires v + n <= FRAMES && f + n <= FRAMES && flags < PAGE_SIZE
  {
    seq(FRAMES, p requires 0 <= p < FRAMES => if v <= p < v + n then (f + p - v) * PAGE_SIZE + flags else view[p])
  }

  lemma MapPagesStep(view: View, v: nat, f: nat, n: nat, flags: nat)
    requires v + n < FRAMES && f + n < FRAMES && flags < PAGE_SIZE
    ensures MapPages(view, v, f, n + 1, flags) == MapPages(view, v, f, n, flags)[v + n := (f + n) * PAGE_SIZE + flags]
  {
  }

  function Frame(w: Word): (f: nat)
    ensures f < FRAMES
  {
    w / PAGE_SIZE
  }

  function Flags(w: Word): nat {
    w % PAGE_SIZE
  }

  predicate IsPresent(w: Word) { w % 2 == 1 }
  predicate IsWriteable(w: Word) { w / 2 % 2 == 1 }
  predicate IsUser(w: Word) { w / 4 % 2 == 1 }

  /** The physical address behind a virtual address: frame of the entry, offset of the address. */
  function Translate(view: View, address: Word): (phys: Word)
  {
    Frame(view[address / PAGE_SIZE]) * PAGE_SIZE + address % PAGE_SIZE
  }

  /** The identity map with one set of flags, as paging_new_4gb builds it. */
  ghost function Identity(flags: nat): View
    requires flags < PAGE_SIZE
  {
    seq(FRAMES, p requires 0 <= p < FRAMES => p * PAGE_SIZE + flags)
  }

  /**
    paging_map_to on the flat view: every byte of the range translates to its place in the
    physical range with the given flags; every address outside keeps its entry.
   */
  lemma MapPagesTranslates(view: View, virt: Word, phys: Word, bytes: nat, flags: nat, a: Word)
    requires IsAligned(virt) && IsAligned(phys) && bytes % PAGE_SIZE == 0 && flags < PAGE_SIZE
    requires virt + bytes <= 0x1_0000_0000 && phys + bytes <= 0x1_0000_0000
    ensures var r := MapPages(view, virt / PAGE_SIZE, phys / PAGE_SIZE, bytes / PAGE_SIZE, flags);
      if virt <= a < virt + bytes
      then Translate(r, a) == phys + (a - virt) && Flags(r[a / PAGE_SIZE]) == flags
      else r[a / PAGE_SIZE] == view[a / PAGE_SIZE]
  {
  }

  // ---------------------------------------------------------------- bit level

  /** On 32-bit words, OR with flags below an aligned address is addition. */
  lemma OrIsPlus(address: bv32, flags: bv32)
    requires address & 0xFFF == 0 && flags & 0xFFFF_F000 == 0
    ensures address | flags == address + flags
    ensures (address | flags) & 0xFFFF_F000 == address
  {
  }
}
