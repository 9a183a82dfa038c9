/**
  process_map_memory: how the segments of a loaded program and its stack appear in the flat
  view of its task. The view after any header list is described page by page, then the
  translation of every address follows.
 */
module ProgramImage {
  import opened Memory
  import opened KernelState
  import opened KernelMachine
  import opened AddressSpace
  import P = Paging

  const PROGRAM_VIRTUAL_ADDRESS := 0x40_0000
  const STACK_SIZE := 0x4000
  const STACK_TOP := 0x3F_F000
  const STACK_BOTTOM := 0x3F_B000

  /** The fields of a program header that the mapping reads. */
  datatype Phdr = Phdr(offset: nat, vaddr: Word, memsz: nat, flags: nat)

  /** p_flags & PF_W */
  predicate WantsWrite(ph: Phdr) {
    ph.flags / 2 % 2 == 1
  }

  function SegmentFlags(ph: Phdr): (f: nat)
    ensures f < PAGE_SIZE
  {
    if WantsWrite(ph) then P.USER_WRITE else P.USER_READ
  }

  function FirstPage(ph: Phdr): nat { ph.vaddr / PAGE_SIZE }

  /** Pages from the one that holds the segment's first physical byte to the one that holds its last. */
  function PageCount(elf: nat, ph: Phdr): nat
    requires elf + ph.offset + ph.memsz <= 0xFFFF_F000
  {
    P.AlignAddress(elf + ph.offset + ph.memsz) / PAGE_SIZE - (elf + ph.offset) / PAGE_SIZE
  }

  /** No 32-bit overflow in the addresses of a segment. */
  ghost predicate Addressable(elf: nat, ph: Phdr) {
    elf + ph.offset + ph.memsz <= 0xFFFF_F000 && FirstPage(ph) + PageCount(elf, ph) <= FRAMES
  }

  ghost predicate InPages(elf: nat, ph: Phdr, p: nat)
    requires Addressable(elf, ph)
  {
    FirstPage(ph) <= p < FirstPage(ph) + PageCount(elf, ph)
  }

  ghost predicate AllAddressable(elf: nat, phdrs: seq<Phdr>) {
    forall i :: 0 <= i < |phdrs| ==> Addressable(elf, phdrs[i])
  }

  ghost function MapSegment(view: P.View, elf: nat, ph: Phdr): P.View
    requires Addressable(elf, ph)
  {
    P.MapPages(view, FirstPage(ph), (elf + ph.offset) / PAGE_SIZE, PageCount(elf, ph), SegmentFlags(ph))
  }

  /** process_map_elf on the flat view: the headers in order. */
  ghost function MapElf(view: P.View, elf: nat, phdrs: seq<Phdr>): P.View
    requires AllAddressable(elf, phdrs)
  {
    if phdrs == [] then view
    else MapSegment(MapElf(view, elf, phdrs[..|phdrs| - 1]), elf, phdrs[|phdrs| - 1])
  }

  datatype Image = Elf(elf: nat, phdrs: seq<Phdr>) | Binary(ptr: nat, size: nat)

  ghost predicate ImageOk(image: Image) {
    match image
    case Elf(elf, phdrs) => elf % PAGE_SIZE == 0 && AllAddressable(elf, phdrs)
    case Binary(ptr, size) =>
      ptr % PAGE_SIZE == 0 && ptr + size <= 0xFFFF_F000 && PROGRAM_VIRTUAL_ADDRESS + size <= 0xFFFF_F000
  }

  /** Pages of a flat binary. */
  ghost function BinaryPages(ptr: nat, size: nat): (n: nat)
    requires ImageOk(Binary(ptr, size))
    ensures PROGRAM_VIRTUAL_ADDRESS / PAGE_SIZE + n <= FRAMES && ptr / PAGE_SIZE + n <= FRAMES
    ensures n * PAGE_SIZE - PAGE_SIZE < size <= n * PAGE_SIZE
  {
    (P.AlignAddress(ptr + size) - ptr) / PAGE_SIZE
  }

  /** process_map_binary on the flat view */
  ghost function MapBinary(view: P.View, ptr: nat, size: nat): P.View
    requires ImageOk(Binary(ptr, size))
  {
    P.MapPages(view, PROGRAM_VIRTUAL_ADDRESS / PAGE_SIZE, ptr / PAGE_SIZE, BinaryPages(ptr, size), P.USER_WRITE)
  }

  /** The image is mapped on page `p`. */
  ghost predicate InImage(image: Image, p: nat)
    requires ImageOk(image)
  {
    match image
    case Elf(elf, phdrs) => exists i :: 0 <= i < |phdrs| && InPages(elf, phdrs[i], p)
    case Binary(ptr, size) =>
      PROGRAM_VIRTUAL_ADDRESS / PAGE_SIZE <= p < PROGRAM_VIRTUAL_ADDRESS / PAGE_SIZE + BinaryPages(ptr, size)
  }

  ghost function MapStack(view: P.View, stack: nat): P.View
    requires stack % PAGE_SIZE == 0 && stack + STACK_SIZE <= 0xFFFF_F000
  {
    P.MapPages(view, STACK_BOTTOM / PAGE_SIZE, stack / PAGE_SIZE, STACK_SIZE / PAGE_SIZE, P.USER_WRITE)
  }

  /** process_map_memory on the flat view: the image, then the stack. */
  ghost function MapImage(view: P.View, image: Image, stack: nat): P.View
    requires ImageOk(image) && stack % PAGE_SIZE == 0 && stack + STACK_SIZE <= 0xFFFF_F000
  {
    match image
    case Elf(elf, phdrs) => MapStack(MapElf(view, elf, phdrs), stack)
    case Binary(ptr, size) => MapStack(MapBinary(view, ptr, size), stack)
  }

  // ---------------------------------------------------------------- the same through the page tables

  /** process_map_elf on memory, through the directory of the chunk `c`. */
  ghost function MapElfMem(m: Ram, c: nat, elf: nat, phdrs: seq<Phdr>): Ram
    requires c < FRAMES && AllAddressable(elf, phdrs)
  {
    if phdrs == [] then m
    else
      var m1, ph := MapElfMem(m, c, elf, phdrs[..|phdrs| - 1]), phdrs[|phdrs| - 1];
      MapMem(m1, Dir(m1, c), FirstPage(ph), (elf + ph.offset) / PAGE_SIZE, PageCount(elf, ph), SegmentFlags(ph))
  }

  ghost function MapFileMem(m: Ram, c: nat, image: Image): Ram
    requires c < FRAMES && ImageOk(image)
  {
    match image
    case Elf(elf, phdrs) => MapElfMem(m, c, elf, phdrs)
    case Binary(ptr, size) =>
      MapMem(m, Dir(m, c), PROGRAM_VIRTUAL_ADDRESS / PAGE_SIZE, ptr / PAGE_SIZE, BinaryPages(ptr, size), P.USER_WRITE)
  }

  /** process_map_memory on memory */
  ghost function MapImageMem(m: Ram, c: nat, image: Image, stack: nat): Ram
    requires c < FRAMES && ImageOk(image) && stack % PAGE_SIZE == 0 && stack + STACK_SIZE <= 0xFFFF_F000
  {
    var m1 := MapFileMem(m, c, image);
    MapMem(m1, Dir(m1, c), STACK_BOTTOM / PAGE_SIZE, stack / PAGE_SIZE, STACK_SIZE / PAGE_SIZE, P.USER_WRITE)
  }

  /** Memory `r` is `m` with the mappings of one address space changed to `view`. */
  ghost predicate Remapped(m: Ram, r: Ram, c: nat, view: P.View)
    requires c < FRAMES
  {
    && SpaceAt(r, c) && Footprint(r, c) == Footprint(m, c) && ViewAt(r, c) == view
    && Dir(r, c) == Dir(m, c) && r[Dir(m, c)] == m[Dir(m, c)]
    && forall g: nat :: g < FRAMES && g !in Footprint(m, c) ==> r[g] == m[g]
  }

  lemma MapRemaps(m: Ram, c: nat, v: nat, f: nat, n: nat, flags: nat)
    requires SpaceAt(m, c) && v + n <= FRAMES && f + n <= FRAMES && flags < PAGE_SIZE
    ensures Remapped(m, MapMem(m, Dir(m, c), v, f, n, flags), c, P.MapPages(ViewAt(m, c), v, f, n, flags))
  {
    hide SpaceAt, ViewAt, MapMem, P.MapPages, P.Tables, Open, WordAt;
    SpaceInRam(m, c);
    MapKeepsSpace(m, c, v, f, n, flags);
    TablesInFootprint(m, c);
    ChunkIsNoTable(m, c);
  }

  lemma ChunkIsNoTable(m: Ram, c: nat)
    requires SpaceAt(m, c)
    ensures c < FRAMES && c !in P.Tables(m, Dir(m, c)) && Dir(m, c) !in P.Tables(m, Dir(m, c))
  {
  }

  lemma RemapAgain(m: Ram, m1: Ram, m2: Ram, c: nat, view1: P.View, view2: P.View)
    requires c < FRAMES && Remapped(m, m1, c, view1) && Remapped(m1, m2, c, view2)
    ensures Remapped(m, m2, c, view2)
  {
    hide SpaceAt, ViewAt, Footprint, Open;
  }

  lemma {:induction false} MapElfRemaps(m: Ram, c: nat, elf: nat, phdrs: seq<Phdr>)
    requires SpaceAt(m, c) && AllAddressable(elf, phdrs)
    ensures c < FRAMES && Remapped(m, MapElfMem(m, c, elf, phdrs), c, MapElf(ViewAt(m, c), elf, phdrs))
  {
    hide SpaceAt, ViewAt, Footprint, MapMem, P.MapPages, PageCount, FirstPage, Remapped, Dir, Open;
    SpaceInRam(m, c);
    NothingRemapped(m, c);
    if phdrs != [] {
      var n := |phdrs| - 1;
      MapElfRemaps(m, c, elf, phdrs[..n]);
      var m1, ph := MapElfMem(m, c, elf, phdrs[..n]), phdrs[n];
      SegmentInRange(elf, ph);
      RemappedSpace(m, m1, c, MapElf(ViewAt(m, c), elf, phdrs[..n]));
      MapRemaps(m1, c, FirstPage(ph), (elf + ph.offset) / PAGE_SIZE, PageCount(elf, ph), SegmentFlags(ph));
      RemapAgain(m, m1, MapElfMem(m, c, elf, phdrs), c, MapElf(ViewAt(m, c), elf, phdrs[..n]), MapElf(ViewAt(m, c), elf, phdrs));
    }
  }

  lemma NothingRemapped(m: Ram, c: nat)
    requires SpaceAt(m, c)
    ensures c < FRAMES && Remapped(m, m, c, ViewAt(m, c))
  {
  }

  lemma RemappedSpace(m: Ram, r: Ram, c: nat, view: P.View)
    requires c < FRAMES && Remapped(m, r, c, view)
    ensures SpaceAt(r, c) && ViewAt(r, c) == view
  {
  }

  lemma SpaceInRam(m: Ram, c: nat)
    requires SpaceAt(m, c)
    ensures c < FRAMES
  {
  }

  lemma SegmentInRange(elf: nat, ph: Phdr)
    requires Addressable(elf, ph)
    ensures elf + ph.offset + ph.memsz <= 0xFFFF_F000
    ensures FirstPage(ph) + PageCount(elf, ph) <= FRAMES && (elf + ph.offset) / PAGE_SIZE + PageCount(elf, ph) <= FRAMES
  {
  }

  /** The stores through the page tables are the mapping on the view, and touch nothing else. */
  lemma MapImageRemaps(m: Ram, c: nat, image: Image, stack: nat)
    requires SpaceAt(m, c) && ImageOk(image) && stack % PAGE_SIZE == 0 && stack + STACK_SIZE <= 0xFFFF_F000
    ensures c < FRAMES && Remapped(m, MapImageMem(m, c, image, stack), c, MapImage(ViewAt(m, c), image, stack))
  {
    hide SpaceAt, ViewAt, Footprint, MapMem, P.MapPages, MapElfMem, MapElf, BinaryPages, Open;
    SpaceInRam(m, c);
    var m1 := MapFileMem(m, c, image);
    match image {
      case Elf(elf, phdrs) => MapElfRemaps(m, c, elf, phdrs);
      case Binary(ptr, size) =>
        MapRemaps(m, c, PROGRAM_VIRTUAL_ADDRESS / PAGE_SIZE, ptr / PAGE_SIZE, BinaryPages(ptr, size), P.USER_WRITE);
    }
    MapRemaps(m1, c, STACK_BOTTOM / PAGE_SIZE, stack / PAGE_SIZE, STACK_SIZE / PAGE_SIZE, P.USER_WRITE);
    RemapAgain(m, m1, MapImageMem(m, c, image, stack), c, ViewAt(m1, c), MapImage(ViewAt(m, c), image, stack));
  }

  // ---------------------------------------------------------------- what a view holds

  /** The mapping is to the stack window. */
  predicate InStack(p: nat) {
    STACK_BOTTOM / PAGE_SIZE <= p < STACK_TOP / PAGE_SIZE
  }

  /** The entry that the image gives to one of its pages. */
  ghost function ImageEntry(image: Image, p: nat): Word
    requires ImageOk(image) && InImage(image, p)
  {
    match image
    case Elf(elf, phdrs) =>
      var i := LastSegment(elf, phdrs, p);
      ((elf + phdrs[i].offset) / PAGE_SIZE + p - FirstPage(phdrs[i])) * PAGE_SIZE + SegmentFlags(phdrs[i])
    case Binary(ptr, size) => (ptr / PAGE_SIZE + p - PROGRAM_VIRTUAL_ADDRESS / PAGE_SIZE) * PAGE_SIZE + P.USER_WRITE
  }

  /** Every page after process_map_memory: stack, else image, else as before. */
  lemma ImageView(view: P.View, image: Image, stack: nat, p: nat)
    requires ImageOk(image) && stack % PAGE_SIZE == 0 && stack + STACK_SIZE <= 0xFFFF_F000 && p < FRAMES
    ensures MapImage(view, image, stack)[p] ==
      if InStack(p) then (stack / PAGE_SIZE + p - STACK_BOTTOM / PAGE_SIZE) * PAGE_SIZE + P.USER_WRITE
      else if InImage(image, p) then ImageEntry(image, p) else view[p]
  {
    hide MapElf, PageCount, BinaryPages;
    match image
    case Elf(elf, phdrs) =>
      LastHeaderWins(view, elf, phdrs, p);
    case Binary(ptr, size) =>
  }

  /** Frame and write bit of an entry that the mapping makes. */
  lemma EntryOf(image: Image, p: nat)
    requires ImageOk(image) && InImage(image, p)
    ensures var e := ImageEntry(image, p); e % PAGE_SIZE == P.USER_READ || e % PAGE_SIZE == P.USER_WRITE
    ensures var e := ImageEntry(image, p); P.IsWriteable(e) <==> e % PAGE_SIZE == P.USER_WRITE
  {
    hide PageCount, BinaryPages, P.IsWriteable, LastSegment;
    match image
    case Elf(elf, phdrs) =>
      var i := LastSegment(elf, phdrs, p);
      SegmentInRange(elf, phdrs[i]);
      FlagsOf((elf + phdrs[i].offset) / PAGE_SIZE + p - FirstPage(phdrs[i]), SegmentFlags(phdrs[i]));
    case Binary(ptr, size) =>
      FlagsOf(ptr / PAGE_SIZE + p - PROGRAM_VIRTUAL_ADDRESS / PAGE_SIZE, P.USER_WRITE);
  }

  lemma FlagsOf(f: int, flags: nat)
    requires 0 <= f < FRAMES && (flags == P.USER_READ || flags == P.USER_WRITE)
    ensures var e := f * PAGE_SIZE + flags; e % PAGE_SIZE == flags && (P.IsWriteable(e) <==> flags == P.USER_WRITE)
  {
    EntryBits(f, flags);
  }

  /** The last header whose pages include `p`, or -1. */
  ghost function LastSegment(elf: nat, phdrs: seq<Phdr>, p: nat): (r: int)
    requires AllAddressable(elf, phdrs)
    ensures -1 <= r < |phdrs|
    ensures r >= 0 ==> InPages(elf, phdrs[r], p)
    ensures forall i :: r < i < |phdrs| ==> !InPages(elf, phdrs[i], p)
  {
    if phdrs == [] then -1
    else if InPages(elf, phdrs[|phdrs| - 1], p) then |phdrs| - 1
    else LastSegment(elf, phdrs[..|phdrs| - 1], p)
  }

  /** For every header list, overlapping or not: a page belongs to the last header that covers it. */
  lemma {:induction false} LastHeaderWins(view: P.View, elf: nat, phdrs: seq<Phdr>, p: nat)
    requires AllAddressable(elf, phdrs) && p < FRAMES
    ensures var i := LastSegment(elf, phdrs, p);
      MapElf(view, elf, phdrs)[p] ==
        if i < 0 then view[p]
        else ((elf + phdrs[i].offset) / PAGE_SIZE + p - FirstPage(phdrs[i])) * PAGE_SIZE + SegmentFlags(phdrs[i])
  {
    hide PageCount;
    if phdrs != [] {
      LastHeaderWins(view, elf, phdrs[..|phdrs| - 1], p);
    }
  }

  ghost predicate Congruent(ph: Phdr) {
    ph.vaddr % PAGE_SIZE == ph.offset % PAGE_SIZE
  }

  /** Page ranges are pairwise disjoint and stay clear of the stack window. */
  ghost predicate Separate(elf: nat, phdrs: seq<Phdr>)
    requires AllAddressable(elf, phdrs)
  {
    && (forall i, j, p: nat :: 0 <= i < j < |phdrs| && InPages(elf, phdrs[i], p) ==> !InPages(elf, phdrs[j], p))
    && (forall i, p: nat :: 0 <= i < |phdrs| && STACK_BOTTOM / PAGE_SIZE <= p < STACK_TOP / PAGE_SIZE ==>
        !InPages(elf, phdrs[i], p))
  }

  /** With congruent offsets the pages of a segment hold exactly the pages of its address range. */
  lemma SegmentCoversItsBytes(elf: nat, ph: Phdr, a: nat)
    requires elf % PAGE_SIZE == 0 && Addressable(elf, ph) && Congruent(ph) && ph.vaddr <= a < ph.vaddr + ph.memsz
    ensures InPages(elf, ph, a / PAGE_SIZE)
  {
    var end := elf + ph.offset + ph.memsz;
    assert P.AlignAddress(end) >= end;
    assert (elf + ph.offset) % PAGE_SIZE == ph.vaddr % PAGE_SIZE;
    var last := a - ph.vaddr + elf + ph.offset;
    assert last / PAGE_SIZE < P.AlignAddress(end) / PAGE_SIZE;
    assert last / PAGE_SIZE - (elf + ph.offset) / PAGE_SIZE == a / PAGE_SIZE - FirstPage(ph);
  }

  /**
    Every byte of a congruent segment translates to its byte in the loaded file, present, open to
    the user, and writable exactly when the header asks for it.
   */
  lemma SegmentTranslates(view: P.View, elf: nat, phdrs: seq<Phdr>, stack: nat, i: nat, a: Word)
    requires ImageOk(Elf(elf, phdrs)) && Separate(elf, phdrs) && i < |phdrs| && Congruent(phdrs[i])
    requires stack % PAGE_SIZE == 0 && stack + STACK_SIZE <= 0xFFFF_F000
    requires phdrs[i].vaddr <= a < phdrs[i].vaddr + phdrs[i].memsz
    ensures var r := MapImage(view, Elf(elf, phdrs), stack);
      && P.Translate(r, a) == elf + phdrs[i].offset + (a - phdrs[i].vaddr)
      && P.IsPresent(r[a / PAGE_SIZE]) && P.IsUser(r[a / PAGE_SIZE])
      && (P.IsWriteable(r[a / PAGE_SIZE]) <==> WantsWrite(phdrs[i]))
  {
    hide PageCount, MapElf, P.MapPages, P.Translate;
    var ph, p := phdrs[i], a / PAGE_SIZE;
    SegmentCoversItsBytes(elf, ph, a);
    LastHeaderWins(view, elf, phdrs, p);
    var l := LastSegment(elf, phdrs, p);
    assert l == i;
    StackElsewhere(MapElf(view, elf, phdrs), stack, p);
    SegmentEntry(MapImage(view, Elf(elf, phdrs), stack), elf, ph, a);
  }

  /** The stack mapping leaves every other page alone. */
  lemma StackElsewhere(view: P.View, stack: nat, p: nat)
    requires stack % PAGE_SIZE == 0 && stack + STACK_SIZE <= 0xFFFF_F000 && p < FRAMES
    requires !(STACK_BOTTOM / PAGE_SIZE <= p < STACK_TOP / PAGE_SIZE)
    ensures MapStack(view, stack)[p] == view[p]
  {
  }

  lemma SegmentEntry(r: P.View, elf: nat, ph: Phdr, a: Word)
    requires elf % PAGE_SIZE == 0 && Addressable(elf, ph) && Congruent(ph) && ph.vaddr <= a < ph.vaddr + ph.memsz
    requires r[a / PAGE_SIZE] == ((elf + ph.offset) / PAGE_SIZE + a / PAGE_SIZE - FirstPage(ph)) * PAGE_SIZE + SegmentFlags(ph)
    ensures P.Translate(r, a) == elf + ph.offset + (a - ph.vaddr)
    ensures var e := r[a / PAGE_SIZE];
      P.IsPresent(e) && P.IsUser(e) && (P.IsWriteable(e) <==> WantsWrite(ph))
  {
    hide PageCount, P.IsPresent, P.IsUser, P.IsWriteable;
    var f := (elf + ph.offset) / PAGE_SIZE + a / PAGE_SIZE - FirstPage(ph);
    EntryBits(f, SegmentFlags(ph));
    assert (elf + ph.offset) % PAGE_SIZE == ph.vaddr % PAGE_SIZE;
  }

  /** An entry taken apart: frame and the three flag bits. */
  lemma EntryBits(f: nat, flags: nat)
    requires f < FRAMES && (flags == P.USER_READ || flags == P.USER_WRITE)
    ensures var e := f * PAGE_SIZE + flags;
      && P.Frame(e) == f && P.IsPresent(e) && P.IsUser(e) && (P.IsWriteable(e) <==> flags == P.USER_WRITE)
  {
  }

  /** The stack window translates into the process stack, writable; this holds for every header list. */
  lemma StackTranslates(view: P.View, image: Image, stack: nat, a: Word)
    requires ImageOk(image) && stack % PAGE_SIZE == 0 && stack + STACK_SIZE <= 0xFFFF_F000
    requires STACK_BOTTOM <= a < STACK_TOP
    ensures var r := MapImage(view, image, stack);
      && P.Translate(r, a) == stack + (a - STACK_BOTTOM)
      && P.IsPresent(r[a / PAGE_SIZE]) && P.IsUser(r[a / PAGE_SIZE]) && P.IsWriteable(r[a / PAGE_SIZE])
  {
    hide MapStack, MapElf, P.MapPages, P.IsPresent, P.IsUser, P.IsWriteable;
    match image
    case Elf(elf, phdrs) => StackEntry(MapElf(view, elf, phdrs), stack, a);
    case Binary(ptr, size) => StackEntry(MapBinary(view, ptr, size), stack, a);
  }

  lemma StackEntry(view: P.View, stack: nat, a: Word)
    requires stack % PAGE_SIZE == 0 && stack + STACK_SIZE <= 0xFFFF_F000 && STACK_BOTTOM <= a < STACK_TOP
    ensures var r := MapStack(view, stack);
      && P.Translate(r, a) == stack + (a - STACK_BOTTOM)
      && P.IsPresent(r[a / PAGE_SIZE]) && P.IsUser(r[a / PAGE_SIZE]) && P.IsWriteable(r[a / PAGE_SIZE])
  {
    hide P.IsPresent, P.IsUser, P.IsWriteable;
    EntryBits(stack / PAGE_SIZE + a / PAGE_SIZE - STACK_BOTTOM / PAGE_SIZE, P.USER_WRITE);
  }

  /** A page outside every segment and the stack keeps the read-only identity entry of task_init. */
  lemma OtherPagesStayReadOnly(image: Image, stack: nat, p: nat)
    requires ImageOk(image) && stack % PAGE_SIZE == 0 && stack + STACK_SIZE <= 0xFFFF_F000 && p < FRAMES
    requires !InImage(image, p) && !(STACK_BOTTOM / PAGE_SIZE <= p < STACK_TOP / PAGE_SIZE)
    ensures var e := MapImage(P.Identity(P.USER_READ), image, stack)[p];
      P.Frame(e) == p && P.IsPresent(e) && P.IsUser(e) && !P.IsWriteable(e)
  {
    hide MapElf, PageCount, MapStack, BinaryPages, P.IsPresent, P.IsUser, P.IsWriteable;
    var view := P.Identity(P.USER_READ);
    EntryBits(p, P.USER_READ);
    match image
    case Elf(elf, phdrs) =>
      LastHeaderWins(view, elf, phdrs, p);
      StackElsewhere(MapElf(view, elf, phdrs), stack, p);
    case Binary(ptr, size) => StackElsewhere(MapBinary(view, ptr, size), stack, p);
  }

  /** The first byte of a non-empty segment lands in the right place exactly when its offset is congruent. */
  lemma CongruenceIsNeeded(view: P.View, elf: nat, phdrs: seq<Phdr>, stack: nat, i: nat)
    requires ImageOk(Elf(elf, phdrs)) && Separate(elf, phdrs) && i < |phdrs| && phdrs[i].memsz > 0
    requires stack % PAGE_SIZE == 0 && stack + STACK_SIZE <= 0xFFFF_F000
    ensures P.Translate(MapImage(view, Elf(elf, phdrs), stack), phdrs[i].vaddr) == elf + phdrs[i].offset
      <==> Congruent(phdrs[i])
  {
    hide MapElf, P.MapPages, PageCount, FirstPage, P.Translate, Congruent, SegmentFlags;
    var ph, p := phdrs[i], FirstPage(phdrs[i]);
    FirstPageIsCovered(elf, ph);
    LastHeaderWins(view, elf, phdrs, p);
    assert LastSegment(elf, phdrs, p) == i;
    StackElsewhere(MapElf(view, elf, phdrs), stack, p);
    var r := MapImage(view, Elf(elf, phdrs), stack);
    FirstByte(r, elf, ph);
  }

  /** A header that breaks the rule: its first byte is read from the start of the file, not from offset 0x54. */
  lemma IncongruentSegment(view: P.View, stack: nat)
    requires stack % PAGE_SIZE == 0 && stack + STACK_SIZE <= 0xFFFF_F000
    ensures var elf, ph := 0x200_0000, Phdr(0x54, PROGRAM_VIRTUAL_ADDRESS, 1, 0);
      && ImageOk(Elf(elf, [ph])) && Separate(elf, [ph])
      && P.Translate(MapImage(view, Elf(elf, [ph]), stack), ph.vaddr) == elf != elf + ph.offset
  {
    hide MapElf;
    var elf, ph := 0x200_0000, Phdr(0x54, PROGRAM_VIRTUAL_ADDRESS, 1, 0);
    var p := FirstPage(ph);
    assert PageCount(elf, ph) == 1;
    LastHeaderWins(view, elf, [ph], p);
    StackElsewhere(MapElf(view, elf, [ph]), stack, p);
  }

  lemma FirstByte(r: P.View, elf: nat, ph: Phdr)
    requires elf % PAGE_SIZE == 0 && elf + ph.offset <= 0xFFFF_F000
    requires r[FirstPage(ph)] == ((elf + ph.offset) / PAGE_SIZE + FirstPage(ph) - FirstPage(ph)) * PAGE_SIZE + SegmentFlags(ph)
    ensures P.Translate(r, ph.vaddr) == elf + ph.offset <==> Congruent(ph)
  {
    EntryBits((elf + ph.offset) / PAGE_SIZE, SegmentFlags(ph));
    assert (elf + ph.offset) % PAGE_SIZE == ph.offset % PAGE_SIZE;
  }

  lemma FirstPageIsCovered(elf: nat, ph: Phdr)
    requires Addressable(elf, ph) && ph.memsz > 0
    ensures InPages(elf, ph, FirstPage(ph))
  {
  }

  /** A flat binary appears byte for byte, writable, from the program address on. */
  lemma BinaryTranslates(view: P.View, ptr: nat, size: nat, stack: nat, a: Word)
    requires ImageOk(Binary(ptr, size)) && stack % PAGE_SIZE == 0 && stack + STACK_SIZE <= 0xFFFF_F000
    requires PROGRAM_VIRTUAL_ADDRESS <= a < PROGRAM_VIRTUAL_ADDRESS + size
    ensures var r := MapImage(view, Binary(ptr, size), stack);
      && P.Translate(r, a) == ptr + (a - PROGRAM_VIRTUAL_ADDRESS)
      && P.IsPresent(r[a / PAGE_SIZE]) && P.IsUser(r[a / PAGE_SIZE]) && P.IsWriteable(r[a / PAGE_SIZE])
  {
    hide BinaryPages, MapStack, P.IsWriteable, P.IsPresent, P.IsUser;
    BinaryPage(ptr, size, a);
    StackElsewhere(MapBinary(view, ptr, size), stack, a / PAGE_SIZE);
    EntryBits(ptr / PAGE_SIZE + a / PAGE_SIZE - PROGRAM_VIRTUAL_ADDRESS / PAGE_SIZE, P.USER_WRITE);
  }

  lemma BinaryPage(ptr: nat, size: nat, a: Word)
    requires ImageOk(Binary(ptr, size)) && PROGRAM_VIRTUAL_ADDRESS <= a < PROGRAM_VIRTUAL_ADDRESS + size
    ensures var p := a / PAGE_SIZE;
      && InImage(Binary(ptr, size), p) && !(STACK_BOTTOM / PAGE_SIZE <= p < STACK_TOP / PAGE_SIZE)
      && (ptr / PAGE_SIZE + p - PROGRAM_VIRTUAL_ADDRESS / PAGE_SIZE) * PAGE_SIZE + a % PAGE_SIZE == ptr + (a - PROGRAM_VIRTUAL_ADDRESS)
  {
    hide BinaryPages;
  }

  /** paging_map_to on the directory of a task; its arguments are never refused here. */
  method MapToTask(k: Machine, chunk: nat, virt: Word, phys: Word, physEnd: Word, flags: nat) returns (res: int)
    requires k.Valid() && chunk < FRAMES && flags < PAGE_SIZE
    requires MapArgumentsOk(virt, phys, physEnd) && virt + (physEnd - phys) <= 0x1_0000_0000
    modifies k.ram
    ensures k.Valid() && res == 0
    ensures k.Mem() ==
      MapMem(old(k.Mem()), Dir(old(k.Mem()), chunk), virt / PAGE_SIZE, phys / PAGE_SIZE, (physEnd - phys) / PAGE_SIZE, flags)
  {
    hide MapMem;
    var d := WordAt(k.ram[chunk], 0) / PAGE_SIZE;
    res := k.PagingMapTo(d, virt, phys, physEnd, flags);
  }

  lemma SegmentArguments(elf: nat, ph: Phdr)
    requires Addressable(elf, ph)
    ensures elf + ph.offset + ph.memsz < 0x1_0000_0000
    ensures P.AlignAddress(elf + ph.offset + ph.memsz) < 0x1_0000_0000
    ensures var virt, phys, end := P.AlignToLowerPage(ph.vaddr), P.AlignToLowerPage(elf + ph.offset), P.AlignAddress(elf + ph.offset + ph.memsz);
      && 0 <= virt < 0x1_0000_0000 && 0 <= phys < 0x1_0000_0000
      && MapArgumentsOk(virt, phys, end) && virt + (end - phys) <= 0x1_0000_0000
      && virt / PAGE_SIZE == FirstPage(ph) && phys / PAGE_SIZE == (elf + ph.offset) / PAGE_SIZE
      && (end - phys) / PAGE_SIZE == PageCount(elf, ph)
  {
    Floor(ph.vaddr);
    Floor(elf + ph.offset);
    Ceiling(elf + ph.offset + ph.memsz);
  }

  lemma Floor(a: nat)
    ensures var low := P.AlignToLowerPage(a); 0 <= low <= a && low % PAGE_SIZE == 0 && low / PAGE_SIZE == a / PAGE_SIZE
  {
  }

  lemma Ceiling(a: nat)
    requires a <= 0xFFFF_F000
    ensures var high := P.AlignAddress(a); a <= high < a + PAGE_SIZE && high % PAGE_SIZE == 0 && high <= 0xFFFF_F000
  {
  }

  /** One round of the loop of process_map_elf. */
  method MapHeader(k: Machine, chunk: nat, elf: nat, ph: Phdr) returns (res: int)
    requires k.Valid() && chunk < FRAMES && Addressable(elf, ph)
    modifies k.ram
    ensures k.Valid() && res == 0
    ensures FirstPage(ph) + PageCount(elf, ph) <= FRAMES && (elf + ph.offset) / PAGE_SIZE + PageCount(elf, ph) <= FRAMES
    ensures k.Mem() ==
      MapMem(old(k.Mem()), Dir(old(k.Mem()), chunk), FirstPage(ph), (elf + ph.offset) / PAGE_SIZE, PageCount(elf, ph), SegmentFlags(ph))
  {
    hide PageCount, P.AlignAddress, P.AlignToLowerPage, MapArgumentsOk, FirstPage, MapMem, Dir;
    SegmentArguments(elf, ph);
    SegmentInRange(elf, ph);
    var flags := P.USER_READ;
    if ph.flags / 2 % 2 == 1 {
      flags := P.USER_WRITE;
    }
    res := MapToTask(k, chunk, P.AlignToLowerPage(ph.vaddr), P.AlignToLowerPage(elf + ph.offset),
                     P.AlignAddress(elf + ph.offset + ph.memsz), flags);
  }

  /** process_map_elf */
  method ProcessMapElf(k: Machine, chunk: nat, elf: nat, phdrs: seq<Phdr>) returns (res: int)
    requires k.Valid() && chunk < FRAMES && AllAddressable(elf, phdrs)
    modifies k.ram
    ensures k.Valid() && res == 0 && k.Mem() == MapElfMem(old(k.Mem()), chunk, elf, phdrs)
  {
    hide Addressable, PageCount, FirstPage, MapMem, Dir;
    res := 0;
    assert phdrs[..0] == [];
    var i := 0;
    while i < |phdrs|
      invariant 0 <= i <= |phdrs| && res == 0 && k.Valid()
      invariant k.Mem() == MapElfMem(old(k.Mem()), chunk, elf, phdrs[..i])
    {
      assert phdrs[..i + 1][..i] == phdrs[..i] && phdrs[..i + 1][i] == phdrs[i];
      res := MapHeader(k, chunk, elf, phdrs[i]);
      if res < 0 {
        break;
      }
      i := i + 1;
    }
    assert phdrs[..|phdrs|] == phdrs;
  }

  lemma StackArguments(stack: nat)
    requires stack % PAGE_SIZE == 0 && stack + STACK_SIZE <= 0xFFFF_F000
    ensures P.AlignAddress(stack + STACK_SIZE) == stack + STACK_SIZE && MapArgumentsOk(STACK_BOTTOM, stack, stack + STACK_SIZE)
  {
  }

  lemma BinaryArguments(ptr: nat, size: nat)
    requires ImageOk(Binary(ptr, size))
    ensures var end := P.AlignAddress(ptr + size);
      && MapArgumentsOk(PROGRAM_VIRTUAL_ADDRESS, ptr, end) && (end - ptr) / PAGE_SIZE == BinaryPages(ptr, size)
      && PROGRAM_VIRTUAL_ADDRESS + (end - ptr) <= 0x1_0000_0000
  {
    Ceiling(ptr + size);
    Ceiling(PROGRAM_VIRTUAL_ADDRESS + size);
  }

  /** process_map_memory; an unknown file type panics in the source and is no Image here. */
  method ProcessMapMemory(k: Machine, chunk: nat, image: Image, stack: nat) returns (res: int)
    requires k.Valid() && chunk < FRAMES && ImageOk(image)
    requires stack % PAGE_SIZE == 0 && stack + STACK_SIZE <= 0xFFFF_F000
    modifies k.ram
    ensures k.Valid() && res == 0 && k.Mem() == MapImageMem(old(k.Mem()), chunk, image, stack)
    ensures old(SpaceAt(k.Mem(), chunk)) ==> Remapped(old(k.Mem()), k.Mem(), chunk, MapImage(old(ViewAt(k.Mem(), chunk)), image, stack))
  {
    hide SpaceAt, ViewAt, Addressable, MapMem, MapElfMem, Remapped, MapImage, P.AlignAddress, BinaryPages, AllAddressable, Open;
    StackArguments(stack);
    res := 0;
    match image {
      case Elf(elf, phdrs) =>
        var ignored := ProcessMapElf(k, chunk, elf, phdrs);
      case Binary(ptr, size) =>
        BinaryArguments(ptr, size);
        res := MapToTask(k, chunk, PROGRAM_VIRTUAL_ADDRESS, ptr, P.AlignAddress(ptr + size), P.USER_WRITE);
    }
    if res < 0 {
      return;
    }
    var mapped := MapToTask(k, chunk, STACK_BOTTOM, stack, P.AlignAddress(stack + STACK_SIZE), P.USER_WRITE);
    if old(SpaceAt(k.Mem(), chunk)) { MapImageRemaps(old(k.Mem()), chunk, image, stack); }
  }
}
