/**
  copy_string_from_task: a string is carried from a task's address space to the kernel through
  a scratch block that is mapped into the task for the duration of the copy.
 */
module TaskCopy {
  import opened Status
  import opened HeapTable
  import opened Memory
  import opened KernelState
  import opened KernelMachine
  import opened AddressSpace
  import P = Paging

  /** The byte at a physical address. */
  function Peek(m: Ram, a: Word): Byte {
    m[a / PAGE_SIZE][a % PAGE_SIZE]
  }

  /** The NUL-terminated string that starts at a virtual address, cut to `n` bytes. */
  ghost function TaskString(m: Ram, view: P.View, virt: nat, n: nat): (s: seq<Byte>)
    requires virt + n <= 0x1_0000_0000
    ensures |s| <= n && 0 !in s
    decreases n
  {
    if n == 0 then []
    else
      var b := Peek(m, P.Translate(view, virt));
      if b == 0 then [] else [b] + TaskString(m, view, virt + 1, n - 1)
  }

  /** Byte by byte: the string's own bytes, then a NUL unless the cut came first. */
  lemma {:induction false} TaskStringAt(m: Ram, view: P.View, virt: nat, n: nat, i: nat)
    requires virt + n <= 0x1_0000_0000 && i < n
    ensures var s := TaskString(m, view, virt, n);
      && (i < |s| ==> Peek(m, P.Translate(view, virt + i)) == s[i] && s[i] != 0)
      && (i == |s| ==> Peek(m, P.Translate(view, virt + i)) == 0)
    decreases n
  {
    hide Peek, P.Translate;
    if Peek(m, P.Translate(view, virt)) != 0 && i > 0 {
      TaskStringAt(m, view, virt + 1, n - 1, i - 1);
    }
  }

  /** A byte outside frame `f` and outside the word at `entry`. */
  predicate Untouched(a: Word, f: nat, entry: nat) {
    a / PAGE_SIZE != f && !(entry <= a < entry + 4)
  }

  /** A virtual address outside page `f` whose byte is untouched. */
  ghost predicate ByteClear(view: P.View, a: Word, f: nat, entry: nat) {
    a / PAGE_SIZE != f && Untouched(P.Translate(view, a), f, entry)
  }

  /** Reading the string touches neither page nor frame `f`, nor the word at `entry`. */
  ghost predicate ReadsAvoid(m: Ram, view: P.View, virt: nat, n: nat, f: nat, entry: nat)
    requires virt + n <= 0x1_0000_0000
  {
    forall a: nat :: virt <= a <= virt + |TaskString(m, view, virt, n)| && a < virt + n ==> ByteClear(view, a, f, entry)
  }

  /** Physical address of the table entry of page `f`. */
  function EntryAddress(m: Ram, d: nat, f: nat): nat
    requires d < FRAMES && f < FRAMES
  {
    P.Table(m, d, f / ENTRIES) * PAGE_SIZE + 4 * (f % ENTRIES)
  }

  /** The string depends only on the bytes that reading it touches. */
  lemma {:induction false} SameString(m: Ram, m': Ram, view: P.View, view': P.View, virt: nat, n: nat, f: nat, entry: nat)
    requires virt + n <= 0x1_0000_0000 && ReadsAvoid(m, view, virt, n, f, entry)
    requires forall p: nat :: p < FRAMES && p != f ==> view'[p] == view[p]
    requires forall a: Word :: Untouched(a, f, entry) ==> Peek(m', a) == Peek(m, a)
    ensures TaskString(m', view', virt, n) == TaskString(m, view, virt, n)
    ensures ReadsAvoid(m', view', virt, n, f, entry)
    decreases n
  {
    if n > 0 {
      var s := TaskString(m, view, virt, n);
      assert ByteClear(view, virt, f, entry);
      assert P.Translate(view', virt) == P.Translate(view, virt);
      assert Peek(m', P.Translate(view', virt)) == Peek(m, P.Translate(view, virt));
      if Peek(m, P.Translate(view, virt)) != 0 {
        SameString(m, m', view, view', virt + 1, n - 1, f, entry);
      }
    }
  }

  /** A page whose first bytes are `s`. */
  ghost function Prefixed(p: Page, s: seq<Byte>): Page
    requires |s| <= PAGE_SIZE
  {
    s + p[|s|..]
  }

  /** strncpy while the task's directory is loaded: both addresses go through its tables. */
  method StrncpyInTask(k: Machine, d: nat, dest: Word, src: Word, count: nat, ghost entry: nat)
    requires k.ram.Length == FRAMES && d < FRAMES && P.Space(k.Mem(), d) && 1 <= count <= PAGE_SIZE
    requires dest % PAGE_SIZE == 0 && src + count <= 0x1_0000_0000
    requires var f := dest / PAGE_SIZE;
      && P.Frame(P.ViewOf(k.Mem(), d)[f]) == f && P.ViewOf(k.Mem(), d)[f] % 2 == 1 && f != d && f !in P.Tables(k.Mem(), d)
      && ReadsAvoid(k.Mem(), P.ViewOf(k.Mem(), d), src, count - 1, f, entry)
    modifies k.ram
    ensures var f, s := dest / PAGE_SIZE, TaskString(old(k.Mem()), old(P.ViewOf(k.Mem(), d)), src, count - 1);
      k.Mem() == old(k.Mem())[f := Prefixed(old(k.Mem())[f], s + [0])]
  {
    hide P.ViewOf, P.Tables, P.Space, P.Translate, Peek, Prefixed, TaskString, ReadsAvoid;
    ghost var m0, view, f := k.Mem(), P.ViewOf(k.Mem(), d), dest / PAGE_SIZE;
    ghost var s := TaskString(m0, view, src, count - 1);
    PrefixNothing(m0[f], s);
    var i := 0;
    while i < count - 1
      invariant 0 <= i <= |s| && i <= count - 1
      invariant k.Mem() == m0[f := Prefixed(m0[f], s[..i])]
    {
      ReadStep(m0, k.Mem(), d, f, src, count - 1, i, entry);
      PrefixStep(m0[f], s, i);
      PeekIs(k.Mem(), P.Translate(view, src + i));
      var from := k.PagingGetPhysicalAddress(d, src + i);
      var b := k.ram[from / PAGE_SIZE][from % PAGE_SIZE];
      if b == 0 {
        break;
      }
      DestinationByte(view, dest, i);
      var to := k.PagingGetPhysicalAddress(d, dest + i);
      k.ram[to / PAGE_SIZE] := k.ram[to / PAGE_SIZE][to % PAGE_SIZE := b];
      i := i + 1;
    }
    P.ViewFrame(m0, k.Mem(), d);
    DestinationByte(view, dest, i);
    PrefixEnd(m0[f], s, i);
    var to := k.PagingGetPhysicalAddress(d, dest + i);
    k.ram[to / PAGE_SIZE] := k.ram[to / PAGE_SIZE][to % PAGE_SIZE := 0];
  }

  /** The i-th read sees the string as it was before the copy began, and stops exactly at its end. */
  lemma ReadStep(m0: Ram, m: Ram, d: nat, f: nat, src: Word, n: nat, i: nat, entry: nat)
    requires d < FRAMES && P.Space(m0, d) && f < FRAMES && src + n <= 0x1_0000_0000 && i < n
    requires f != d && f !in P.Tables(m0, d) && ReadsAvoid(m0, P.ViewOf(m0, d), src, n, f, entry)
    requires forall g: nat :: g < FRAMES && g != f ==> m[g] == m0[g]
    ensures P.ViewOf(m, d) == P.ViewOf(m0, d)
    ensures var view, s := P.ViewOf(m0, d), TaskString(m0, P.ViewOf(m0, d), src, n);
      var b := Peek(m, P.Translate(view, src + i));
      i <= |s| ==> (b == 0 <==> i == |s|) && (i < |s| ==> b == s[i])
  {
    hide P.ViewOf, P.Tables, P.Space;
    P.ViewFrame(m0, m, d);
    var view, s := P.ViewOf(m0, d), TaskString(m0, P.ViewOf(m0, d), src, n);
    TaskStringAt(m0, view, src, n, i);
    if i <= |s| { assert ByteClear(view, src + i, f, entry); }
  }

  lemma PeekIs(m: Ram, a: Word)
    ensures Peek(m, a) == m[a / PAGE_SIZE][a % PAGE_SIZE]
  {
  }

  lemma PrefixNothing(p: Page, s: seq<Byte>)
    ensures Prefixed(p, s[..0]) == p
  {
  }

  lemma PrefixStep(p: Page, s: seq<Byte>, i: nat)
    requires |s| < PAGE_SIZE && i <= |s|
    ensures i < |s| ==> Prefixed(p, s[..i + 1]) == Prefixed(p, s[..i])[i := s[i]]
  {
    if i < |s| { assert s[..i + 1] == s[..i] + [s[i]]; }
  }

  lemma PrefixEnd(p: Page, s: seq<Byte>, i: nat)
    requires |s| < PAGE_SIZE && i == |s|
    ensures Prefixed(p, s + [0]) == Prefixed(p, s[..i])[i := 0]
  {
    assert s[..i] == s;
  }

  lemma DestinationByte(view: P.View, dest: Word, i: nat)
    requires dest % PAGE_SIZE == 0 && i < PAGE_SIZE && P.Frame(view[dest / PAGE_SIZE]) == dest / PAGE_SIZE
    ensures dest + i < 0x1_0000_0000
    ensures P.Translate(view, dest + i) == dest + i
    ensures (dest + i) / PAGE_SIZE == dest / PAGE_SIZE && (dest + i) % PAGE_SIZE == i
  {
  }

  /** `s` stored at a physical address and followed by NUL; nothing else changed outside page `f`. */
  ghost predicate Stored(m: Ram, m': Ram, phys: nat, s: seq<Byte>, i: nat)
    requires phys + |s| <= 0x1_0000_0000 && i <= |s|
  {
    && (forall a: Word :: phys <= a < phys + i ==> Peek(m', a) == s[a - phys])
    && (forall a: Word :: !(phys <= a < phys + i) ==> Peek(m', a) == Peek(m, a))
  }

  lemma PokeStores(m0: Ram, m: Ram, phys: nat, s: seq<Byte>, i: nat)
    requires phys + |s| <= 0x1_0000_0000 && i < |s| && Stored(m0, m, phys, s, i)
    ensures var a := phys + i;
      Stored(m0, m[a / PAGE_SIZE := m[a / PAGE_SIZE][a % PAGE_SIZE := s[i]]], phys, s, i + 1)
  {
    var a := phys + i;
    var m' := m[a / PAGE_SIZE := m[a / PAGE_SIZE][a % PAGE_SIZE := s[i]]];
    forall b: Word ensures Peek(m', b) == if b == a then s[i] else Peek(m, b) {
      assert b / PAGE_SIZE == a / PAGE_SIZE && b % PAGE_SIZE == a % PAGE_SIZE ==> b == a;
    }
  }

  /** strncpy under the kernel's identity map from a page that starts with `s` and a NUL. */
  method StrncpyInKernel(k: Machine, dest: Word, src: Word, count: nat, ghost s: seq<Byte>)
    requires k.ram.Length == FRAMES && src % PAGE_SIZE == 0 && |s| < count <= PAGE_SIZE && 0 !in s
    requires dest + count <= 0x1_0000_0000 && (dest + count <= src || src + PAGE_SIZE <= dest)
    requires k.ram[src / PAGE_SIZE][..|s| + 1] == s + [0]
    modifies k.ram
    ensures Stored(old(k.Mem()), k.Mem(), dest, s + [0], |s| + 1)
  {
    ghost var m0, t := k.Mem(), s + [0];
    var i := 0;
    while i < count - 1
      invariant 0 <= i <= |s|
      invariant Stored(m0, k.Mem(), dest, t, i)
    {
      SourceByte(m0, k.Mem(), src, dest, t, i);
      var b := k.ram[(src + i) / PAGE_SIZE][(src + i) % PAGE_SIZE];
      assert b == t[i];
      if b == 0 {
        break;
      }
      PokeStores(m0, k.Mem(), dest, t, i);
      var a := dest + i;
      k.ram[a / PAGE_SIZE] := k.ram[a / PAGE_SIZE][a % PAGE_SIZE := b];
      i := i + 1;
    }
    PokeStores(m0, k.Mem(), dest, t, i);
    var a := dest + i;
    k.ram[a / PAGE_SIZE] := k.ram[a / PAGE_SIZE][a % PAGE_SIZE := 0];
  }

  lemma SourceByte(m0: Ram, m: Ram, src: Word, dest: Word, t: seq<Byte>, i: nat)
    requires src % PAGE_SIZE == 0 && i < |t| <= PAGE_SIZE && dest + |t| <= 0x1_0000_0000
    requires dest + |t| <= src || src + PAGE_SIZE <= dest
    requires Stored(m0, m, dest, t, i) && m0[src / PAGE_SIZE][..|t|] == t
    ensures src + i < 0x1_0000_0000 && (src + i) / PAGE_SIZE == src / PAGE_SIZE && (src + i) % PAGE_SIZE == i
    ensures m[src / PAGE_SIZE][i] == t[i]
  {
    assert Peek(m, src + i) == Peek(m0, src + i);
    assert m0[src / PAGE_SIZE][..|t|][i] == t[i];
  }

  // ---------------------------------------------------------------- the whole copy

  /** Mapping the scratch page and putting the old entry back restores every table byte. */
  lemma PteRestored(m1: Ram, m2: Ram, m3: Ram, m4: Ram, d: nat, f: nat, w: Word)
    requires d < FRAMES && f < FRAMES && P.Space(m1, d) && f != d && f !in P.Tables(m1, d)
    requires m2 == P.SetPte(m1, d, f, w)
    requires forall g: nat :: g < FRAMES && g != f ==> m3[g] == m2[g]
    requires m4 == P.SetPte(m3, d, f, P.ViewOf(m1, d)[f])
    ensures forall g: nat :: g < FRAMES && g != f ==> m4[g] == m1[g]
    ensures m4[f] == m3[f]
  {
    hide SetWord, WordAt;
    var i, j := f / ENTRIES, f % ENTRIES;
    var t := P.Table(m1, d, i);
    assert t in P.Tables(m1, d);
    assert m2[d] == m1[d] && m3[d] == m1[d];
    assert P.Table(m3, d, i) == t;
    var entry := WordAt(m1[t], j);
    assert P.ViewOf(m1, d)[f] == entry;
    SetWordTwice(m1[t], j, w, entry);
    SetWordSame(m1[t], j);
  }

  /** The string is the same after the scratch block is zeroed and mapped. */
  lemma StringSurvivesMapping(m: Ram, m2: Ram, c: nat, f: nat, virt: nat, n: nat, entry: nat)
    requires c < FRAMES && f < FRAMES && SpaceAt(m, c) && virt + n <= 0x1_0000_0000
    requires ReadsAvoid(m, ViewAt(m, c), virt, n, f, entry)
    requires Dir(m2, c) == Dir(m, c) && ViewAt(m2, c) == ViewAt(m, c)[f := f * PAGE_SIZE + P.USER_WRITE]
    requires forall a: Word :: Untouched(a, f, entry) ==> Peek(m2, a) == Peek(m, a)
    ensures TaskString(m2, ViewAt(m2, c), virt, n) == TaskString(m, ViewAt(m, c), virt, n)
    ensures ReadsAvoid(m2, ViewAt(m2, c), virt, n, f, entry)
  {
    hide TaskString, ViewAt, Footprint, ReadsAvoid, Peek, Untouched, Open;
    SameString(m, m2, ViewAt(m, c), ViewAt(m2, c), virt, n, f, entry);
  }

  /** The buffer lies outside the scratch block and the page tables of the task. */
  ghost predicate BufferClear(m: Ram, c: nat, phys: nat, max: nat, f: int)
    requires c < FRAMES && phys + max <= 0x1_0000_0000
  {
    forall a: Word :: phys <= a < phys + max ==> a / PAGE_SIZE != f && a / PAGE_SIZE !in Footprint(m, c)
  }

  /** Zeroing a fresh scratch block leaves the address space as it was. */
  lemma ScratchIsSeparate(ks: KState, c: nat, max: nat)
    requires Ok(ks) && c < FRAMES && SpaceAt(ks.mem, c) && SingleRuns(ks.live, Footprint(ks.mem, c))
    requires 0 < max < PAGE_SIZE && StartBlock(ks.table, 1) >= 0
    ensures BlocksFor(max) == 1 && Fits(ks.table, 1)
    ensures var f, ks1 := NewFrame(ks), Zalloc(ks, max);
      && Ok(ks1) && HEAP_FRAME <= f && f - HEAP_FRAME !in ks.live && ks1.live == ks.live[f - HEAP_FRAME := 1]
      && ScratchReady(ks.mem, ks1.mem, c, f)
  {
    hide Refines, StartBlock, Footprint, SpaceAt, ViewAt, Zalloc, BlocksFor, FreeRun, Open;
    BlocksForPage(max);
    OneBlockFits(ks.table);
    ZallocFacts(ks, max);
    SpaceFrame(ks.mem, Zalloc(ks, max).mem, c);
  }

  /** `s` and a NUL at the buffer; every other byte outside the scratch page `f` as it was. */
  ghost predicate BufferWritten(m: Ram, m': Ram, phys: nat, s: seq<Byte>, f: int)
    requires phys + |s| < 0x1_0000_0000
  {
    && (forall a: Word :: phys <= a < phys + |s| ==> Peek(m', a) == s[a - phys])
    && Peek(m', phys + |s|) == 0
    && (forall a: Word :: !(phys <= a <= phys + |s|) && a / PAGE_SIZE != f ==> Peek(m', a) == Peek(m, a))
    && (forall g: nat :: g < FRAMES && g != f && !(phys / PAGE_SIZE <= g <= (phys + |s|) / PAGE_SIZE) ==> m'[g] == m[g])
  }

  /** The scratch frame `f` is a heap frame apart from the address space, which is as in `m`, and so is all other memory. */
  ghost predicate ScratchReady(m: Ram, m1: Ram, c: nat, f: nat) {
    && c < FRAMES && HEAP_FRAME <= f < HEAP_FRAME + HEAP_BLOCKS
    && SpaceAt(m, c) && SpaceAt(m1, c)
    && f !in Footprint(m, c) && Footprint(m1, c) == Footprint(m, c) && ViewAt(m1, c) == ViewAt(m, c)
    && (forall g: nat :: g < FRAMES && g != f ==> m1[g] == m[g])
  }

  /** The part of copy_string_from_task between allocating and freeing the scratch block; `m` is memory before. */
  method CopyThroughScratch(k: Machine, chunk: nat, virt: Word, phys: nat, max: nat, tmp: Word, ghost m: Ram, ghost f: nat)
    returns (res: int)
    requires k.ram.Length == FRAMES && ScratchReady(m, k.Mem(), chunk, f) && 1 <= max < PAGE_SIZE
    requires chunk < FRAMES && virt + max <= 0x1_0000_0000 && phys + max <= 0x1_0000_0000 && tmp == f * PAGE_SIZE
    requires BufferClear(m, chunk, phys, max, f)
    requires ReadsAvoid(m, ViewAt(m, chunk), virt, max - 1, f, EntryAddress(m, Dir(m, chunk), f))
    modifies k.ram
    ensures res == 0
    ensures BufferWritten(m, k.Mem(), phys, TaskString(m, ViewAt(m, chunk), virt, max - 1), f)
  {
    hide Footprint, SpaceAt, ViewAt, TaskString, ReadsAvoid, Prefixed, Peek, P.Space, P.Tables, P.SetPte, P.ViewOf, Stored, BufferClear, EntryAddress, Untouched, Open;
    ghost var m1 := k.Mem();
    ghost var s := TaskString(m, ViewAt(m, chunk), virt, max - 1);
    SpaceParts(m1, chunk);
    var d := WordAt(k.ram[chunk], 0) / PAGE_SIZE;
    var oldEntry := k.PagingGet(d, tmp);
    res := k.PagingMap(d, tmp, tmp, P.USER_WRITE);
    ghost var m2 := k.Mem();
    ScratchMapped(m, m1, m2, chunk, f);
    ghost var entry := EntryAddress(m, Dir(m, chunk), f);
    OnlyEntryTouched(m, m1, m2, chunk, f);
    StringSurvivesMapping(m, m2, chunk, f, virt, max - 1, entry);
    SpaceParts(m2, chunk);
    StrncpyInTask(k, d, tmp, virt, max, entry);
    ghost var m3 := k.Mem();
    res := k.PagingSet(d, tmp, oldEntry);
    ghost var m4 := k.Mem();
    PteRestored(m1, m2, m3, m4, d, f, tmp + P.USER_WRITE);
    ScratchStarts(m2[f], s);
    BufferApart(m, chunk, phys, max, tmp, f);
    StrncpyInKernel(k, phys, tmp, max, s);
    BufferOnly(m, m4, k.Mem(), phys, s, f, max);
  }

  lemma BufferApart(m: Ram, c: nat, phys: nat, max: nat, tmp: Word, f: nat)
    requires c < FRAMES && 1 <= max && phys + max <= 0x1_0000_0000 && BufferClear(m, c, phys, max, f) && tmp == f * PAGE_SIZE
    ensures phys + max <= tmp || tmp + PAGE_SIZE <= phys
  {
    if tmp < phys + max && phys < tmp + PAGE_SIZE {
      var a := ByteInFrame(phys, max, f);
    }
  }

  lemma ByteInFrame(phys: nat, max: nat, g: nat) returns (a: Word)
    requires phys + max <= 0x1_0000_0000 && phys < g * PAGE_SIZE + PAGE_SIZE && g * PAGE_SIZE < phys + max
    requires 1 <= max
    ensures phys <= a < phys + max && a / PAGE_SIZE == g
  {
    a := if phys < g * PAGE_SIZE then g * PAGE_SIZE else phys;
  }

  /** Zeroing and mapping the scratch block changes that block and one word of one table. */
  lemma OnlyEntryTouched(m: Ram, m1: Ram, m2: Ram, c: nat, f: nat)
    requires c < FRAMES && f < FRAMES && SpaceAt(m, c) && f !in Footprint(m, c)
    requires forall g: nat :: g < FRAMES && g != f ==> m1[g] == m[g]
    requires m2 == P.SetPte(m1, Dir(m1, c), f, f * PAGE_SIZE + P.USER_WRITE)
    ensures var entry := EntryAddress(m, Dir(m, c), f);
      forall a: Word :: Untouched(a, f, entry) ==> Peek(m2, a) == Peek(m, a)
  {
    hide WordAt, SetWord;
    var d := Dir(m, c);
    assert c in Footprint(m, c) && d in Footprint(m, c);
    assert Dir(m1, c) == d && m1[d] == m[d];
    var t, j := P.Table(m, d, f / ENTRIES), f % ENTRIES;
    assert t in P.Tables(m, d) && P.Table(m1, d, f / ENTRIES) == t && t != f;
    forall a: Word | Untouched(a, f, EntryAddress(m, d, f)) ensures Peek(m2, a) == Peek(m, a) {
      if a / PAGE_SIZE == t {
        SetWordElsewhere(m[t], j, f * PAGE_SIZE + P.USER_WRITE, a % PAGE_SIZE);
      }
    }
  }

  /**
    What a finished copy means: the buffer holds exactly the string that the task saw through its
    own tables, cut to max-1 bytes, and a NUL; the heap table and every byte of the task's page
    tables are as before; no other byte changed outside the scratch block, which is free again.
   */
  ghost predicate Copied(ks: KState, ks': KState, c: nat, virt: Word, phys: nat, max: nat)
    requires c < FRAMES && 1 <= max && virt + max <= 0x1_0000_0000 && phys + max <= 0x1_0000_0000
  {
    var s := TaskString(ks.mem, ViewAt(ks.mem, c), virt, max - 1);
    && ks'.table == ks.table && ks'.live == ks.live
    && SpaceAt(ks'.mem, c) && ViewAt(ks'.mem, c) == ViewAt(ks.mem, c)
    && (forall g :: g in Footprint(ks.mem, c) ==> g < FRAMES && ks'.mem[g] == ks.mem[g])
    && BufferWritten(ks.mem, ks'.mem, phys, s, NewFrame(ks))
  }

  lemma CopyFinishes(ks: KState, m1: Ram, ks5: KState, c: nat, virt: Word, phys: nat, max: nat)
    requires Ok(ks) && Ok(ks5) && c < FRAMES && SpaceAt(ks.mem, c) && SingleRuns(ks.live, Footprint(ks.mem, c))
    requires 1 <= max && virt + max <= 0x1_0000_0000 && phys + max <= 0x1_0000_0000
    requires BufferClear(ks.mem, c, phys, max, NewFrame(ks))
    requires var f := NewFrame(ks);
      && f >= HEAP_FRAME && ScratchReady(ks.mem, m1, c, f)
      && f - HEAP_FRAME !in ks.live && ks5.live == ks.live[f - HEAP_FRAME := 1]
    requires BufferWritten(ks.mem, ks5.mem, phys, TaskString(ks.mem, ViewAt(ks.mem, c), virt, max - 1), NewFrame(ks))
    ensures Copied(ks, Release(ks5, NewFrame(ks) - HEAP_FRAME), c, virt, phys, max)
  {
    hide Refines, Footprint, SpaceAt, ViewAt, TaskString, Peek, BufferClear, NewFrame, FreeAt, Open;
    FootprintKept(ks, ks5.mem, c, phys, max, TaskString(ks.mem, ViewAt(ks.mem, c), virt, max - 1));
    ReleasedLive(ks, ks5, NewFrame(ks) - HEAP_FRAME);
  }

  /**
    What the caller owes if a block is left for the copy: the buffer lies outside that block and the
    task's page tables, and the string outside that block and the one table entry that maps it.
   */
  ghost predicate CopyClear(ks: KState, c: nat, virt: Word, phys: nat, max: nat)
    requires c < FRAMES && 1 <= max && virt + max <= 0x1_0000_0000 && phys + max <= 0x1_0000_0000
  {
    var f := NewFrame(ks);
    StartBlock(ks.table, 1) >= 0 && 0 <= f < FRAMES ==>
      && BufferClear(ks.mem, c, phys, max, f)
      && ReadsAvoid(ks.mem, ViewAt(ks.mem, c), virt, max - 1, f, EntryAddress(ks.mem, Dir(ks.mem, c), f))
  }

  method TakeScratch(k: Machine, max: nat) returns (tmp: Word)
    requires k.Valid() && 1 <= max < PAGE_SIZE && BlocksFor(max) == 1 && Fits(k.State().table, 1)
    modifies k.heap`live, k.heap.entries, k.ram
    ensures k.Valid() && k.State() == Zalloc(old(k.State()), max)
    ensures tmp == if StartBlock(old(k.State()).table, 1) < 0 then 0 else AddressOf(StartBlock(old(k.State()).table, 1))
  {
    tmp := k.KZalloc(max);
  }

  method FreeScratch(k: Machine, tmp: Word, ghost f: nat)
    requires k.Valid() && tmp == f * PAGE_SIZE && HEAP_FRAME <= f && f - HEAP_FRAME in k.State().live
    modifies k.heap`live, k.heap.entries
    ensures k.Valid() && k.State() == Release(old(k.State()), f - HEAP_FRAME)
  {
    k.KFree(tmp);
  }

  /** copy_string_from_task: refused sizes and a full heap change nothing; otherwise the string is copied. */
  method CopyStringFromTask(k: Machine, chunk: nat, virt: Word, phys: nat, max: nat) returns (res: int)
    requires k.Valid() && chunk < FRAMES && SpaceAt(k.Mem(), chunk) && 1 <= max
    requires SingleRuns(k.State().live, Footprint(k.Mem(), chunk))
    requires max < PAGE_SIZE ==>
      virt + max <= 0x1_0000_0000 && phys + max <= 0x1_0000_0000 && CopyClear(k.State(), chunk, virt, phys, max)
    modifies k.heap`live, k.heap.entries, k.ram
    ensures k.Valid()
    ensures res == if max >= PAGE_SIZE then -EINVARG else if StartBlock(old(k.State()).table, 1) < 0 then -ENOMEM else 0
    ensures res != 0 ==> k.State() == old(k.State())
    ensures res == 0 ==> Copied(old(k.State()), k.State(), chunk, virt, phys, max)
  {
    if max >= PAGE_SIZE {
      return -EINVARG;
    }
    hide Refines, StartBlock, Footprint, SpaceAt, ViewAt, Zalloc, BlocksFor, Fits, Copied, CopyClear, SingleRuns, Open;
    ghost var ks := k.State();
    BlocksForPage(max);
    OneBlockFits(ks.table);
    var tmp := TakeScratch(k, max);
    if tmp == 0 {
      ZallocRefused(ks, max);
      return -ENOMEM;
    }
    res := CopyAndFree(k, chunk, virt, phys, max, tmp, ks);
  }

  /** The copy once the scratch block is there; `ks` is the kernel before. */
  method CopyAndFree(k: Machine, chunk: nat, virt: Word, phys: nat, max: nat, tmp: Word, ghost ks: KState) returns (res: int)
    requires k.Valid() && Ok(ks) && chunk < FRAMES && SpaceAt(ks.mem, chunk) && SingleRuns(ks.live, Footprint(ks.mem, chunk))
    requires 1 <= max < PAGE_SIZE && virt + max <= 0x1_0000_0000 && phys + max <= 0x1_0000_0000 && CopyClear(ks, chunk, virt, phys, max)
    requires StartBlock(ks.table, 1) >= 0 && tmp == AddressOf(StartBlock(ks.table, 1))
    requires BlocksFor(max) == 1 && Fits(ks.table, 1) && k.State() == Zalloc(ks, max)
    modifies k.heap`live, k.heap.entries, k.ram
    ensures k.Valid() && res == 0 && Copied(ks, k.State(), chunk, virt, phys, max)
  {
    hide Refines, StartBlock, Footprint, SpaceAt, ViewAt, Zalloc, BlocksFor, TaskString, ReadsAvoid, Peek, Release, Fits, Copied, BufferClear, EntryAddress, BufferWritten, SingleRuns, ScratchReady, NewFrame, Open;
    ScratchIsSeparate(ks, chunk, max);
    NewFrameIs(ks);
    ghost var f := NewFrame(ks);
    ghost var ks1 := k.State();
    assert tmp == f * PAGE_SIZE;
    res := CopyThroughScratch(k, chunk, virt, phys, max, tmp, ks.mem, f);
    ghost var ks5 := k.State();
    assert ks5.live == ks1.live;
    CopyFinishes(ks, ks1.mem, ks5, chunk, virt, phys, max);
    FreeScratch(k, tmp, f);
  }

  lemma SpaceParts(m: Ram, c: nat)
    requires c < FRAMES && SpaceAt(m, c)
    ensures P.Space(m, Dir(m, c)) && Dir(m, c) in Footprint(m, c) && c in Footprint(m, c)
    ensures P.Tables(m, Dir(m, c)) <= Footprint(m, c) && ViewAt(m, c) == P.ViewOf(m, Dir(m, c))
  {
  }

  lemma ScratchMapped(m: Ram, m1: Ram, m2: Ram, c: nat, f: nat)
    requires c < FRAMES && f < FRAMES && SpaceAt(m, c) && SpaceAt(m1, c) && Footprint(m1, c) == Footprint(m, c) && ViewAt(m1, c) == ViewAt(m, c)
    requires f !in Footprint(m, c) && forall g: nat :: g < FRAMES && g != f ==> m1[g] == m[g]
    requires m2 == P.SetPte(m1, Dir(m1, c), f, f * PAGE_SIZE + P.USER_WRITE)
    ensures SpaceAt(m2, c) && Footprint(m2, c) == Footprint(m, c) && Dir(m2, c) == Dir(m, c) == Dir(m1, c)
    ensures ViewAt(m2, c) == ViewAt(m, c)[f := f * PAGE_SIZE + P.USER_WRITE]
    ensures forall g: nat :: g < FRAMES && g !in Footprint(m, c) + {f} ==> m2[g] == m[g]
    ensures P.Frame(ViewAt(m2, c)[f]) == f && ViewAt(m2, c)[f] % 2 == 1
  {
    hide P.ViewOf, P.Space, P.Tables, P.SetPte, P.Frame;
    P.SetPteView(m1, Dir(m1, c), f, f * PAGE_SIZE + P.USER_WRITE);
    assert m2[c] == m1[c];
    assert c in Footprint(m, c);
    ScratchEntry(f);
  }

  lemma ScratchEntry(f: nat)
    requires f < FRAMES
    ensures P.Frame(f * PAGE_SIZE + P.USER_WRITE) == f && (f * PAGE_SIZE + P.USER_WRITE) % 2 == 1
  {
  }

  lemma ScratchStarts(p: Page, s: seq<Byte>)
    requires |s| < PAGE_SIZE
    ensures Prefixed(p, s + [0])[..|s| + 1] == s + [0]
  {
  }

  /** After the second copy: the string in the buffer, every other byte outside the scratch page as at the start. */
  lemma BufferOnly(m: Ram, m4: Ram, m5: Ram, phys: nat, s: seq<Byte>, f: nat, max: nat)
    requires |s| < max && phys + max <= 0x1_0000_0000 && max < PAGE_SIZE
    requires forall g: nat :: g < FRAMES && g != f ==> m4[g] == m[g]
    requires Stored(m4, m5, phys, s + [0], |s| + 1)
    ensures BufferWritten(m, m5, phys, s, f)
  {
    forall g: nat | g < FRAMES && g != f && !(phys / PAGE_SIZE <= g <= (phys + |s|) / PAGE_SIZE) ensures m5[g] == m[g] {
      forall i | 0 <= i < PAGE_SIZE ensures m5[g][i] == m[g][i] {
        var a := g * PAGE_SIZE + i;
        assert a / PAGE_SIZE == g && a % PAGE_SIZE == i;
        assert Peek(m5, a) == Peek(m4, a);
      }
    }
  }

  lemma FootprintKept(ks: KState, m: Ram, c: nat, phys: nat, max: nat, s: seq<Byte>)
    requires c < FRAMES && SpaceAt(ks.mem, c) && |s| < max && phys + max <= 0x1_0000_0000
    requires BufferClear(ks.mem, c, phys, max, NewFrame(ks)) && BufferWritten(ks.mem, m, phys, s, NewFrame(ks))
    requires NewFrame(ks) !in Footprint(ks.mem, c)
    ensures SpaceAt(m, c) && ViewAt(m, c) == ViewAt(ks.mem, c)
    ensures forall g :: g in Footprint(ks.mem, c) ==> g < FRAMES && m[g] == ks.mem[g]
  {
    FramesExist(ks.mem, c);
    hide Footprint, ViewAt, SpaceAt, NewFrame, Open;
    forall g: nat | g in Footprint(ks.mem, c) ensures g < FRAMES && m[g] == ks.mem[g] {
      if phys / PAGE_SIZE <= g <= (phys + |s|) / PAGE_SIZE {
        var a := ByteInFrame(phys, max, g);
      }
    }
    SpaceFrame(ks.mem, m, c);
  }

  lemma FramesExist(m: Ram, c: nat)
    requires c < FRAMES
    ensures forall g :: g in Footprint(m, c) ==> 0 <= g < FRAMES
  {
  }

  lemma ReleasedLive(ks: KState, ks5: KState, b: nat)
    requires Ok(ks) && Ok(ks5) && b !in ks.live && ks5.live == ks.live[b := 1] && b in ks5.live
    ensures Release(ks5, b).live == ks.live && Release(ks5, b).table == ks.table
  {
    hide Refines, FreeAt;
    ReleaseOk(ks5, b);
    assert ks.live[b := 1] - {b} == ks.live;
    LiveDeterminesTable(ks, Release(ks5, b));
  }
}
