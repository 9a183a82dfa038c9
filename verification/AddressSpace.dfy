/**
  Address spaces in the heap: one block for the chunk structure, one for the directory and
  one for each of the 1024 tables. Construction and release as functions on KState.
 */
module AddressSpace {
  import opened HeapTable
  import opened HeapTheory
  import opened Memory
  import opened KernelState
  import opened Mmu
  import P = Paging

  const SPACE_BLOCKS := 1026

  // ---------------------------------------------------------------- layout

  /** The directory frame that a chunk structure points to. */
  function Dir(m: Ram, c: nat): (d: nat)
    requires c < FRAMES
    ensures d < FRAMES
  {
    WordAt(m[c], 0) / PAGE_SIZE
  }

  /** Chunk, directory and tables of an address space are pairwise distinct frames. */
  ghost predicate SpaceAt(m: Ram, c: nat) {
    c < FRAMES && P.Space(m, Dir(m, c)) && c != Dir(m, c) && c !in P.Tables(m, Dir(m, c))
  }

  ghost function Footprint(m: Ram, c: nat): set<nat>
    requires c < FRAMES
  {
    {c, Dir(m, c)} + P.Tables(m, Dir(m, c))
  }

  ghost function ViewAt(m: Ram, c: nat): P.View
    requires c < FRAMES
  {
    P.ViewOf(m, Dir(m, c))
  }

  /** Every directory word is present, open to user code, and writeable. */
  ghost predicate Open(m: Ram, c: nat)
    requires c < FRAMES
  {
    DirectoryIs(m, Dir(m, c), P.USER_WRITE)
  }

  lemma TablesInFootprint(m: Ram, c: nat)
    requires c < FRAMES
    ensures P.Tables(m, Dir(m, c)) <= Footprint(m, c)
  {
  }

  /** Memory outside the footprint has no influence on an address space. */
  lemma SpaceFrame(m: Ram, m': Ram, c: nat)
    requires SpaceAt(m, c) && forall g: nat :: g in Footprint(m, c) ==> m'[g] == m[g]
    ensures SpaceAt(m', c) && Footprint(m', c) == Footprint(m, c) && ViewAt(m', c) == ViewAt(m, c)
    ensures Open(m', c) <==> Open(m, c)
  {
    P.ViewFrame(m, m', Dir(m, c));
  }

  /** paging_map_to on a whole address space: the flat view changes as stated, the footprint does not. */
  lemma MapKeepsSpace(m: Ram, c: nat, v: nat, f: nat, n: nat, flags: nat)
    requires SpaceAt(m, c) && v + n <= FRAMES && f + n <= FRAMES && flags < PAGE_SIZE
    ensures var r := MapMem(m, Dir(m, c), v, f, n, flags);
      && SpaceAt(r, c) && Footprint(r, c) == Footprint(m, c)
      && ViewAt(r, c) == P.MapPages(ViewAt(m, c), v, f, n, flags) && (Open(r, c) <==> Open(m, c))
      && (forall g: nat :: g < FRAMES && g !in P.Tables(m, Dir(m, c)) ==> r[g] == m[g])
  {
    hide P.ViewOf, P.Space, P.Tables, P.MapPages, MapMem;
    MapMemView(m, Dir(m, c), v, f, n, flags);
  }

  /** The heap table with the one-block runs of a set of frames marked, or cleared. */
  ghost function MarkFrames(t: seq<Entry>, fs: set<nat>): (r: seq<Entry>)
    ensures |r| == |t|
  {
    seq(|t|, k requires 0 <= k < |t| => if FrameOf(k) in fs then RunCell(0, 1) else t[k])
  }

  ghost function ClearFrames(t: seq<Entry>, fs: set<nat>): (r: seq<Entry>)
    ensures |r| == |t|
  {
    seq(|t|, k requires 0 <= k < |t| => if FrameOf(k) in fs then FREE else t[k])
  }

  ghost function Blocks(fs: set<nat>): (bs: set<nat>)
    ensures forall b: nat :: b in bs <==> b < HEAP_BLOCKS && FrameOf(b) in fs
  {
    set b: nat | b < HEAP_BLOCKS && FrameOf(b) in fs
  }

  /** The live map of one-block runs on a set of frames. */
  ghost function Singles(fs: set<nat>): map<nat, nat> {
    map b | b in Blocks(fs) :: 1
  }

  ghost predicate HeapFrames(fs: set<nat>) {
    forall f :: f in fs ==> HEAP_FRAME <= f < HEAP_FRAME + HEAP_BLOCKS
  }

  /** Every frame of the set is a live run of one block. */
  ghost predicate SingleRuns(live: map<nat, nat>, fs: set<nat>) {
    HeapFrames(fs) && forall f :: f in fs ==> f - HEAP_FRAME in live && live[f - HEAP_FRAME] == 1
  }

  // ---------------------------------------------------------------- taking single pages

  lemma {:induction false} FreeBlockExists(t: seq<Entry>, k: nat)
    requires FreeFrom(t, k) >= 1
    ensures HasRun(t, 1)
    decreases |t| - k
  {
    if IsFree(t[k]) { assert FreeRun(t, k, 1); } else { FreeBlockExists(t, k + 1); }
  }

  lemma {:induction false} TakeOneCounts(t: seq<Entry>, s: nat, k: nat)
    requires s < |t| && IsFree(t[s])
    ensures FreeFrom(t, k) == FreeFrom(MarkTaken(t, s, 1), k) + (if k <= s then 1 else 0)
    decreases |t| - k
  {
    CellBits(0, 1);
    if k < |t| { TakeOneCounts(t, s, k + 1); }
  }

  /** The frame that a one-block kzalloc returns. */
  ghost function NewFrame(ks: KState): int {
    HEAP_FRAME + StartBlock(ks.table, 1)
  }

  lemma NewFrameIs(ks: KState)
    ensures NewFrame(ks) == HEAP_FRAME + StartBlock(ks.table, 1)
  {
  }

  /** `ks` is `ks0` after taking the one-block runs of `fs`, all of them free before. */
  ghost predicate Took(ks0: KState, ks: KState, fs: set<nat>) {
    && Ok(ks0) && Ok(ks) && HeapFrames(fs)
    && (forall f :: f in fs ==> ks0.table[f - HEAP_FRAME] == FREE)
    && ks.table == MarkFrames(ks0.table, fs)
    && ks.live == ks0.live + Singles(fs)
    && FreeFrom(ks.table, 0) + |fs| == FreeFrom(ks0.table, 0)
    && (forall g: nat :: g < FRAMES && g !in fs ==> ks.mem[g] == ks0.mem[g])
  }

  lemma TookNothing(ks: KState)
    requires Ok(ks)
    ensures Took(ks, ks, {})
  {
    assert MarkFrames(ks.table, {}) == ks.table;
    assert ks.live + Singles({}) == ks.live;
  }

  lemma BlocksForPage(size: nat)
    requires 0 < size <= PAGE_SIZE
    ensures BlocksFor(size) == 1
  {
  }

  /** A kzalloc of at most a page while a block is free: a fresh frame joins the taken set. */
  lemma TakePage(ks0: KState, ks: KState, fs: set<nat>, size: nat)
    requires Took(ks0, ks, fs) && 0 < size <= PAGE_SIZE && |fs| < FreeFrom(ks0.table, 0)
    ensures BlocksFor(size) == 1 && Fits(ks.table, 1) && StartBlock(ks.table, 1) >= 0
    ensures var f := NewFrame(ks);
      && HEAP_FRAME <= f < HEAP_FRAME + HEAP_BLOCKS && f !in fs
      && Took(ks0, Zalloc(ks, size), fs + {f})
      && (forall g: nat :: g < FRAMES && g != f ==> Zalloc(ks, size).mem[g] == ks.mem[g])
  {
    hide Refines, StartBlock, HasRun, Fits, ZeroFill, MarkTaken, MarkFrames, Singles, Blocks, FreeFrom, RunCell, BlocksFor;
    BlocksForPage(size);
    FreeBlockExists(ks.table, 0);
    StartBlockFound(ks.table, 1);
    ZallocFacts(ks, size);
    var s: nat := StartBlock(ks.table, 1);
    var f := HEAP_FRAME + s;
    TakeOneCounts(ks.table, s, 0);
    CellBits(0, 1);
    FreeMeansUncovered(ks0.table, ks0.live, s);
    TakePageTable(ks0, ks, fs, s);
  }

  lemma TakePageTable(ks0: KState, ks: KState, fs: set<nat>, s: nat)
    requires Ok(ks0) && Ok(ks) && s < HEAP_BLOCKS && IsFree(ks.table[s])
    requires ks.table == MarkFrames(ks0.table, fs) && ks.live == ks0.live + Singles(fs)
    ensures HEAP_FRAME + s !in fs && ks.table[s] == ks0.table[s]
    ensures MarkTaken(ks.table, s, 1) == MarkFrames(ks0.table, fs + {HEAP_FRAME + s})
    ensures ks.live[s := 1] == ks0.live + Singles(fs + {HEAP_FRAME + s})
  {
    CellBits(0, 1);
  }

  lemma StoreInTaken(ks0: KState, ks: KState, fs: set<nat>, f: nat, p: Page)
    requires Took(ks0, ks, fs) && f in fs && f < FRAMES
    ensures Took(ks0, ks.(mem := ks.mem[f := p]), fs)
  {
  }

  // ---------------------------------------------------------------- paging_new_4gb

  /** flags | PAGING_IS_WRITEABLE */
  function WithWriteable(flags: nat): nat {
    if P.IsWriteable(flags % 0x100) then flags else flags + P.WRITEABLE
  }

  /** Table `i` of the identity map after its first `n` entries are written. */
  ghost function FillWords(p: Page, i: nat, flags: nat, n: nat): Page
    requires i < ENTRIES && n <= ENTRIES && flags < 0x100
  {
    if n == 0 then p else SetWord(FillWords(p, i, flags, n - 1), n - 1, (i * ENTRIES + (n - 1)) * PAGE_SIZE + flags)
  }

  lemma {:induction false} FillWordsAt(p: Page, i: nat, flags: nat, n: nat, b: nat)
    requires i < ENTRIES && b < n <= ENTRIES && flags < 0x100
    ensures WordAt(FillWords(p, i, flags, n), b) == (i * ENTRIES + b) * PAGE_SIZE + flags
  {
    if b < n - 1 { FillWordsAt(p, i, flags, n - 1, b); }
  }

  /** One round of the construction loop: a new table, filled, and named by directory word `i`. */
  ghost function BuildStep(ks: KState, d: nat, i: nat, flags: nat): KState
    requires d < FRAMES && i < ENTRIES && flags < 0x100 && 0 <= NewFrame(ks) < FRAMES
  {
    var f := NewFrame(ks);
    var m1 := Zalloc(ks, PAGE_SIZE).mem;
    var m2 := m1[f := FillWords(m1[f], i, flags, ENTRIES)];
    Zalloc(ks, PAGE_SIZE).(mem := m2[d := SetWord(m2[d], i, f * PAGE_SIZE + WithWriteable(flags))])
  }

  ghost predicate FirstTables(m: Ram, d: nat, n: nat, fs: set<nat>) {
    && d < FRAMES && n <= ENTRIES
    && (forall j: nat :: j < n ==> P.Table(m, d, j) in fs && P.Table(m, d, j) != d)
    && (forall f :: f in fs ==> f == d || exists j: nat :: j < n && P.Table(m, d, j) == f)
    && (forall i: nat, j: nat :: i < j < n ==> P.Table(m, d, i) != P.Table(m, d, j))
  }

  ghost predicate Filled(m: Ram, d: nat, n: nat, flags: nat)
    requires d < FRAMES && n <= ENTRIES
  {
    forall j: nat, b: nat :: j < n && b < ENTRIES ==>
      WordAt(m[P.Table(m, d, j)], b) == (j * ENTRIES + b) * PAGE_SIZE + flags
  }

  /** The first n directory words: the flags of the entries, and always writeable. */
  ghost predicate Opened(m: Ram, d: nat, n: nat, flags: nat)
    requires d < FRAMES && n <= ENTRIES
  {
    forall j: nat :: j < n ==> WordAt(m[d], j) % 0x1000 == DirectoryFlags(flags)
  }

  /** The low bits of a directory word: those of `flags`, and bit 1 set. */
  function DirectoryFlags(flags: nat): nat {
    flags + if flags / 2 % 2 == 1 then 0 else 2
  }

  /** After `n` rounds: the directory and n tables are the taken frames, and the tables are filled. */
  ghost predicate Building(ks0: KState, ks: KState, d: nat, n: nat, flags: nat, fs: set<nat>) {
    && d < FRAMES && Took(ks0, ks, fs) && d in fs && |fs| == n + 1 && flags < 0x100
    && FirstTables(ks.mem, d, n, fs) && Filled(ks.mem, d, n, flags) && Opened(ks.mem, d, n, flags)
  }

  lemma BuildStepBuilds(ks0: KState, ks: KState, d: nat, n: nat, flags: nat, fs: set<nat>)
    requires Building(ks0, ks, d, n, flags, fs) && n < ENTRIES && FreeFrom(ks0.table, 0) >= SPACE_BLOCKS
    ensures Fits(ks.table, 1) && StartBlock(ks.table, 1) >= 0 && NewFrame(ks) < FRAMES && NewFrame(ks) != d
    ensures Building(ks0, BuildStep(ks, d, n, flags), d, n + 1, flags, fs + {NewFrame(ks)})
  {
    hide Took, FirstTables, Filled, Opened, Zalloc, NewFrame, StartBlock, Fits, FillWords, WordAt, SetWord, WithWriteable;
    OpenWord(flags);
    TakePage(ks0, ks, fs, PAGE_SIZE);
    var f := NewFrame(ks);
    var ks1 := Zalloc(ks, PAGE_SIZE);
    var fs' := fs + {f};
    var p := FillWords(ks1.mem[f], n, flags, ENTRIES);
    var ks2 := ks1.(mem := ks1.mem[f := p]);
    var w := f * PAGE_SIZE + WithWriteable(flags);
    StoreInTaken(ks0, ks1, fs', f, p);
    StoreInTaken(ks0, ks2, fs', d, SetWord(ks2.mem[d], n, w));
    forall b: nat | b < ENTRIES ensures WordAt(p, b) == (n * ENTRIES + b) * PAGE_SIZE + flags {
      FillWordsAt(ks1.mem[f], n, flags, ENTRIES, b);
    }
    BuildStepTables(ks.mem, BuildStep(ks, d, n, flags).mem, d, n, flags, fs, f, w);
    BuildStepOpens(ks.mem, BuildStep(ks, d, n, flags).mem, d, n, flags, f, w);
  }

  lemma OpenWord(flags: nat)
    requires flags < 0x100
    ensures WithWriteable(flags) < 0x200
  {
  }

  lemma BuildStepOpens(m: Ram, m': Ram, d: nat, n: nat, flags: nat, f: nat, w: Word)
    requires d < FRAMES && n < ENTRIES && Opened(m, d, n, flags) && m'[d] == SetWord(m[d], n, w)
    requires flags < 0x100 && w == f * PAGE_SIZE + WithWriteable(flags)
    ensures Opened(m', d, n + 1, flags)
  {
    hide SetWord, WordAt;
    assert flags % 0x100 == flags && WithWriteable(flags) == DirectoryFlags(flags);
  }

  /** The memory side of a round. */
  lemma BuildStepTables(m: Ram, m': Ram, d: nat, n: nat, flags: nat, fs: set<nat>, f: nat, w: Word)
    requires FirstTables(m, d, n, fs) && Filled(m, d, n, flags) && d in fs
    requires n < ENTRIES && f < FRAMES && f !in fs && w / PAGE_SIZE == f
    requires m'[d] == SetWord(m[d], n, w)
    requires forall g: nat :: g < FRAMES && g != f && g != d ==> m'[g] == m[g]
    requires forall b: nat :: b < ENTRIES ==> WordAt(m'[f], b) == (n * ENTRIES + b) * PAGE_SIZE + flags
    ensures FirstTables(m', d, n + 1, fs + {f}) && Filled(m', d, n + 1, flags)
  {
    hide SetWord, WordAt;
    assert P.Table(m', d, n) == f;
    assert forall j: nat :: j < n ==> P.Table(m', d, j) == P.Table(m, d, j);
    assert forall j: nat :: j < n ==> m'[P.Table(m', d, j)] == m[P.Table(m, d, j)];
  }

  /** The whole of paging_new_4gb: directory, 1024 tables, chunk. */
  ghost function BuildTables(ks: KState, d: nat, n: nat, flags: nat): KState
    requires d < FRAMES && n <= ENTRIES && flags < 0x100
  {
    if n == 0 then ks
    else
      var prev := BuildTables(ks, d, n - 1, flags);
      if 0 <= NewFrame(prev) < FRAMES then BuildStep(prev, d, n - 1, flags) else prev
  }

  ghost function BuiltState(ks: KState, flags: nat): KState
    requires flags < 0x100 && 0 <= NewFrame(ks) < FRAMES
  {
    BuildTables(Zalloc(ks, PAGE_SIZE), NewFrame(ks), ENTRIES, flags)
  }

  ghost function New4gb(ks: KState, flags: nat): KState
    requires flags < 0x100 && 0 <= NewFrame(ks) < FRAMES && 0 <= NewFrame(BuiltState(ks, flags)) < FRAMES
  {
    var ks2 := BuiltState(ks, flags);
    var ks3 := Zalloc(ks2, 4);
    ks3.(mem := ks3.mem[NewFrame(ks2) := SetWord(ks3.mem[NewFrame(ks2)], 0, NewFrame(ks) * PAGE_SIZE)])
  }

  lemma {:induction false} BuildTablesBuilds(ks0: KState, ks: KState, d: nat, n: nat, flags: nat) returns (fs: set<nat>)
    requires Took(ks0, ks, {d}) && d < FRAMES && n <= ENTRIES && flags < 0x100 && FreeFrom(ks0.table, 0) >= SPACE_BLOCKS
    ensures Building(ks0, BuildTables(ks, d, n, flags), d, n, flags, fs)
  {
    hide Took, FirstTables, Filled, Opened, BuildStep;
    if n == 0 {
      fs := {d};
      BuildingStarts(ks0, ks, d, flags);
    } else {
      var fs1 := BuildTablesBuilds(ks0, ks, d, n - 1, flags);
      var prev := BuildTables(ks, d, n - 1, flags);
      BuildStepBuilds(ks0, prev, d, n - 1, flags, fs1);
      fs := fs1 + {NewFrame(prev)};
    }
  }

  lemma BuildingStarts(ks0: KState, ks: KState, d: nat, flags: nat)
    requires Took(ks0, ks, {d}) && d < FRAMES && flags < 0x100
    ensures Building(ks0, ks, d, 0, flags, {d})
  {
  }

  lemma BuiltIsIdentity(m: Ram, d: nat, flags: nat, fs: set<nat>)
    requires FirstTables(m, d, ENTRIES, fs) && Filled(m, d, ENTRIES, flags) && flags < 0x100 && d in fs
    ensures P.Space(m, d) && P.ViewOf(m, d) == P.Identity(flags) && {d} + P.Tables(m, d) == fs
  {
    forall p | 0 <= p < FRAMES ensures P.ViewOf(m, d)[p] == P.Identity(flags)[p] {
      var j, b := p / ENTRIES, p % ENTRIES;
      assert WordAt(m[P.Table(m, d, j)], b) == (j * ENTRIES + b) * PAGE_SIZE + flags;
    }
  }

  /**
    paging_new_4gb with 1026 free blocks: the flat view is the identity over all 2^20 pages, and
    exactly 1026 pairwise distinct blocks, all free before, are now one-block runs.
   */
  lemma New4gbBuilds(ks: KState, flags: nat)
    requires Ok(ks) && flags < 0x100 && FreeFrom(ks.table, 0) >= SPACE_BLOCKS
    ensures 0 <= NewFrame(ks) < FRAMES && 0 <= NewFrame(BuiltState(ks, flags)) < FRAMES
    ensures var r, c := New4gb(ks, flags), NewFrame(BuiltState(ks, flags));
      && HEAP_FRAME <= c < HEAP_FRAME + HEAP_BLOCKS
      && SpaceAt(r.mem, c) && ViewAt(r.mem, c) == P.Identity(flags) && Dir(r.mem, c) == NewFrame(ks)
      && DirectoryIs(r.mem, NewFrame(ks), flags + if flags / 2 % 2 == 1 then 0 else 2)
      && |Footprint(r.mem, c)| == SPACE_BLOCKS && Took(ks, r, Footprint(r.mem, c))
  {
    hide Took, FirstTables, Filled, Opened, DirectoryIs, Zalloc, NewFrame, StartBlock, Fits, FillWords, WordAt, SetWord, P.ViewOf, BuildTables, P.Identity, P.Space, P.Tables;
    TookNothing(ks);
    TakePage(ks, ks, {}, PAGE_SIZE);
    var d := NewFrame(ks);
    assert {} + {d} == {d};
    var fs := BuildTablesBuilds(ks, Zalloc(ks, PAGE_SIZE), d, ENTRIES, flags);
    var ks2 := BuiltState(ks, flags);
    BuiltIsIdentity(ks2.mem, d, flags, fs);
    TakePage(ks, ks2, fs, 4);
    var c, ks3 := NewFrame(ks2), Zalloc(ks2, 4);
    var r := New4gb(ks, flags);
    StoreInTaken(ks, ks3, fs + {c}, c, SetWord(ks3.mem[c], 0, d * PAGE_SIZE));
    assert Dir(r.mem, c) == d;
    AllOpened(ks2.mem, r.mem, d, flags);
    P.ViewFrame(ks2.mem, r.mem, d);
    assert Footprint(r.mem, c) == fs + {c};
  }

  lemma AllOpened(m: Ram, r: Ram, d: nat, flags: nat)
    requires d < FRAMES && Opened(m, d, ENTRIES, flags) && r[d] == m[d]
    ensures DirectoryIs(r, d, flags + if flags / 2 % 2 == 1 then 0 else 2)
  {
    hide WordAt;
  }

  // ---------------------------------------------------------------- paging_free_4gb

  /** The first `n` tables of a directory released, in directory order. */
  ghost function ReleaseTables(ks: KState, d: nat, n: nat): KState
    requires d < FRAMES && n <= ENTRIES
  {
    if n == 0 then ks
    else
      var f := P.Table(ks.mem, d, n - 1);
      if f < HEAP_FRAME then ReleaseTables(ks, d, n - 1) else Release(ReleaseTables(ks, d, n - 1), f - HEAP_FRAME)
  }

  /** Tables, then directory, then chunk. */
  ghost function Free4gb(ks: KState, c: nat): KState
    requires c < FRAMES && HEAP_FRAME <= Dir(ks.mem, c) && HEAP_FRAME <= c
  {
    var d := Dir(ks.mem, c);
    Release(Release(ReleaseTables(ks, d, ENTRIES), d - HEAP_FRAME), c - HEAP_FRAME)
  }

  /** `ks` is `ks0` after releasing the one-block runs of `fs`. */
  ghost predicate Gave(ks0: KState, ks: KState, fs: set<nat>) {
    && Ok(ks0) && Ok(ks)
    && ks.table == ClearFrames(ks0.table, fs)
    && ks.live == ks0.live - Blocks(fs)
    && ks.mem == ks0.mem
  }

  lemma GaveNothing(ks: KState)
    requires Ok(ks)
    ensures Gave(ks, ks, {})
  {
    assert ClearFrames(ks.table, {}) == ks.table;
  }

  lemma GivePage(ks0: KState, ks: KState, fs: set<nat>, f: nat)
    requires Gave(ks0, ks, fs) && f !in fs && SingleRuns(ks0.live, {f})
    ensures f >= HEAP_FRAME && f - HEAP_FRAME in ks.live && Gave(ks0, Release(ks, f - HEAP_FRAME), fs + {f})
  {
    assert f in {f};
    var b := f - HEAP_FRAME;
    assert FrameOf(b) == f;
    hide Refines, FreeAt, RunCell;
    ReleaseOk(ks, b);
    var t := Release(ks, b).table;
    assert ks0.live - Blocks(fs) - {b} == ks0.live - Blocks(fs + {f});
    forall k | 0 <= k < |t| ensures t[k] == ClearFrames(ks0.table, fs + {f})[k] {
      assert FrameOf(k) == f <==> k == b;
    }
  }

  /** Frames of the first `n` tables. */
  ghost function SomeTables(m: Ram, d: nat, n: nat): set<nat>
    requires d < FRAMES && n <= ENTRIES
  {
    if n == 0 then {} else SomeTables(m, d, n - 1) + {P.Table(m, d, n - 1)}
  }

  lemma {:induction false} SomeTablesAre(m: Ram, d: nat, n: nat)
    requires d < FRAMES && n <= ENTRIES
    ensures forall f :: f in SomeTables(m, d, n) <==> exists i: nat :: i < n && P.Table(m, d, i) == f
  {
    if n > 0 { SomeTablesAre(m, d, n - 1); }
  }

  lemma {:induction false} ReleaseTablesGives(ks: KState, d: nat, n: nat)
    requires Ok(ks) && d < FRAMES && P.Space(ks.mem, d) && n <= ENTRIES && SingleRuns(ks.live, P.Tables(ks.mem, d))
    ensures Gave(ks, ReleaseTables(ks, d, n), SomeTables(ks.mem, d, n))
  {
    hide Refines, Gave, Release, WordAt, P.Table;
    if n == 0 {
      GaveNothing(ks);
    } else {
      ReleaseTablesGives(ks, d, n - 1);
      SomeTablesAre(ks.mem, d, n - 1);
      var f := P.Table(ks.mem, d, n - 1);
      assert f in P.Tables(ks.mem, d);
      GivePage(ks, ReleaseTables(ks, d, n - 1), SomeTables(ks.mem, d, n - 1), f);
    }
  }

  /** paging_free_4gb releases exactly the footprint. */
  lemma Free4gbGives(ks: KState, c: nat)
    requires Ok(ks) && SpaceAt(ks.mem, c) && SingleRuns(ks.live, Footprint(ks.mem, c))
    ensures HEAP_FRAME <= Dir(ks.mem, c) && HEAP_FRAME <= c
    ensures Gave(ks, Free4gb(ks, c), Footprint(ks.mem, c))
  {
    hide Refines, Gave, Release;
    var d := Dir(ks.mem, c);
    var m := ks.mem;
    assert c in Footprint(m, c) && d in Footprint(m, c);
    ReleaseTablesGives(ks, d, ENTRIES);
    SomeTablesAre(m, d, ENTRIES);
    assert SomeTables(m, d, ENTRIES) == P.Tables(m, d);
    var ks1 := ReleaseTables(ks, d, ENTRIES);
    GivePage(ks, ks1, P.Tables(m, d), d);
    GivePage(ks, Release(ks1, d - HEAP_FRAME), P.Tables(m, d) + {d}, c);
    assert P.Tables(m, d) + {d} + {c} == Footprint(m, c);
  }

  /** Release of an address space whose set of frames is as it was built restores the heap table. */
  lemma ReleaseUndoesBuild(ks: KState, flags: nat, m: Ram)
    requires Ok(ks) && flags < 0x100 && FreeFrom(ks.table, 0) >= SPACE_BLOCKS
    requires 0 <= NewFrame(ks) < FRAMES && 0 <= NewFrame(BuiltState(ks, flags)) < FRAMES
    requires var c := NewFrame(BuiltState(ks, flags));
      SpaceAt(m, c) && Footprint(m, c) == Footprint(New4gb(ks, flags).mem, c)
    ensures var c := NewFrame(BuiltState(ks, flags));
      && HEAP_FRAME <= c && HEAP_FRAME <= Dir(m, c)
      && Free4gb(New4gb(ks, flags).(mem := m), c).table == ks.table
      && Free4gb(New4gb(ks, flags).(mem := m), c).live == ks.live
  {
    hide FreeFrom, New4gb, BuiltState, NewFrame, Free4gb, Footprint, SpaceAt;
    New4gbBuilds(ks, flags);
    var c, r := NewFrame(BuiltState(ks, flags)), New4gb(ks, flags).(mem := m);
    var fs := Footprint(m, c);
    TookIsSingleRuns(ks, New4gb(ks, flags), fs);
    Free4gbGives(r, c);
    GiveUndoesTake(ks, New4gb(ks, flags), fs);
  }

  lemma TookIsSingleRuns(ks0: KState, ks: KState, fs: set<nat>)
    requires Took(ks0, ks, fs)
    ensures SingleRuns(ks.live, fs)
  {
    hide Refines, MarkFrames, FreeFrom, Singles;
    forall f | f in fs ensures f - HEAP_FRAME in ks.live && ks.live[f - HEAP_FRAME] == 1 {
      SingleOf(fs, f);
    }
  }

  lemma SingleOf(fs: set<nat>, f: nat)
    requires f in fs && HEAP_FRAME <= f < HEAP_FRAME + HEAP_BLOCKS
    ensures f - HEAP_FRAME in Singles(fs) && Singles(fs)[f - HEAP_FRAME] == 1
  {
    hide Blocks;
    assert FrameOf(f - HEAP_FRAME) == f;
  }

  lemma GiveUndoesTake(ks0: KState, ks: KState, fs: set<nat>)
    requires Took(ks0, ks, fs)
    ensures ClearFrames(ks.table, fs) == ks0.table
    ensures ks.live - Blocks(fs) == ks0.live
  {
    forall k | 0 <= k < |ks0.table| ensures ClearFrames(ks.table, fs)[k] == ks0.table[k] {
      if FrameOf(k) in fs { assert ks0.table[FrameOf(k) - HEAP_FRAME] == FREE; }
    }
    forall b | b in ks0.live ensures b !in Blocks(fs) {
      assert Covers(ks0.live, b, b);
      assert FrameOf(b) in fs ==> ks0.table[FrameOf(b) - HEAP_FRAME] == FREE;
      CellBits(0, ks0.live[b]);
    }
  }
}
