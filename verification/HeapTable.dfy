/**
  The block table of the kernel heap as a pure value: one byte per 4096-byte block,
  the map of live runs that the bytes encode, the first-fit search and the two markings.
  Nothing here has state; the class in Heap.dfy is proved equal to these functions.
 */
module HeapTable {
  import opened Status

  const BLOCK_SIZE := 4096
  const WORD_LIMIT := 0x1_0000_0000

  type Entry = bv8

  const FREE: Entry := 0x00
  const TAKEN: Entry := 0x01
  const HAS_NEXT: Entry := 0x80
  const IS_FIRST: Entry := 0x40

  /** The low nibble says whether the block is free or taken. */
  predicate IsFree(e: Entry) {
    e & 0x0F == FREE
  }

  predicate HasNext(e: Entry) {
    e & HAS_NEXT != 0
  }

  /** Rounding a 32-bit size up to whole blocks, with the wrap of 32-bit addition. */
  function AlignUpper(val: nat): nat
    requires val < WORD_LIMIT
  {
    if val % BLOCK_SIZE == 0 then val else (val - val % BLOCK_SIZE + BLOCK_SIZE) % WORD_LIMIT
  }

  function BlocksFor(size: nat): nat
    requires size < WORD_LIMIT
  {
    AlignUpper(size) / BLOCK_SIZE
  }

  /** The rounding is the least multiple of the block size that holds `val`, exactly when no wrap happens. */
  lemma AlignUpperIsLeastMultiple(val: nat)
    requires val < WORD_LIMIT
    ensures val <= 0xFFFF_F000 <==> val <= AlignUpper(val)
    ensures val <= 0xFFFF_F000 ==> AlignUpper(val) % 0x1000 == 0 && AlignUpper(val) < val + 0x1000
    ensures val > 0xFFFF_F000 ==> AlignUpper(val) == 0
  {
    if val > 0xFFFF_F000 {
      assert val / BLOCK_SIZE == 0xFFFFF;
    }
  }

  // ---------------------------------------------------------------- runs

  /** The byte that a run of `n` blocks stores in its `k`-th block. */
  function RunCell(k: nat, n: nat): Entry
    requires k < n
  {
    TAKEN | (if k == 0 then IS_FIRST else 0) | (if k < n - 1 then HAS_NEXT else 0)
  }

  /** The bytes of a run: a block alone, the first of several, those between, the last. */
  lemma RunBytes(n: nat)
    ensures forall k: nat :: k < n ==>
      RunCell(k, n) == if n == 1 then 0x41 else if k == 0 then 0xC1 else if k == n - 1 then 0x01 else 0x81
  {
    Flags();
  }

  lemma Flags()
    ensures TAKEN | IS_FIRST | 0 == 0x41 && TAKEN | IS_FIRST | HAS_NEXT == 0xC1
    ensures TAKEN | 0 | 0 == 0x01 && TAKEN | 0 | HAS_NEXT == 0x81
  {
  }

  ghost predicate Covers(live: map<nat, nat>, s: nat, k: int) {
    s in live && s <= k < s + live[s]
  }

  /** The table encodes exactly the runs of `live`: start block to length. */
  ghost predicate Refines(t: seq<Entry>, live: map<nat, nat>) {
    && (forall s :: s in live ==> 1 <= live[s] && s + live[s] <= |t|)
    && (forall s: nat, k: nat :: Covers(live, s, k) ==> k < |t| && t[k] == RunCell(k - s, live[s]))
    && (forall k :: 0 <= k < |t| && t[k] != FREE ==> exists s: nat :: Covers(live, s, k))
  }

  ghost predicate FreeRun(t: seq<Entry>, s: nat, n: nat) {
    s + n <= |t| && forall k :: s <= k < s + n ==> IsFree(t[k])
  }

  ghost predicate HasRun(t: seq<Entry>, n: nat) {
    exists s: nat :: FreeRun(t, s, n)
  }

  // ---------------------------------------------------------------- the search

  ghost function LeastFrom(t: seq<Entry>, n: nat, from: nat): (s: nat)
    requires exists s: nat :: from <= s && FreeRun(t, s, n)
    ensures from <= s && FreeRun(t, s, n)
    ensures forall r: nat :: from <= r < s ==> !FreeRun(t, r, n)
    decreases |t| - from
  {
    if FreeRun(t, from, n) then from else LeastFrom(t, n, from + 1)
  }

  /** How many blocks at the end of the table are free. */
  ghost function TrailingFree(t: seq<Entry>): (n: nat)
    ensures n <= |t|
    ensures FreeRun(t, |t| - n, n)
    ensures n < |t| ==> !IsFree(t[|t| - n - 1])
  {
    if t == [] || !IsFree(t[|t| - 1]) then 0 else 1 + TrailingFree(t[..|t| - 1])
  }

  /** What the first-fit search answers for `n` blocks on any table. */
  ghost function StartBlock(t: seq<Entry>, n: nat): int {
    if n >= 1 && HasRun(t, n) then LeastFrom(t, n, 0)
    else if TrailingFree(t) == 0 then -ENOMEM
    else |t| - TrailingFree(t)
  }

  /** First fit: when n >= 1 free blocks in a row exist, the answer is the lowest such start. */
  lemma StartBlockFound(t: seq<Entry>, n: nat)
    requires n >= 1 && HasRun(t, n)
    ensures StartBlock(t, n) >= 0 && FreeRun(t, StartBlock(t, n), n) && Fits(t, n)
    ensures forall s: nat :: s < StartBlock(t, n) ==> !FreeRun(t, s, n)
  {
  }

  /** Otherwise the answer is the refusal, or the start of the trailing free run, which is shorter than n. */
  lemma StartBlockMissed(t: seq<Entry>, n: nat)
    requires n == 0 || !HasRun(t, n)
    ensures StartBlock(t, n) < 0 <==> t == [] || !IsFree(t[|t| - 1])
    ensures StartBlock(t, n) < 0 ==> StartBlock(t, n) == -ENOMEM
    ensures StartBlock(t, n) >= 0 ==>
      var s := StartBlock(t, n);
      && s < |t| && FreeRun(t, s, |t| - s) && (s == 0 || !IsFree(t[s - 1])) && (n >= 1 ==> |t| - s < n)
  {
    if TrailingFree(t) >= n { assert FreeRun(t, |t| - TrailingFree(t), n); }
  }

  /** The marking that follows the search stays inside the table. */
  ghost predicate Fits(t: seq<Entry>, n: nat) {
    StartBlock(t, n) + n <= |t| || StartBlock(t, n) < 0
  }

  /** A caller's view of Fits: the run exists, or the request is refused, or nothing is marked at all. */
  lemma FitsExactly(t: seq<Entry>, n: nat)
    ensures Fits(t, n) <==> n == 0 || HasRun(t, n) || t == [] || !IsFree(t[|t| - 1])
  {
    if TrailingFree(t) >= n {
      assert FreeRun(t, |t| - TrailingFree(t), n);
    }
  }

  /** A request for one block never overruns the table. */
  lemma OneBlockFits(t: seq<Entry>)
    ensures Fits(t, 1)
  {
    FitsExactly(t, 1);
    if t != [] && IsFree(t[|t| - 1]) { assert FreeRun(t, |t| - 1, 1); }
  }

  /** A one-block table with a free block: a request for two blocks is answered with block 0. */
  lemma TooLongRequestIsAnswered()
    ensures StartBlock([FREE], 2) == 0 && !Fits([FREE], 2)
  {
    assert !HasRun([FREE], 2);
    assert TrailingFree([FREE]) == 1 by {
      assert [FREE][..0] == [];
    }
  }

  // ---------------------------------------------------------------- the markings

  ghost function MarkTaken(t: seq<Entry>, s: nat, n: nat): (r: seq<Entry>)
    ensures |r| == |t|
  {
    seq(|t|, k requires 0 <= k < |t| => if s <= k < s + n then RunCell(k - s, n) else t[k])
  }

  ghost function MarkFree(t: seq<Entry>, s: nat, n: nat): (r: seq<Entry>)
    ensures |r| == |t|
  {
    seq(|t|, k requires 0 <= k < |t| => if s <= k < s + n then FREE else t[k])
  }

  /** Length of the chain of HAS_NEXT bytes that starts at block `s`, cut at the end of the table. */
  ghost function ChainLength(t: seq<Entry>, s: nat): (n: nat)
    ensures s <= |t| ==> s + n <= |t|
    decreases |t| - s
  {
    if s >= |t| then 0
    else if HasNext(t[s]) then 1 + ChainLength(t, s + 1)
    else 1
  }

  ghost function FreeAt(t: seq<Entry>, s: nat): seq<Entry> {
    MarkFree(t, s, ChainLength(t, s))
  }

  // ---------------------------------------------------------------- refinement of the live map

  lemma CellBits(k: nat, n: nat)
    requires k < n
    ensures !IsFree(RunCell(k, n)) && RunCell(k, n) != FREE
    ensures HasNext(RunCell(k, n)) <==> k < n - 1
    ensures RunCell(k, n) & IS_FIRST != 0 <==> k == 0
  {
  }

  /** Two live runs never share a block, although Refines does not say so: the FIRST bit forbids it. */
  lemma RunsDisjoint(t: seq<Entry>, live: map<nat, nat>, a: nat, b: nat, k: nat)
    requires Refines(t, live) && Covers(live, a, k) && Covers(live, b, k)
    ensures a == b
  {
    if a != b {
      var lo, hi := if a < b then a else b, if a < b then b else a;
      assert Covers(live, lo, hi) && Covers(live, hi, hi);
      CellBits(hi - lo, live[lo]);
      CellBits(0, live[hi]);
    }
  }

  /** Under Refines the low nibble and the whole byte agree on what is free, and free means uncovered. */
  lemma FreeMeansUncovered(t: seq<Entry>, live: map<nat, nat>, k: nat)
    requires Refines(t, live) && k < |t|
    ensures IsFree(t[k]) <==> t[k] == FREE
    ensures IsFree(t[k]) <==> forall s: nat :: !Covers(live, s, k)
  {
    forall s: nat | Covers(live, s, k) ensures !IsFree(t[k]) && t[k] != FREE {
      CellBits(k - s, live[s]);
    }
  }

  /** The chain that free follows from a live start is that run and nothing else. */
  lemma {:induction false} ChainIsRun(t: seq<Entry>, live: map<nat, nat>, s: nat, k: nat)
    requires Refines(t, live) && s in live && k < live[s]
    ensures ChainLength(t, s + k) == live[s] - k
    decreases live[s] - k
  {
    assert Covers(live, s, s + k);
    CellBits(k, live[s]);
    if k + 1 < live[s] {
      ChainIsRun(t, live, s, k + 1);
    }
  }

  /** Marking a free run adds exactly that run. */
  lemma TakeRefines(t: seq<Entry>, live: map<nat, nat>, s: nat, n: nat)
    requires Refines(t, live) && n >= 1 && FreeRun(t, s, n)
    ensures s !in live
    ensures forall b: nat, k: nat :: Covers(live, b, k) ==> !(s <= k < s + n)
    ensures Refines(MarkTaken(t, s, n), live[s := n])
  {
    var t', live' := MarkTaken(t, s, n), live[s := n];
    forall b: nat, k: nat | Covers(live, b, k) ensures !(s <= k < s + n) {
      if s <= k < s + n { FreeMeansUncovered(t, live, k); }
    }
    assert s in live ==> Covers(live, s, s);
    forall b: nat, k: nat | Covers(live', b, k) ensures k < |t'| && t'[k] == RunCell(k - b, live'[b]) {
      if b != s { assert Covers(live, b, k); }
    }
    forall k | 0 <= k < |t'| && t'[k] != FREE ensures exists b: nat :: Covers(live', b, k) {
      if s <= k < s + n {
        assert Covers(live', s, k);
      } else {
        var b: nat :| Covers(live, b, k);
        assert Covers(live', b, k);
      }
    }
  }

  /** Freeing a live start removes exactly that run and writes no other block. */
  lemma FreeRefines(t: seq<Entry>, live: map<nat, nat>, s: nat)
    requires Refines(t, live) && s in live
    ensures FreeAt(t, s) == MarkFree(t, s, live[s])
    ensures Refines(FreeAt(t, s), live - {s})
  {
    ChainIsRun(t, live, s, 0);
    var t', live' := FreeAt(t, s), live - {s};
    forall b: nat, k: nat | Covers(live', b, k) ensures k < |t'| && t'[k] == RunCell(k - b, live'[b]) {
      assert Covers(live, b, k);
      if s <= k < s + live[s] {
        assert Covers(live, s, k);
        RunsDisjoint(t, live, b, s, k);
      }
    }
    forall k | 0 <= k < |t'| && t'[k] != FREE ensures exists b: nat :: Covers(live', b, k) {
      var b: nat :| Covers(live, b, k);
      assert Covers(live', b, k);
    }
  }

  /** Taking a free run and freeing it again gives the table back byte for byte. */
  lemma TakeThenFree(t: seq<Entry>, live: map<nat, nat>, s: nat, n: nat)
    requires Refines(t, live) && n >= 1 && FreeRun(t, s, n)
    ensures FreeAt(MarkTaken(t, s, n), s) == t
    ensures live[s := n] - {s} == live
  {
    TakeRefines(t, live, s, n);
    FreeRefines(MarkTaken(t, s, n), live[s := n], s);
    forall k | 0 <= k < |t| ensures FreeAt(MarkTaken(t, s, n), s)[k] == t[k] {
      if s <= k < s + n { FreeMeansUncovered(t, live, k); }
    }
    assert live[s := n] - {s} == live;
  }

  /** The bytes determine the live map: an encoding can be read back in one way only. */
  lemma TableDeterminesRuns(t: seq<Entry>, live: map<nat, nat>, other: map<nat, nat>)
    requires Refines(t, live) && Refines(t, other)
    ensures live == other
  {
    forall s | s in live ensures s in other && other[s] == live[s] {
      SameRun(t, live, other, s);
    }
    forall s | s in other ensures s in live {
      SameRun(t, other, live, s);
    }
  }

  lemma SameRun(t: seq<Entry>, live: map<nat, nat>, other: map<nat, nat>, s: nat)
    requires Refines(t, live) && Refines(t, other) && s in live
    ensures s in other && other[s] == live[s]
  {
    assert Covers(live, s, s);
    CellBits(0, live[s]);
    var b: nat :| Covers(other, b, s);
    CellBits(s - b, other[b]);
    ChainIsRun(t, live, s, 0);
    ChainIsRun(t, other, s, 0);
  }
}
