/**
  Whole-run properties of the block heap: the refinement over every run of mallocs and
  frees, conservation of blocks, and the fragmentation bound of first fit.
 */
module HeapTheory {
  import opened HeapTable

  // ---------------------------------------------------------------- runs of operations

  datatype Op = Malloc(blocks: nat) | Free(start: nat)
  datatype State = State(table: seq<Entry>, live: map<nat, nat>)

  ghost predicate HeapOk(st: State) {
    Refines(st.table, st.live)
  }

  /** What the heap's callers owe: a request that does not overrun the table, a free of a live start. */
  ghost predicate Legal(st: State, op: Op) {
    match op
    case Malloc(n) => Fits(st.table, n)
    case Free(s) => s in st.live
  }

  ghost function Apply(st: State, op: Op): State
    requires Legal(st, op)
  {
    match op
    case Malloc(n) =>
      var s := StartBlock(st.table, n);
      if s < 0 || n == 0 then st else State(MarkTaken(st.table, s, n), st.live[s as nat := n])
    case Free(s) => State(FreeAt(st.table, s), st.live - {s})
  }

  ghost predicate LegalRun(st: State, ops: seq<Op>)
    decreases |ops|
  {
    ops == [] || (Legal(st, ops[0]) && LegalRun(Apply(st, ops[0]), ops[1..]))
  }

  ghost function ApplyAll(st: State, ops: seq<Op>): State
    requires LegalRun(st, ops)
    decreases |ops|
  {
    if ops == [] then st else ApplyAll(Apply(st, ops[0]), ops[1..])
  }

  function FreshTable(total: nat): (t: seq<Entry>)
    ensures |t| == total
  {
    seq(total, _ => FREE)
  }

  lemma StartBlockIsFree(t: seq<Entry>, n: nat)
    requires n >= 1 && Fits(t, n) && StartBlock(t, n) >= 0
    ensures FreeRun(t, StartBlock(t, n), n)
  {
    FitsExactly(t, n);
  }

  lemma ApplyOk(st: State, op: Op)
    requires HeapOk(st) && Legal(st, op)
    ensures HeapOk(Apply(st, op)) && |Apply(st, op).table| == |st.table|
  {
    match op
    case Malloc(n) =>
      var s := StartBlock(st.table, n);
      if s >= 0 && n >= 1 {
        StartBlockIsFree(st.table, n);
        TakeRefines(st.table, st.live, s, n);
      }
    case Free(s) => FreeRefines(st.table, st.live, s);
  }

  /**
    Over every legal run from any well-formed table: the bytes encode exactly the live map,
    every byte outside the encoding is free, the live runs are in bounds and pairwise disjoint,
    and taken blocks are conserved (they add up to the live lengths).
   */
  lemma {:induction false} EveryRunRefines(st: State, ops: seq<Op>)
    requires HeapOk(st) && LegalRun(st, ops)
    ensures var r := ApplyAll(st, ops);
            && HeapOk(r) && |r.table| == |st.table|
            && (forall a, b, k: nat :: Covers(r.live, a, k) && Covers(r.live, b, k) ==> a == b)
            && TakenFrom(r.table, 0) == LengthsFrom(r.live, 0, |r.table|)
    decreases |ops|
  {
    if ops == [] {
      forall a: nat, b: nat, k: nat | Covers(st.live, a, k) && Covers(st.live, b, k) ensures a == b {
        RunsDisjoint(st.table, st.live, a, b, k);
      }
      TakenIsSumOfLengths(st.table, st.live, 0);
    } else {
      ApplyOk(st, ops[0]);
      EveryRunRefines(Apply(st, ops[0]), ops[1..]);
    }
  }

  /** A run that leaves nothing live leaves the table exactly as heap_create made it. */
  lemma EmptyHeapIsFresh(total: nat, ops: seq<Op>)
    requires LegalRun(State(FreshTable(total), map[]), ops)
    requires ApplyAll(State(FreshTable(total), map[]), ops).live == map[]
    ensures ApplyAll(State(FreshTable(total), map[]), ops).table == FreshTable(total)
  {
    FreshRefines(total);
    EveryRunRefines(State(FreshTable(total), map[]), ops);
    var t := ApplyAll(State(FreshTable(total), map[]), ops).table;
    assert forall s: nat, k: nat :: !Covers(map[], s, k);
  }

  lemma FreshRefines(total: nat)
    ensures Refines(FreshTable(total), map[])
  {
  }

  // ---------------------------------------------------------------- conservation

  ghost function TakenFrom(t: seq<Entry>, k: nat): nat
    decreases |t| - k
  {
    if k >= |t| then 0 else (if IsFree(t[k]) then 0 else 1) + TakenFrom(t, k + 1)
  }

  ghost function FreeFrom(t: seq<Entry>, k: nat): nat
    decreases |t| - k
  {
    if k >= |t| then 0 else (if IsFree(t[k]) then 1 else 0) + FreeFrom(t, k + 1)
  }

  /** Sum of the lengths of the live runs that start in [k, total). */
  ghost function LengthsFrom(live: map<nat, nat>, k: nat, total: nat): nat
    decreases total - k
  {
    if k >= total then 0 else (if k in live then live[k] else 0) + LengthsFrom(live, k + 1, total)
  }

  /** Number of live runs that start in [k, total). */
  ghost function StartsFrom(starts: set<nat>, k: nat, total: nat): nat
    decreases total - k
  {
    if k >= total then 0 else (if k in starts then 1 else 0) + StartsFrom(starts, k + 1, total)
  }

  /** No run straddles the cut in front of block `k`. */
  ghost predicate Boundary(live: map<nat, nat>, k: nat) {
    forall s: nat :: s in live && s < k ==> s + live[s] <= k
  }

  lemma NoStartInside(t: seq<Entry>, live: map<nat, nat>, s: nat, k: nat)
    requires Refines(t, live) && s in live && 1 <= k < live[s]
    ensures s + k !in live
  {
    assert Covers(live, s, s + k);
    CellBits(k, live[s]);
    CellBits(0, if s + k in live then live[s + k] else 1);
    assert s + k in live ==> Covers(live, s + k, s + k);
  }

  lemma {:induction false} InsideRun(t: seq<Entry>, live: map<nat, nat>, s: nat, k: nat)
    requires Refines(t, live) && s in live && 1 <= k <= live[s]
    ensures TakenFrom(t, s + k) == TakenFrom(t, s + live[s]) + (live[s] - k)
    ensures FreeFrom(t, s + k) == FreeFrom(t, s + live[s])
    ensures LengthsFrom(live, s + k, |t|) == LengthsFrom(live, s + live[s], |t|)
    ensures StartsFrom(live.Keys, s + k, |t|) == StartsFrom(live.Keys, s + live[s], |t|)
    decreases live[s] - k
  {
    if k < live[s] {
      assert Covers(live, s, s + k);
      CellBits(k, live[s]);
      NoStartInside(t, live, s, k);
      InsideRun(t, live, s, k + 1);
    }
  }

  lemma RunEndIsBoundary(t: seq<Entry>, live: map<nat, nat>, k: nat)
    requires Refines(t, live) && k in live && Boundary(live, k)
    ensures Boundary(live, k + live[k])
  {
    forall s: nat | s in live && s < k + live[k] ensures s + live[s] <= k + live[k] {
      if s > k {
        assert Covers(live, k, s) && Covers(live, s, s);
        RunsDisjoint(t, live, k, s, s);
      }
    }
  }

  /** Taken bytes beyond a boundary add up to the lengths of the runs beyond it. */
  lemma {:induction false} TakenIsSumOfLengths(t: seq<Entry>, live: map<nat, nat>, k: nat)
    requires Refines(t, live) && Boundary(live, k)
    ensures TakenFrom(t, k) == LengthsFrom(live, k, |t|)
    decreases |t| - k
  {
    if k >= |t| {
    } else if k in live {
      assert Covers(live, k, k);
      CellBits(0, live[k]);
      InsideRun(t, live, k, 1);
      RunEndIsBoundary(t, live, k);
      TakenIsSumOfLengths(t, live, k + live[k]);
    } else {
      FreeMeansUncovered(t, live, k);
      TakenIsSumOfLengths(t, live, k + 1);
    }
  }

  // ---------------------------------------------------------------- fragmentation

  /** The most that `c` runs can keep apart in gaps shorter than `n`. */
  ghost function Waste(c: nat, n: nat): nat
    requires n >= 1
  {
    if c == 0 then n - 1 else Waste(c - 1, n) + (n - 1)
  }

  lemma {:induction false} WasteIsProduct(c: nat, n: nat)
    requires n >= 1
    ensures Waste(c, n) == (c + 1) * (n - 1)
  {
    if c > 0 {
      WasteIsProduct(c - 1, n);
      assert (c + 1) * (n - 1) == c * (n - 1) + (n - 1);
    }
  }

  lemma GapIsShort(t: seq<Entry>, n: nat, from: nat, k: nat)
    requires !HasRun(t, n) && from <= k && FreeRun(t, from, k - from)
    ensures k - from < n
  {
    if k - from >= n { assert FreeRun(t, from, n); }
  }

  /** A live run that starts at k: no free block and no other start in it, and a boundary behind it. */
  lemma RunBehindGap(t: seq<Entry>, live: map<nat, nat>, k: nat)
    requires Refines(t, live) && k in live && k < |t| && Boundary(live, k)
    ensures var e := k + live[k];
      && k < e <= |t| && Boundary(live, e) && FreeRun(t, e, e - e) && FreeFrom(t, k) == FreeFrom(t, e)
      && StartsFrom(live.Keys, k, |t|) == 1 + StartsFrom(live.Keys, e, |t|)
  {
    assert Covers(live, k, k);
    CellBits(0, live[k]);
    InsideRun(t, live, k, 1);
    RunEndIsBoundary(t, live, k);
  }

  /** No run starts at k, a boundary: the block is free and lengthens the gap. */
  lemma FreeBehindGap(t: seq<Entry>, live: map<nat, nat>, from: nat, k: nat)
    requires Refines(t, live) && k !in live && k < |t| && Boundary(live, k) && from <= k && FreeRun(t, from, k - from)
    ensures Boundary(live, k + 1) && FreeRun(t, from, k + 1 - from) && FreeFrom(t, k) == 1 + FreeFrom(t, k + 1)
    ensures StartsFrom(live.Keys, k, |t|) == StartsFrom(live.Keys, k + 1, |t|)
  {
    FreeMeansUncovered(t, live, k);
  }

  /** If no `n` consecutive blocks are free, every gap wastes fewer than `n` blocks. */
  lemma {:induction false} GapsAreShort(t: seq<Entry>, live: map<nat, nat>, n: nat, from: nat, k: nat)
    requires Refines(t, live) && n >= 1 && !HasRun(t, n)
    requires Boundary(live, from) && from <= k && FreeRun(t, from, k - from) && Boundary(live, k)
    ensures (k - from) + FreeFrom(t, k) <= Waste(StartsFrom(live.Keys, k, |t|), n)
    decreases |t| - k
  {
    hide Refines, HasRun, Boundary, FreeRun;
    GapIsShort(t, n, from, k);
    if k >= |t| {
    } else if k in live {
      RunBehindGap(t, live, k);
      var e := k + live[k];
      GapsAreShort(t, live, n, e, e);
    } else {
      FreeBehindGap(t, live, from, k);
      GapsAreShort(t, live, n, from, k + 1);
    }
  }

  lemma {:induction false} StartsIsSize(starts: set<nat>, k: nat, total: nat)
    requires forall s :: s in starts ==> k <= s < total
    ensures StartsFrom(starts, k, total) == |starts|
    decreases total - k
  {
    if k >= total {
      assert starts == {};
    } else {
      StartsSkips(starts, starts - {k}, k + 1, total);
      StartsIsSize(starts - {k}, k + 1, total);
    }
  }

  lemma {:induction false} StartsSkips(a: set<nat>, b: set<nat>, k: nat, total: nat)
    requires forall s :: k <= s ==> (s in a <==> s in b)
    ensures StartsFrom(a, k, total) == StartsFrom(b, k, total)
    decreases total - k
  {
    if k < total { StartsSkips(a, b, k + 1, total); }
  }

  /** With k live runs, n consecutive blocks exist whenever more than (k+1)*(n-1) blocks are free. */
  lemma FragmentationBound(t: seq<Entry>, live: map<nat, nat>, n: nat)
    requires Refines(t, live) && n >= 1
    requires FreeFrom(t, 0) > (|live| + 1) * (n - 1)
    ensures HasRun(t, n) && StartBlock(t, n) >= 0 && Fits(t, n)
  {
    StartsIsSize(live.Keys, 0, |t|);
    WasteIsProduct(|live|, n);
    if !HasRun(t, n) { GapsAreShort(t, live, n, 0, 0); }
  }

  /** k one-block runs with n - 1 free blocks in front of, between and behind them. */
  ghost function Comb(k: nat, n: nat): seq<Entry>
    requires n >= 1
  {
    if k == 0 then FreshTable(n - 1) else Comb(k - 1, n) + [RunCell(0, 1)] + FreshTable(n - 1)
  }

  ghost function CombRuns(k: nat, n: nat): map<nat, nat>
    requires n >= 1
  {
    if k == 0 then map[] else CombRuns(k - 1, n)[|Comb(k - 1, n)| := 1]
  }

  /** The bound is met for every number of runs: (k+1)*(n-1) free blocks and no n of them in a row. */
  lemma {:induction false} FragmentationBoundIsTight(k: nat, n: nat)
    requires n >= 1
    ensures Refines(Comb(k, n), CombRuns(k, n)) && |CombRuns(k, n)| == k
    ensures FreeFrom(Comb(k, n), 0) == (k + 1) * (n - 1) && !HasRun(Comb(k, n), n)
  {
    hide Refines, HasRun, FreeFrom;
    if k == 0 {
      FreshRefines(n - 1);
      AllFree(n - 1, 0);
      ShortTable(n);
    } else {
      FragmentationBoundIsTight(k - 1, n);
      Tooth(Comb(k - 1, n), CombRuns(k - 1, n), n);
      Distribute(k, n - 1);
    }
  }

  lemma ShortTable(n: nat)
    requires n >= 1
    ensures !HasRun(FreshTable(n - 1), n)
  {
  }

  lemma Distribute(k: nat, g: nat)
    ensures (k + 1) * g == k * g + g
  {
  }

  /** One more run of one block, and n - 1 free blocks behind it. */
  lemma Tooth(t: seq<Entry>, live: map<nat, nat>, n: nat)
    requires Refines(t, live) && n >= 1 && !HasRun(t, n)
    ensures var t' := t + [RunCell(0, 1)] + FreshTable(n - 1);
      && Refines(t', live[|t| := 1]) && |live[|t| := 1]| == |live| + 1
      && FreeFrom(t', 0) == FreeFrom(t, 0) + (n - 1) && !HasRun(t', n)
  {
    hide Refines, HasRun, IsFree, FreeFrom, RunCell;
    var gap := FreshTable(n - 1);
    ToothRefines(t, live, n);
    NoRunAtTooth(t, n);
    assert t + [RunCell(0, 1)] + gap == t + ([RunCell(0, 1)] + gap);
    FreeSplits(t, [RunCell(0, 1)] + gap, 0);
    FreeSplits([RunCell(0, 1)], gap, 0);
    OneTaken();
    AllFree(n - 1, 0);
  }

  lemma OneTaken()
    ensures FreeFrom([RunCell(0, 1)], 0) == 0
  {
    CellBits(0, 1);
    assert FreeFrom([RunCell(0, 1)], 1) == 0;
  }

  lemma ToothRefines(t: seq<Entry>, live: map<nat, nat>, n: nat)
    requires Refines(t, live) && n >= 1
    ensures Refines(t + [RunCell(0, 1)] + FreshTable(n - 1), live[|t| := 1]) && |live[|t| := 1]| == |live| + 1
  {
    var t', live' := t + [RunCell(0, 1)] + FreshTable(n - 1), live[|t| := 1];
    CellBits(0, 1);
    assert |t| !in live;
    assert live'.Keys == live.Keys + {|t|};
    forall s: nat, b: nat | Covers(live', s, b) ensures b < |t'| && t'[b] == RunCell(b - s, live'[s]) {
      if s != |t| { assert Covers(live, s, b); }
    }
    forall b | 0 <= b < |t'| && t'[b] != FREE ensures exists s: nat :: Covers(live', s, b) {
      if b < |t| {
        var s: nat :| Covers(live, s, b);
        assert Covers(live', s, b);
      } else {
        assert Covers(live', |t|, b);
      }
    }
  }

  lemma NoRunAtTooth(t: seq<Entry>, n: nat)
    requires n >= 1 && !HasRun(t, n)
    ensures !HasRun(t + [RunCell(0, 1)] + FreshTable(n - 1), n)
  {
    var t' := t + [RunCell(0, 1)] + FreshTable(n - 1);
    forall s: nat ensures !FreeRun(t', s, n) {
      CellBits(0, 1);
      if s + n <= |t| {
        assert !FreeRun(t, s, n);
        var k :| s <= k < s + n && !IsFree(t[k]);
        assert t'[k] == t[k];
      } else if s <= |t| {
        assert !IsFree(t'[|t|]);
      }
    }
  }

  lemma {:induction false} AllFree(total: nat, k: nat)
    requires k <= total
    ensures FreeFrom(FreshTable(total), k) == total - k
    decreases total - k
  {
    if k < total { AllFree(total, k + 1); }
  }

  lemma {:induction false} FreeSplits(t: seq<Entry>, u: seq<Entry>, k: nat)
    requires k <= |t|
    ensures FreeFrom(t + u, k) == FreeFrom(t, k) + FreeFrom(u, 0)
    decreases |t| - k
  {
    if k < |t| { FreeSplits(t, u, k + 1); } else { FreeShift(t, u, 0); }
  }

  lemma {:induction false} FreeShift(t: seq<Entry>, u: seq<Entry>, k: nat)
    requires k <= |u|
    ensures FreeFrom(t + u, |t| + k) == FreeFrom(u, k)
    decreases |u| - k
  {
    if k < |u| { FreeShift(t, u, k + 1); }
  }
}
