/**
  The 1024-character keyboard ring of a process. A zero cell means "nothing here". While at most
  1024 characters are pending the ring is a first-in first-out queue whose newest entry can be
  taken back.
 */
module KeyboardRing {
  import opened Memory

  const KEYBOARD_BUFFER_SIZE := 1024

  type Cells = s: seq<Byte> | |s| == KEYBOARD_BUFFER_SIZE witness seq(KEYBOARD_BUFFER_SIZE, _ => 0)

  datatype Ring = Ring(cells: Cells, head: int, tail: int)

  /** `tail % sizeof(buffer)`: the unsigned remainder, also below zero. */
  function Index(at: int): (i: nat)
    ensures i < KEYBOARD_BUFFER_SIZE
  {
    at % KEYBOARD_BUFFER_SIZE
  }

  /** The counters are 32-bit; 1024 divides 2^32, so wrap-around does not move an index. */
  lemma IndexIgnoresWrap(at: int)
    ensures Index(at % 0x1_0000_0000) == Index(at)
  {
    var q := at / 0x1_0000_0000;
    assert at == at % 0x1_0000_0000 + 1024 * (0x40_0000 * q);
    SameIndex(at % 0x1_0000_0000, 0x40_0000 * q);
  }

  lemma SameIndex(at: int, laps: int)
    ensures Index(at + 1024 * laps) == Index(at)
  {
    var q, i := at / 1024, at % 1024;
    assert at + 1024 * laps == 1024 * (q + laps) + i;
  }

  /** Keyboard operations as values. */
  datatype Key = Push(c: Byte) | Pop | Backspace

  function PushAt(r: Ring, c: Byte): Ring {
    if c == 0 then r else Ring(r.cells[Index(r.tail) := c], r.head, r.tail + 1)
  }

  function PopAt(r: Ring): (Ring, Byte) {
    var i := Index(r.head);
    var c := r.cells[i];
    if c == 0 then (r, 0) else (Ring(r.cells[i := 0], r.head + 1, r.tail), c)
  }

  function BackspaceAt(r: Ring): Ring {
    Ring(r.cells[Index(r.tail - 1) := 0], r.head, r.tail - 1)
  }

  function RingStep(r: Ring, k: Key): (Ring, Byte) {
    match k
    case Push(c) => (PushAt(r, c), 0)
    case Pop => PopAt(r)
    case Backspace => (BackspaceAt(r), 0)
  }

  /** The queue the keyboard is meant to be. Zero is the answer of an empty queue. */
  function QueueStep(q: seq<Byte>, k: Key): (seq<Byte>, Byte) {
    match k
    case Push(c) => (if c == 0 then q else q + [c], 0)
    case Pop => if q == [] then (q, 0) else (q[1..], q[0])
    case Backspace => (if q == [] then q else q[..|q| - 1], 0)
  }

  /** What a caller can check before a step. */
  predicate Room(pending: nat, k: Key) {
    && (k.Push? && k.c != 0 ==> pending < 1024)
    && (k.Backspace? ==> pending > 0)
  }

  /** The ring holds exactly the queue q from head on; every other cell is zero. */
  ghost predicate Holds(r: Ring, q: seq<Byte>) {
    && |q| <= KEYBOARD_BUFFER_SIZE && r.tail == r.head + |q| && 0 !in q
    && forall i :: 0 <= i < KEYBOARD_BUFFER_SIZE ==> r.cells[i] == At(q, Index(i - r.head))
  }

  ghost function At(q: seq<Byte>, k: nat): Byte {
    if k < |q| then q[k] else 0
  }

  lemma OffsetIs(head: int, k: int)
    ensures Index(Index(head + k) - head) == Index(k)
    ensures Index(head + Index(k - head)) == Index(k)
  {
    var q := (head + k) / 1024;
    assert Index(head + k) - head == k + 1024 * -q;
    SameIndex(k, -q);
    var p := (k - head) / 1024;
    assert head + Index(k - head) == k + 1024 * -p;
    SameIndex(k, -p);
  }

  /** Which cell has offset k. */
  lemma CellAt(head: int, k: nat, i: nat)
    requires k < KEYBOARD_BUFFER_SIZE && i < KEYBOARD_BUFFER_SIZE
    ensures Index(i - head) == k <==> i == Index(head + k)
  {
    hide Index;
    OffsetIs(head, i);
    OffsetIs(head, k);
    SmallIndex(i);
    SmallIndex(k);
  }

  lemma SmallIndex(i: nat)
    requires i < KEYBOARD_BUFFER_SIZE
    ensures Index(i) == i
  {
  }

  lemma OffsetBehind(head: int, i: int)
    ensures var k := Index(i - head); Index(i - (head + 1)) == if k == 0 then KEYBOARD_BUFFER_SIZE - 1 else k - 1
  {
    var k, p := (i - head) % 1024, (i - head) / 1024;
    assert i - (head + 1) == (k - 1) + 1024 * p;
    SameIndex(k - 1, p);
  }

  /** The ring answers "empty" exactly when head meets tail. */
  lemma EmptyIsZeroCell(r: Ring, q: seq<Byte>)
    requires Holds(r, q)
    ensures r.cells[Index(r.head)] == 0 <==> r.head == r.tail
    ensures r.cells[Index(r.head)] == At(q, 0)
  {
    OffsetIs(r.head, 0);
    assert At(q, 0) == 0 <==> q == [];
  }

  lemma PushHolds(r: Ring, q: seq<Byte>, c: Byte)
    requires Holds(r, q) && c != 0 && |q| < KEYBOARD_BUFFER_SIZE
    ensures Holds(PushAt(r, c), q + [c])
  {
    hide Index;
    var r' := PushAt(r, c);
    forall i | 0 <= i < KEYBOARD_BUFFER_SIZE ensures r'.cells[i] == At(q + [c], Index(i - r.head)) {
      CellAt(r.head, |q|, i);
    }
  }

  lemma PopHolds(r: Ring, q: seq<Byte>)
    requires Holds(r, q)
    ensures Holds(PopAt(r).0, QueueStep(q, Pop).0) && PopAt(r).1 == QueueStep(q, Pop).1
  {
    hide Index;
    EmptyIsZeroCell(r, q);
    if q != [] {
      var r' := PopAt(r).0;
      forall i | 0 <= i < KEYBOARD_BUFFER_SIZE ensures r'.cells[i] == At(q[1..], Index(i - r'.head)) {
        CellAt(r.head, 0, i);
        OffsetBehind(r.head, i);
      }
    }
  }

  lemma BackspaceHolds(r: Ring, q: seq<Byte>)
    requires Holds(r, q) && q != []
    ensures Holds(BackspaceAt(r), q[..|q| - 1])
  {
    hide Index;
    var r', n := BackspaceAt(r), |q| - 1;
    forall i | 0 <= i < KEYBOARD_BUFFER_SIZE ensures r'.cells[i] == At(q[..n], Index(i - r.head)) {
      CellAt(r.head, n, i);
    }
  }

  /** One more character than the ring has cells overwrites the oldest one and is read first. */
  lemma FullPushJumpsTheQueue(r: Ring, q: seq<Byte>, c: Byte)
    requires Holds(r, q) && |q| == 1024 && c != 0
    ensures PopAt(PushAt(r, c)).1 == c
    ensures forall p :: !Holds(PushAt(r, c), p)
  {
    SameIndex(r.head, 1);
  }

  /** A backspace on an empty ring hides the next character. */
  lemma EmptyBackspaceHidesNext(r: Ring, c: Byte)
    requires Holds(r, []) && c != 0
    ensures PopAt(PushAt(BackspaceAt(r), c)) == (PushAt(BackspaceAt(r), c), 0)
    ensures forall p :: !Holds(BackspaceAt(r), p)
  {
    EmptyIsZeroCell(r, []);
    OffsetIs(0, r.head);
    SameIndex(r.head, -1);
    assert Index(r.head - 1) != Index(r.head);
  }

  lemma RoomIsEnough(r: Ring, q: seq<Byte>, k: Key)
    requires Holds(r, q) && Room(|q|, k)
    ensures Holds(RingStep(r, k).0, QueueStep(q, k).0) && RingStep(r, k).1 == QueueStep(q, k).1
  {
    match k
    case Push(c) => if c != 0 { PushHolds(r, q, c); }
    case Pop => PopHolds(r, q);
    case Backspace => BackspaceHolds(r, q);
  }

  lemma RoomIsNeeded(r: Ring, q: seq<Byte>, k: Key, p: seq<Byte>)
    requires Holds(r, q) && !Room(|q|, k)
    ensures !Holds(RingStep(r, k).0, p)
  {
    if k.Push? { FullPushJumpsTheQueue(r, q, k.c); } else { EmptyBackspaceHidesNext(r, 1); }
  }

  /** The exact condition for one step: with room it is the queue step, without it no queue fits. */
  lemma StepIsQueueStepExactlyWithRoom(r: Ring, q: seq<Byte>, k: Key)
    requires Holds(r, q)
    ensures Room(|q|, k) <==> exists p :: Holds(RingStep(r, k).0, p)
    ensures Room(|q|, k) ==> Holds(RingStep(r, k).0, QueueStep(q, k).0) && RingStep(r, k).1 == QueueStep(q, k).1
  {
    hide Holds, RingStep, QueueStep, Room;
    if Room(|q|, k) {
      RoomIsEnough(r, q, k);
    } else {
      forall p ensures !Holds(RingStep(r, k).0, p) { RoomIsNeeded(r, q, k, p); }
    }
  }

  /** The state after a run, and what each step answered. */
  function RunRing(r: Ring, ks: seq<Key>): (Ring, seq<Byte>)
    decreases |ks|
  {
    if ks == [] then (r, []) else
      var (r', c) := RingStep(r, ks[0]);
      var (end, cs) := RunRing(r', ks[1..]);
      (end, [c] + cs)
  }

  function RunQueue(q: seq<Byte>, ks: seq<Key>): (seq<Byte>, seq<Byte>)
    decreases |ks|
  {
    if ks == [] then (q, []) else
      var (q', c) := QueueStep(q, ks[0]);
      var (end, cs) := RunQueue(q', ks[1..]);
      (end, [c] + cs)
  }

  /** Every step of the run has room, counting characters only. */
  predicate HasRoom(pending: nat, ks: seq<Key>)
    decreases |ks|
  {
    ks == [] || (Room(pending, ks[0]) && HasRoom(Count(pending, ks[0]), ks[1..]))
  }

  function Count(pending: nat, k: Key): nat {
    match k
    case Push(c) => if c == 0 then pending else pending + 1
    case Pop => if pending == 0 then 0 else pending - 1
    case Backspace => if pending == 0 then 0 else pending - 1
  }

  /** Over every run with room the ring answers as the queue does. */
  lemma {:induction false} EveryRunIsAQueue(r: Ring, q: seq<Byte>, ks: seq<Key>)
    requires Holds(r, q) && HasRoom(|q|, ks)
    ensures RunRing(r, ks).1 == RunQueue(q, ks).1
    ensures Holds(RunRing(r, ks).0, RunQueue(q, ks).0)
    decreases |ks|
  {
    hide Holds, RingStep;
    if ks != [] {
      StepIsQueueStepExactlyWithRoom(r, q, ks[0]);
      EveryRunIsAQueue(RingStep(r, ks[0]).0, QueueStep(q, ks[0]).0, ks[1..]);
    }
  }

  function NonZero(cs: seq<Byte>): seq<Byte> {
    if cs == [] then [] else (if cs[0] == 0 then [] else [cs[0]]) + NonZero(cs[1..])
  }

  function Typed(ks: seq<Key>): seq<Byte> {
    if ks == [] then [] else (if ks[0].Push? && ks[0].c != 0 then [ks[0].c] else []) + Typed(ks[1..])
  }

  /** Without backspaces: what was read, then what is pending, is what was typed, in order. */
  lemma {:induction false} NothingIsLostOrReordered(r: Ring, q: seq<Byte>, ks: seq<Key>)
    requires Holds(r, q) && HasRoom(|q|, ks) && Backspace !in ks
    ensures exists rest :: Holds(RunRing(r, ks).0, rest) && NonZero(RunRing(r, ks).1) + rest == q + Typed(ks)
  {
    hide Holds;
    EveryRunIsAQueue(r, q, ks);
    assert 0 !in q by { HeldIsNonZero(r, q); }
    QueueKeepsOrder(q, ks);
    assert Holds(RunRing(r, ks).0, RunQueue(q, ks).0);
  }

  lemma HeldIsNonZero(r: Ring, q: seq<Byte>)
    requires Holds(r, q)
    ensures 0 !in q
  {
  }

  lemma {:induction false} QueueKeepsOrder(q: seq<Byte>, ks: seq<Key>)
    requires 0 !in q && Backspace !in ks
    ensures NonZero(RunQueue(q, ks).1) + RunQueue(q, ks).0 == q + Typed(ks)
    decreases |ks|
  {
    if ks == [] {
      assert q + [] == q;
    } else {
      hide QueueStep, Typed;
      StepKeepsOrder(q, ks[0]);
      TypedStep(ks);
      var (q', c) := QueueStep(q, ks[0]);
      QueueKeepsOrder(q', ks[1..]);
      var (end, cs) := RunQueue(q', ks[1..]);
      assert ([c] + cs)[1..] == cs;
      var read, typed := if c == 0 then [] else [c], Typed([ks[0]]);
      Regroup(read, NonZero(cs), end, q', Typed(ks[1..]), q, typed);
    }
  }

  lemma TypedStep(ks: seq<Key>)
    requires ks != []
    ensures Typed(ks) == Typed([ks[0]]) + Typed(ks[1..])
  {
    assert [ks[0]][1..] == [];
  }

  lemma StepKeepsOrder(q: seq<Byte>, k: Key)
    requires 0 !in q && k != Backspace
    ensures var (q', c) := QueueStep(q, k);
      0 !in q' && (if c == 0 then [] else [c]) + q' == q + Typed([k])
  {
    assert [k][1..] == [];
  }

  lemma Regroup(read: seq<Byte>, cs: seq<Byte>, end: seq<Byte>, q': seq<Byte>, later: seq<Byte>, q: seq<Byte>, typed: seq<Byte>)
    requires cs + end == q' + later && read + q' == q + typed
    ensures read + cs + end == q + (typed + later)
  {
    assert read + cs + end == read + (cs + end);
    assert read + (q' + later) == read + q' + later;
    assert q + typed + later == q + (typed + later);
  }

  class KeyboardBuffer {
    const buffer: array<Byte>
    var tail: int
    var head: int

    ghost predicate Valid()
      reads this
    {
      buffer.Length == KEYBOARD_BUFFER_SIZE
    }

    ghost function State(): Ring
      reads this, buffer
      requires Valid()
    {
      Ring(buffer[..], head, tail)
    }

    /** The process structure is zeroed when it is made. */
    constructor ()
      ensures Valid() && fresh(buffer) && Holds(State(), [])
    {
      buffer := new Byte[KEYBOARD_BUFFER_SIZE](_ => 0);
      tail, head := 0, 0;
    }

    method KeyboardBackspace()
      requires Valid()
      modifies this`tail, buffer
      ensures Valid() && State() == BackspaceAt(old(State()))
    {
      tail := tail - 1;
      var realIndex := Index(tail);
      buffer[realIndex] := 0;
    }

    /** The part of keyboard_push behind the look-up of the current process. */
    method Add(c: Byte)
      requires Valid()
      modifies this`tail, buffer
      ensures Valid() && State() == PushAt(old(State()), c)
    {
      if c == 0 {
        return;
      }
      var realIndex := Index(tail);
      buffer[realIndex] := c;
      tail := tail + 1;
    }

    method Take() returns (c: Byte)
      requires Valid()
      modifies this`head, buffer
      ensures Valid() && (State(), c) == PopAt(old(State()))
    {
      var realIndex := Index(head);
      c := buffer[realIndex];
      if c == 0 {
        return 0;
      }
      buffer[realIndex] := 0;
      head := head + 1;
    }
  }

  /** keyboard_push: no current process, no effect. */
  method KeyboardPush(process: KeyboardBuffer?, c: Byte)
    requires process != null ==> process.Valid()
    modifies process, if process == null then {} else {process.buffer}
    ensures process != null ==> process.Valid() && process.State() == PushAt(old(process.State()), c)
  {
    if process == null {
      return;
    }
    process.Add(c);
  }

  /** keyboard_pop: no current task, no character. */
  method KeyboardPop(process: KeyboardBuffer?) returns (c: Byte)
    requires process != null ==> process.Valid()
    modifies process, if process == null then {} else {process.buffer}
    ensures process == null ==> c == 0
    ensures process != null ==> process.Valid() && (process.State(), c) == PopAt(old(process.State()))
  {
    if process == null {
      return 0;
    }
    c := process.Take();
  }
}
