/**
  pparser.c: the path pointer advances through the text, components are copied to fresh blocks
  and linked, and pathparser_free gives every block back.
 */
module PathParser {
  import opened Status
  import opened HeapTable
  import opened HeapTheory
  import opened Memory
  import opened KernelState
  import opened KernelMachine
  import opened AddressSpace
  import opened Tokens
  import opened PathSyntax
  import Chunks

  const ROOT_SIZE := 8
  const PART_SIZE := 8
  /** Blocks that the longest path can need at one time. */
  const ENOUGH_BLOCKS := 110

  /** struct path_part: its own block, the block of its text, and the text buffer. */
  class PathPart {
    const frame: nat
    const textFrame: nat
    const part: seq<Byte>
    var next: PathPart?

    constructor (frame: nat, textFrame: nat, part: seq<Byte>)
      ensures this.frame == frame && this.textFrame == textFrame && this.part == part && next == null
    {
      this.frame := frame;
      this.textFrame := textFrame;
      this.part := part;
      next := null;
    }
  }

  /** struct path_root */
  class PathRoot {
    const frame: nat
    const driveNo: int
    var first: PathPart?

    constructor (frame: nat, driveNo: int)
      ensures this.frame == frame && this.driveNo == driveNo && first == null
    {
      this.frame := frame;
      this.driveNo := driveNo;
      first := null;
    }
  }

  ghost predicate IsList(first: PathPart?, nodes: seq<PathPart>)
    reads nodes
  {
    && (nodes == [] <==> first == null)
    && (nodes != [] ==> first == nodes[0] && nodes[|nodes| - 1].next == null)
    && (forall i :: 0 <= i < |nodes| - 1 ==> nodes[i].next == nodes[i + 1])
    && (forall i, j :: 0 <= i < j < |nodes| ==> nodes[i] != nodes[j])
  }

  /** Each node holds its component, NUL-terminated in a buffer of MAX_PATH bytes. */
  ghost predicate HoldsParts(nodes: seq<PathPart>, parts: seq<Str>) {
    |nodes| == |parts| && forall i :: 0 <= i < |nodes| ==>
      && |nodes[i].part| == MAX_PATH && Terminated(nodes[i].part, 0) && Text(nodes[i].part, 0) == parts[i]
  }

  /** The blocks of a list, in the order in which they are allocated. */
  ghost function Frames(nodes: seq<PathPart>): seq<nat> {
    if nodes == [] then [] else Frames(nodes[..|nodes| - 1]) + [nodes[|nodes| - 1].textFrame, nodes[|nodes| - 1].frame]
  }

  ghost function SetOf(fs: seq<nat>): set<nat> {
    set f | f in fs
  }

  ghost predicate NoRepeats(fs: seq<nat>) {
    forall i, j :: 0 <= i < j < |fs| ==> fs[i] != fs[j]
  }

  // ---------------------------------------------------------------- heap bookkeeping

  /** The heap is that of `ks0` plus the distinct one-block runs `fs`, all free there. */
  ghost predicate Holding(ks0: KState, ks: KState, fs: seq<nat>) {
    NoRepeats(fs) && Took(ks0, ks.(mem := ks0.mem), SetOf(fs))
  }

  lemma SetOfSize(fs: seq<nat>)
    requires NoRepeats(fs)
    ensures |SetOf(fs)| == |fs|
  {
    if fs != [] {
      var front := fs[..|fs| - 1];
      SetOfSize(front);
      assert SetOf(fs) == SetOf(front) + {fs[|fs| - 1]};
      assert fs[|fs| - 1] !in SetOf(front);
    } else {
      assert SetOf(fs) == {};
    }
  }

  lemma HoldingNothing(ks: KState)
    requires Ok(ks)
    ensures Holding(ks, ks, [])
  {
    assert SetOf([]) == {};
    TookNothing(ks);
  }

  /** A kzalloc of at most a page joins its block to those held. */
  lemma HoldMore(ks0: KState, ks: KState, fs: seq<nat>, size: nat)
    requires Ok(ks) && Holding(ks0, ks, fs) && 0 < size <= PAGE_SIZE && |fs| < FreeFrom(ks0.table, 0)
    ensures BlocksFor(size) == 1 && Fits(ks.table, 1) && StartBlock(ks.table, 1) >= 0
    ensures var f := NewFrame(ks);
      && f >= HEAP_FRAME && f !in fs && Ok(Zalloc(ks, size)) && Holding(ks0, Zalloc(ks, size), fs + [f])
      && f - HEAP_FRAME in Zalloc(ks, size).live
      && Release(Zalloc(ks, size), f - HEAP_FRAME).table == ks.table
      && Release(Zalloc(ks, size), f - HEAP_FRAME).live == ks.live
  {
    hide Refines, StartBlock, Fits, FreeFrom, MarkFrames, Singles, MarkTaken, ZeroFill, FreeRun;
    SetOfSize(fs);
    var plain := ks.(mem := ks0.mem);
    TakePage(ks0, plain, SetOf(fs), size);
    ZallocFacts(ks, size);
    ZallocThenRelease(ks, size);
    var f: nat := NewFrame(ks);
    assert SetOf(fs + [f]) == SetOf(fs) + {f};
    ZallocFacts(plain, size);
    assert Zalloc(ks, size).(mem := ks0.mem).table == Zalloc(plain, size).table;
    TookMemory(ks0, Zalloc(plain, size), SetOf(fs + [f]));
  }

  lemma TookMemory(ks0: KState, ks: KState, fs: set<nat>)
    requires Took(ks0, ks, fs)
    ensures Took(ks0, ks.(mem := ks0.mem), fs)
  {
  }

  /** Same heap, other memory: what is held does not change. */
  lemma HoldingHeapOnly(ks0: KState, ks: KState, ks': KState, fs: seq<nat>)
    requires Holding(ks0, ks, fs) && ks'.table == ks.table && ks'.live == ks.live
    ensures Holding(ks0, ks', fs)
  {
    hide Took;
    assert ks'.(mem := ks0.mem) == ks.(mem := ks0.mem);
  }

  /** Giving back all that is held restores the table byte for byte. */
  lemma AllGivenBack(ks0: KState, ks: KState, ks': KState, fs: seq<nat>)
    requires Holding(ks0, ks, fs) && Gave(ks, ks', SetOf(fs))
    ensures ks'.table == ks0.table && ks'.live == ks0.live
  {
    hide Took, ClearFrames, Blocks;
    GiveUndoesTake(ks0, ks.(mem := ks0.mem), SetOf(fs));
  }

  lemma HeldIsSingle(ks0: KState, ks: KState, fs: seq<nat>, i: nat)
    requires Holding(ks0, ks, fs) && i < |fs|
    ensures SingleRuns(ks.live, {fs[i]}) && fs[i] !in SetOf(fs[..i])
    ensures SetOf(fs[..i + 1]) == SetOf(fs[..i]) + {fs[i]}
  {
    hide Took;
    TookIsSingleRuns(ks0, ks.(mem := ks0.mem), SetOf(fs));
    assert fs[i] in SetOf(fs);
  }

  // ---------------------------------------------------------------- the parser

  /** The buffer that kzalloc(MAX_PATH) yields, filled with the first bytes of the text. */
  method CopyPart(path: seq<Byte>, at: nat) returns (buffer: seq<Byte>, end: nat)
    requires Terminated(path, at) && Length(path, at) < MAX_PATH
    ensures end == at + FirstSlash(Text(path, at)) && end < |path|
    ensures |buffer| == MAX_PATH && Terminated(buffer, 0) && Text(buffer, 0) == Text(path, at)[..end - at]
    ensures path[end] == SLASH <==> FirstSlash(Text(path, at)) < |Text(path, at)|
  {
    hide FirstSlash;
    var part := new Byte[MAX_PATH](_ => NUL);
    ghost var n := Length(path, at);
    ghost var s := Text(path, at);
    var i := 0;
    end := at;
    while path[end] != SLASH && path[end] != NUL
      invariant 0 <= i <= n && end == at + i
      invariant SLASH !in s[..i]
      invariant forall k :: 0 <= k < MAX_PATH ==> part[k] == if k < i then s[k] else NUL
      decreases n - i
    {
      assert s[i] == path[end];
      assert s[..i + 1] == s[..i] + [s[i]];
      part[i] := path[end];
      end := end + 1;
      i := i + 1;
    }
    assert i < n ==> s[i] == path[end];
    FirstSlashIs(s, i);
    buffer := part[..];
    LengthIs(buffer, 0, i);
    assert Text(buffer, 0) == s[..i];
  }

  /** pathparser_get_path_part: null, with the heap as before, exactly when the component is empty. */
  method GetPathPart(k: Machine, path: seq<Byte>, at: nat, ghost ks0: KState, ghost fs: seq<nat>)
    returns (frame: nat, part: seq<Byte>, next: nat)
    requires k.Valid() && Holding(ks0, k.State(), fs) && |fs| < FreeFrom(ks0.table, 0)
    requires Terminated(path, at) && Length(path, at) < MAX_PATH
    modifies k.heap`live, k.heap.entries, k.ram
    ensures k.Valid()
    ensures var s := Text(path, at);
      var e := FirstSlash(s);
      && next == at + e + (if e < |s| then 1 else 0)
      && (e == 0 <==> frame == 0)
      && (frame == 0 ==> Holding(ks0, k.State(), fs))
      && (frame != 0 ==>
        && Holding(ks0, k.State(), fs + [frame])
        && |part| == MAX_PATH && Terminated(part, 0) && Text(part, 0) == s[..e])
  {
    hide Refines, Holding, Fits, StartBlock, BlocksFor, FreeFrom, Zalloc, Release, NewFrame, Text, Terminated, Length, FirstSlash;
    ghost var ks := k.State();
    HoldMore(ks0, ks, fs, MAX_PATH);
    NewFrameIs(ks);
    var address := k.KZalloc(MAX_PATH);
    frame := address / PAGE_SIZE;
    ghost var ks1 := k.State();
    part, next := CopyPart(path, at);
    var i := next - at;
    if path[next] == SLASH {
      next := next + 1;
    }
    if i == 0 {
      assert (address - HEAP_ADDRESS) / BLOCK_SIZE == frame - HEAP_FRAME;
      k.KFree(address);
      HoldingHeapOnly(ks0, ks, k.State(), fs);
      frame := 0;
    }
  }

  /** One component taken at `at`: none when it is empty, else a node that holds it; `next` is behind its slash. */
  ghost predicate StepOf(b: seq<Byte>, at: nat, next: nat, part: PathPart?) {
    Terminated(b, at) &&
    var s := Text(b, at);
    var e := FirstSlash(s);
    && next == at + e + (if e < |s| then 1 else 0)
    && (e == 0 <==> part == null)
    && (part != null ==> |part.part| == MAX_PATH && Terminated(part.part, 0) && Text(part.part, 0) == s[..e])
  }

  /** pathparser_parse_path_part: one more node, or null at an empty component. */
  method ParsePathPart(k: Machine, path: seq<Byte>, at: nat, ghost ks0: KState, ghost fs: seq<nat>)
    returns (node: PathPart?, next: nat)
    requires k.Valid() && Holding(ks0, k.State(), fs) && |fs| + 1 < FreeFrom(ks0.table, 0)
    requires Terminated(path, at) && Length(path, at) < MAX_PATH
    modifies k.heap`live, k.heap.entries, k.ram
    ensures k.Valid() && StepOf(path, at, next, node)
    ensures node == null ==> Holding(ks0, k.State(), fs)
    ensures node != null ==>
      fresh(node) && node.next == null && Holding(ks0, k.State(), fs + [node.textFrame, node.frame])
  {
    hide Refines, Holding, Fits, StartBlock, BlocksFor, FreeFrom, Zalloc, Release, NewFrame, Text, Terminated, Length, FirstSlash;
    var frame, part;
    frame, part, next := GetPathPart(k, path, at, ks0, fs);
    if frame == 0 {
      return null, next;
    }
    ghost var ks := k.State();
    HoldMore(ks0, ks, fs + [frame], PART_SIZE);
    NewFrameIs(ks);
    var address := k.KZalloc(PART_SIZE);
    node := new PathPart(address / PAGE_SIZE, frame, part);
    assert fs + [frame] + [node.frame] == fs + [node.textFrame, node.frame];
  }

  /** last_part->next = part */
  method Append(first: PathPart, ghost nodes: seq<PathPart>, last: PathPart, node: PathPart)
    requires IsList(first, nodes) && nodes != [] && last == nodes[|nodes| - 1] && node !in nodes && node.next == null
    modifies last
    ensures IsList(first, nodes + [node])
  {
    last.next := node;
  }

  lemma OneNode(node: PathPart)
    requires node.next == null
    ensures IsList(node, [node]) && IsList(null, [])
    ensures Frames([node]) == [node.textFrame, node.frame]
  {
    assert [node][..0] == [];
  }

  lemma FramesMore(nodes: seq<PathPart>, node: PathPart)
    ensures Frames(nodes + [node]) == Frames(nodes) + [node.textFrame, node.frame]
    ensures |Frames(nodes)| == 2 * |nodes|
  {
    assert (nodes + [node])[..|nodes|] == nodes;
    if nodes != [] {
      FramesMore(nodes[..|nodes| - 1], nodes[|nodes| - 1]);
      assert nodes == nodes[..|nodes| - 1] + [nodes[|nodes| - 1]];
    }
  }

  /** The rest of the text behind a component. */
  lemma RestOfPath(b: seq<Byte>, at: nat)
    requires Terminated(b, at)
    ensures var s := Text(b, at);
      var e := FirstSlash(s);
      var next := at + e + (if e < |s| then 1 else 0);
      && Terminated(b, next) && Length(b, next) <= Length(b, at)
      && (e == 0 ==> Components(s) == [])
      && (e > 0 ==>
        && Length(b, next) < Length(b, at)
        && Components(s) == [s[..e]] + Components(Text(b, next)))
  {
    hide FirstSlash;
    var s, e := Text(b, at), FirstSlash(Text(b, at));
    var next := at + e + (if e < |s| then 1 else 0);
    LengthIs(b, next, |s| - (next - at));
    assert Text(b, next) == s[next - at..];
    if e == |s| {
      FirstSlashIs([], 0);
      assert s[..e] == s;
    }
  }

  /** What a step means for the components still to come. */
  lemma StepFacts(b: seq<Byte>, at: nat, next: nat, part: PathPart?, nodes: seq<PathPart>, parts: seq<Str>)
    requires StepOf(b, at, next, part) && HoldsParts(nodes, parts)
    ensures Terminated(b, at)
    ensures part == null ==> Components(Text(b, at)) == []
    ensures part != null ==>
      && Terminated(b, next) && Length(b, next) < Length(b, at)
      && var head := Text(b, at)[..FirstSlash(Text(b, at))];
        && Components(Text(b, at)) == [head] + Components(Text(b, next))
        && HoldsParts(nodes + [part], parts + [head])
  {
    hide FirstSlash, Components;
    RestOfPath(b, at);
  }

  /** The loop of pathparser_parse over the components behind the first. */
  method ParseRest(k: Machine, path: seq<Byte>, at0: nat, first: PathPart, ghost ks0: KState, ghost held: seq<nat>, ghost parts0: seq<Str>)
    returns (ghost nodes: seq<PathPart>)
    requires k.Valid() && first.next == null && Holding(ks0, k.State(), held + Frames([first])) && HoldsParts([first], parts0) && |parts0| == 1
    requires Terminated(path, at0) && Length(path, at0) < MAX_PATH - 4 && |held| <= 1
    requires FreeFrom(ks0.table, 0) >= ENOUGH_BLOCKS
    modifies k.heap`live, k.heap.entries, k.ram, first
    ensures k.Valid() && IsList(first, nodes) && HoldsParts(nodes, parts0 + Components(Text(path, at0)))
    ensures Holding(ks0, k.State(), held + Frames(nodes))
  {
    hide Refines, Holding, FreeFrom, Text, Terminated, Length, FirstSlash, Components, HoldsParts, IsList, Frames, StepOf;
    nodes := [first];
    ghost var parts := parts0;
    var last, at := first, at0;
    OneNode(first);
    ghost var goal := parts0 + Components(Text(path, at0));
    ComponentsBound(path, at0);
    FramesMore([], first);
    FramesMore([first], first);
    var part, next := ParsePathPart(k, path, at, ks0, held + Frames(nodes));
    while part != null
      invariant k.Valid() && IsList(first, nodes) && nodes != [] && last == nodes[|nodes| - 1]
      invariant nodes[0] == first && fresh(nodes[1..])
      invariant HoldsParts(nodes, parts) && |Frames(nodes)| == 2 * |nodes|
      invariant Terminated(path, at) && parts + Components(Text(path, at)) == goal
      invariant |nodes| == |parts| <= |goal| <= 54 && Length(path, at) < MAX_PATH - 4
      invariant StepOf(path, at, next, part)
      invariant part == null ==> Holding(ks0, k.State(), held + Frames(nodes))
      invariant part != null ==>
        fresh(part) && part.next == null && part !in nodes
        && Holding(ks0, k.State(), held + Frames(nodes) + [part.textFrame, part.frame])
      decreases Length(path, at)
    {
      StepFacts(path, at, next, part, nodes, parts);
      assert |nodes| > 1 ==> last == nodes[1..][|nodes| - 2];
      Append(first, nodes, last, part);
      assert (nodes + [part])[1..] == nodes[1..] + [part];
      FramesMore(nodes, part);
      FramesMore(nodes + [part], part);
      assert held + Frames(nodes + [part]) == held + Frames(nodes) + [part.textFrame, part.frame];
      ghost var head := Text(path, at)[..FirstSlash(Text(path, at))];
      assert parts + Components(Text(path, at)) == (parts + [head]) + Components(Text(path, next));
      parts := parts + [head];
      nodes := nodes + [part];
      last, at := part, next;
      part, next := ParsePathPart(k, path, at, ks0, held + Frames(nodes));
    }
    StepFacts(path, at, next, part, nodes, parts);
    assert parts + [] == parts;
  }

  lemma ComponentsBound(b: seq<Byte>, at: nat)
    requires Terminated(b, at) && Length(b, at) < MAX_PATH
    ensures 2 * |Components(Text(b, at))| <= Length(b, at) + 1
  {
    ComponentsFit(Text(b, at));
  }

  /** strlen */
  method StringLength(path: seq<Byte>) returns (i: nat)
    requires Terminated(path, 0)
    ensures i == |Text(path, 0)|
  {
    i := 0;
    while path[i] != NUL
      invariant 0 <= i <= Length(path, 0)
      decreases Length(path, 0) - i
    {
      i := i + 1;
    }
  }

  /** pathparser_get_drive_by_path: the drive number, or an error for any other format. */
  method GetDriveByPath(path: seq<Byte>) returns (drive: int)
    requires Terminated(path, 0)
    ensures var t := Text(path, 0);
      drive == if |t| >= 3 && 0x30 <= t[0] <= 0x39 && t[1] == 0x3A && t[2] == 0x2F then t[0] - 0x30 else -4
  {
    var len := StringLength(path);
    assert forall i :: 0 <= i < len ==> Text(path, 0)[i] == path[i];
    if !(len >= 3 && IsDigit(path[0]) && path[1] == COLON && path[2] == SLASH) {
      return -EBADPATH;
    }
    return path[0] - ZERO;
  }

  /**
    pathparser_parse with enough free blocks: null, with nothing changed, for a refused path; otherwise the drive
    and the list of components, whose blocks are the only ones taken.
   */
  method PathParserParse(k: Machine, path: seq<Byte>) returns (root: PathRoot?, ghost nodes: seq<PathPart>)
    requires k.Valid() && Terminated(path, 0) && FreeFrom(k.State().table, 0) >= ENOUGH_BLOCKS
    modifies k.heap`live, k.heap.entries, k.ram
    ensures k.Valid()
    ensures match Parse(Text(path, 0))
      case NoPath => root == null && k.State() == old(k.State())
      case Root(drive, parts) =>
        && root != null && root.driveNo == drive && IsList(root.first, nodes) && HoldsParts(nodes, parts)
        && Holding(old(k.State()), k.State(), [root.frame] + Frames(nodes))
  {
    hide Refines, Holding, FreeFrom, FirstSlash, Components, HoldsParts, IsList, Frames, StepOf, Fits, StartBlock, BlocksFor, Zalloc, Release, NewFrame;
    nodes := [];
    var length := StringLength(path);
    if length > MAX_PATH {
      return null, [];
    }
    var res := GetDriveByPath(path);
    if res < 0 {
      return null, [];
    }
    ghost var ks := k.State();
    HoldingNothing(ks);
    HoldMore(ks, ks, [], ROOT_SIZE);
    NewFrameIs(ks);
    var address := k.KZalloc(ROOT_SIZE);
    root := new PathRoot(address / PAGE_SIZE, res);
    assert [] + [root.frame] == [root.frame];
    LengthIs(path, 3, length - 3);
    assert Text(path, 3) == Text(path, 0)[3..];
    NoNodes();
    var first, next := ParsePathPart(k, path, 3, ks, [root.frame]);
    StepFacts(path, 3, next, first, [], []);
    if first == null {
      assert [root.frame] + Frames([]) == [root.frame];
      return root, [];
    }
    root.first := first;
    FirstFrames(path, 3, next, first, [root.frame]);
    ghost var head := Text(path, 3)[..FirstSlash(Text(path, 3))];
    assert [] + [first] == [first] && [] + [head] == [head];
    assert [root.frame] + Frames([first]) == [root.frame] + [first.textFrame, first.frame];
    nodes := ParseRest(k, path, next, first, ks, [root.frame], [head]);
  }

  lemma NoNodes()
    ensures IsList(null, []) && HoldsParts([], []) && Frames([]) == []
  {
  }

  lemma FirstFrames(b: seq<Byte>, at: nat, next: nat, first: PathPart, held: seq<nat>)
    requires StepOf(b, at, next, first) && at == 3 && Length(b, at) <= MAX_PATH - 3
    ensures Frames([first]) == [first.textFrame, first.frame]
    ensures Terminated(b, next) && Length(b, next) < MAX_PATH - 4
  {
    hide FirstSlash;
    assert [first][..0] == [];
    RestOfPath(b, at);
    var s := Text(b, at);
    if FirstSlash(s) < |s| {
      LengthIs(b, next, |s| - (next - at));
    } else {
      LengthIs(b, next, 0);
    }
  }

  /** kfree of a block that is held and not yet given back. */
  method GiveOne(k: Machine, f: nat, ghost ks0: KState, ghost ks: KState, ghost fs: seq<nat>, ghost i: nat)
    requires k.Valid() && Holding(ks0, ks, fs) && i < |fs| && fs[i] == f && Gave(ks, k.State(), SetOf(fs[..i]))
    modifies k.heap`live, k.heap.entries
    ensures k.Valid() && Gave(ks, k.State(), SetOf(fs[..i + 1]))
  {
    hide Refines, Holding, Gave, Release;
    HeldIsSingle(ks0, ks, fs, i);
    GivePage(ks, k.State(), SetOf(fs[..i]), f);
    Chunks.FreePage(k, f);
  }

  lemma FramesAt(nodes: seq<PathPart>, i: nat)
    requires i < |nodes|
    ensures |Frames(nodes)| == 2 * |nodes|
    ensures Frames(nodes)[2 * i] == nodes[i].textFrame && Frames(nodes)[2 * i + 1] == nodes[i].frame
  {
    var n := |nodes| - 1;
    FramesMore(nodes[..n], nodes[n]);
    assert nodes == nodes[..n] + [nodes[n]];
    if i < n { FramesAt(nodes[..n], i); }
  }

  lemma FramesLength(nodes: seq<PathPart>)
    ensures |Frames(nodes)| == 2 * |nodes|
  {
    if nodes != [] { FramesAt(nodes, 0); }
  }

  /** What is held, in another order. */
  lemma HoldingReordered(ks0: KState, ks: KState, f: nat, fs: seq<nat>)
    requires Holding(ks0, ks, [f] + fs)
    ensures Holding(ks0, ks, fs + [f])
  {
    hide Took;
    var a, b := [f] + fs, fs + [f];
    assert SetOf(a) == SetOf(b);
    forall i, j | 0 <= i < j < |b| ensures b[i] != b[j] {
      assert b[i] == a[i + 1];
      if j < |fs| { assert b[j] == a[j + 1]; } else { assert b[j] == a[0]; }
    }
  }

  /** Parse and free, for every path: the heap table is restored byte for byte. */
  method ParseThenFree(k: Machine, path: seq<Byte>)
    requires k.Valid() && Terminated(path, 0) && FreeFrom(k.State().table, 0) >= ENOUGH_BLOCKS
    modifies k.heap`live, k.heap.entries, k.ram
    ensures k.Valid() && k.State().table == old(k.State()).table && k.State().live == old(k.State()).live
  {
    hide Refines, Holding, FreeFrom, Frames, HoldsParts, Parse;
    ghost var ks := k.State();
    var root;
    ghost var nodes;
    root, nodes := PathParserParse(k, path);
    if root != null {
      HoldingReordered(ks, k.State(), root.frame, Frames(nodes));
      PathParserFree(k, root, nodes, ks);
    }
  }

  /** pathparser_free after pathparser_parse: the heap table is what it was before, byte for byte. */
  method PathParserFree(k: Machine, root: PathRoot, ghost nodes: seq<PathPart>, ghost ks0: KState)
    requires k.Valid() && IsList(root.first, nodes) && Holding(ks0, k.State(), Frames(nodes) + [root.frame])
    modifies k.heap`live, k.heap.entries
    ensures k.Valid() && k.State().table == ks0.table && k.State().live == ks0.live
  {
    hide Refines, Holding, Gave, Frames;
    ghost var ks, fs := k.State(), Frames(nodes) + [root.frame];
    GaveNothing(ks);
    assert SetOf(fs[..0]) == {};
    FramesLength(nodes);
    var part := root.first;
    ghost var i := 0;
    while part != null
      invariant 0 <= i <= |nodes| && part == (if i < |nodes| then nodes[i] else null)
      invariant k.Valid() && Gave(ks, k.State(), SetOf(fs[..2 * i]))
      decreases |nodes| - i
    {
      var nextPart := part.next;
      FramesAt(nodes, i);
      GiveOne(k, part.textFrame, ks0, ks, fs, 2 * i);
      GiveOne(k, part.frame, ks0, ks, fs, 2 * i + 1);
      part := nextPart;
      i := i + 1;
    }
    GiveOne(k, root.frame, ks0, ks, fs, 2 * |nodes|);
    assert fs[..|fs|] == fs;
    AllGivenBack(ks0, ks, k.State(), fs);
  }
}
