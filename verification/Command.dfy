/**
  os_parse_command: a command line becomes a linked list of arguments, by strtok over a private copy.
  Each node is allocated by the malloc system call, so it takes a block of the kernel heap and an
  allocation slot of the calling process.
 */
module Command {
  import opened HeapTable
  import opened Memory
  import opened KernelState
  import opened KernelMachine
  import opened AddressSpace
  import opened ProcessMemory
  import opened Processes
  import opened AllocationRoom
  import opened OwnMemory
  import opened Tokens
  import HT = HeapTheory

  const ARGUMENT_SIZE := 512
  const COMMAND_SIZE := 1025
  const RUN_BUFFER_SIZE := 1024
  /** sizeof(struct command_argument) */
  const NODE_SIZE := 516
  const SPACE: Str := [0x20]

  /** A C string cut to `n` characters. */
  function Cut(s: Str, n: nat): (r: Str)
    ensures |r| <= n && r <= s
  {
    if |s| <= n then s else s[..n]
  }

  /** A line and its NUL over the front of a buffer; the rest stays. */
  function Overlay(b: seq<Byte>, line: Str): (r: seq<Byte>)
    requires |line| < |b|
    ensures |r| == |b|
  {
    line + [NUL] + b[|line| + 1..]
  }

  /** The text that a pointer to index `sp` of the buffer then sees: the rest of the new line, or what lies behind it. */
  ghost function TextBehind(b: seq<Byte>, line: Str, sp: nat): Str
    requires sp <= |line| || Terminated(b, sp)
  {
    if sp <= |line| then line[sp..] else Text(b, sp)
  }

  lemma OverlayText(b: seq<Byte>, line: Str, sp: nat)
    requires |line| < |b| && NUL !in line && (sp <= |line| || Terminated(b, sp))
    ensures Terminated(Overlay(b, line), sp) && Text(Overlay(b, line), sp) == TextBehind(b, line, sp)
  {
    var r := Overlay(b, line);
    if sp <= |line| {
      LengthIs(r, sp, |line| - sp);
      assert r[sp..|line|] == line[sp..];
    } else {
      var n := Length(b, sp);
      assert forall k :: sp <= k <= sp + n ==> r[k] == b[k];
      LengthIs(r, sp, n);
      assert r[sp..sp + n] == b[sp..sp + n];
    }
  }

  /** strncpy into a char buffer: the source string cut to count - 1 characters, always terminated. */
  method Strncpy(dest: array<Byte>, src: array<Byte>, at: nat, count: nat)
    requires 1 <= count <= dest.Length && dest != src && Terminated(src[..], at)
    modifies dest
    ensures dest[..] == Overlay(old(dest[..]), Cut(Text(src[..], at), count - 1))
    ensures Terminated(dest[..], 0) && Text(dest[..], 0) == Cut(Text(src[..], at), count - 1)
  {
    ghost var n := Length(src[..], at);
    var i := 0;
    while i < count - 1
      invariant 0 <= i <= n && i <= count - 1
      invariant forall k :: 0 <= k < i ==> dest[k] == src[at + k]
      invariant forall k :: i <= k < dest.Length ==> dest[k] == old(dest[k])
    {
      if src[at + i] == NUL {
        break;
      }
      dest[i] := src[at + i];
      i := i + 1;
    }
    dest[i] := NUL;
    ghost var line := src[..][at..at + i];
    assert line == Cut(Text(src[..], at), count - 1);
    CopyDone(old(dest[..]), dest[..], line);
  }

  lemma CopyDone(before: seq<Byte>, after: seq<Byte>, line: Str)
    requires |line| < |before| == |after| && NUL !in line && after[|line|] == NUL
    requires forall k :: 0 <= k < |line| ==> after[k] == line[k]
    requires forall k :: |line| < k < |after| ==> after[k] == before[k]
    ensures after == Overlay(before, line) && Terminated(after, 0) && Text(after, 0) == line
  {
    LengthIs(after, 0, |line|);
    assert after[0..|line|] == line;
  }

  /** struct command_argument; the 512 bytes of its text are written once, before it is linked. */
  class CommandArgument {
    /** The block that os_malloc returned. */
    const address: nat
    const argument: seq<Byte>
    var next: CommandArgument?

    constructor (address: nat, argument: seq<Byte>)
      ensures this.address == address && this.argument == argument && next == null
    {
      this.address := address;
      this.argument := argument;
      next := null;
    }
  }

  /** The nodes of a list in order. */
  ghost predicate IsList(root: CommandArgument?, nodes: seq<CommandArgument>)
    reads nodes
  {
    && (nodes == [] <==> root == null)
    && (nodes != [] ==> root == nodes[0] && nodes[|nodes| - 1].next == null)
    && (forall i :: 0 <= i < |nodes| - 1 ==> nodes[i].next == nodes[i + 1])
    && (forall i, j :: 0 <= i < j < |nodes| ==> nodes[i] != nodes[j])
  }

  ghost predicate HoldsText(node: CommandArgument, text: Str) {
    |node.argument| == 512 && Terminated(node.argument, 0) && Text(node.argument, 0) == text
  }

  /** The i-th node holds the i-th word, cut to its buffer. */
  ghost predicate Holds(nodes: seq<CommandArgument>, words: seq<Str>) {
    |nodes| <= |words| && forall i :: 0 <= i < |nodes| ==> HoldsText(nodes[i], Cut(words[i], 511))
  }

  /** Every node lies in an allocation of the process, and no two in the same. */
  ghost predicate Allocated(p: Proc, nodes: seq<CommandArgument>) {
    && (forall i :: 0 <= i < |nodes| ==> HasAlloc(p, Alloc(nodes[i].address, 516)))
    && (forall i, j :: 0 <= i < j < |nodes| ==> nodes[i].address != nodes[j].address)
  }

  /** The new node with the text that strncpy takes from the token. */
  method NewArgument(address: nat, from: array<Byte>, start: nat) returns (node: CommandArgument)
    requires Terminated(from[..], start)
    ensures fresh(node) && node.next == null && node.address == address
    ensures HoldsText(node, Cut(Text(from[..], start), ARGUMENT_SIZE - 1))
  {
    var argument := new Byte[ARGUMENT_SIZE](_ => NUL);
    Strncpy(argument, from, start, ARGUMENT_SIZE);
    node := new CommandArgument(address, argument[..]);
  }

  /** current->next = new_command */
  method Append(root: CommandArgument, ghost nodes: seq<CommandArgument>, current: CommandArgument, node: CommandArgument)
    requires IsList(root, nodes) && nodes != [] && current == nodes[|nodes| - 1]
    requires node !in nodes && node.next == null
    modifies current
    ensures IsList(root, nodes + [node])
  {
    current.next := node;
  }

  /** The tokenizer stands behind word k of the buffer, which is at `start`; past the last word both are null. */
  ghost predicate AtWord(tok: Tokenizer, b: array<Byte>, from: array?<Byte>, start: nat, words: seq<Str>, k: nat)
    reads tok, b
  {
    && k <= |words|
    && (k == |words| ==> from == null && tok.buffer == null)
    && (k < |words| ==>
      && from == b && tok.buffer == b
      && Terminated(b[..], start) && Text(b[..], start) == words[k]
      && Terminated(b[..], tok.sp) && Words(Text(b[..], tok.sp), SPACE) == words[k + 1..])
  }

  /** Text and the block table of the heap are different memory. */
  ghost predicate Apart(k: Machine, b: array?<Byte>)
    reads k, k.heap
  {
    (b as object?) != (k.heap.entries as object?)
  }

  /** Where the first call of strtok on the buffer starts: only a null cursor is moved to its front. */
  function Start(tok: Tokenizer): nat
    reads tok
  {
    if tok.buffer == null then 0 else tok.sp
  }

  method FirstToken(tok: Tokenizer, b: array<Byte>) returns (from: array?<Byte>, start: nat)
    requires (tok.buffer == null || tok.buffer == b) && Terminated(b[..], Start(tok))
    modifies tok, b
    ensures AtWord(tok, b, from, start, Words(Text(old(b[..]), old(Start(tok))), SPACE), 0)
  {
    from, start := tok.Strtok(b, 0, SPACE);
  }

  method NextToken(tok: Tokenizer, b: array<Byte>, ghost from0: array?<Byte>, ghost start0: nat, ghost words: seq<Str>, ghost k: nat)
    returns (from: array?<Byte>, start: nat)
    requires k < |words| && AtWord(tok, b, from0, start0, words, k)
    modifies tok, b
    ensures AtWord(tok, b, from, start, words, k + 1)
  {
    hide Words, Text, Terminated;
    from, start := tok.Strtok(null, 0, SPACE);
  }

  function Least(a: nat, b: nat): nat {
    if a < b then a else b
  }

  /** How many nodes the heap and the slots of the process allow. */
  ghost function NodesLeft(ks: KState, p: Proc): nat {
    Least(HT.FreeFrom(ks.table, 0), Unused(p.allocs))
  }

  /** The heap table after n single blocks are taken by first fit. */
  ghost function TakeSingles(t: seq<Entry>, n: nat): seq<Entry> {
    if n == 0 then t else TakeFirst(TakeSingles(t, n - 1), 1)
  }

  /** n nodes were allocated on behalf of the process, and nothing else was touched. */
  ghost predicate Spent(ks: KState, p: Proc, ks': KState, p': Proc, n: nat) {
    Used(ks, p, ks', p', n, n) && ks'.table == TakeSingles(ks.table, n) && OnlyOwn(ks, p, ks', p')
  }

  /** A list of the first words, each node in its own allocation, and what that took from the process. */
  ghost predicate Made(root: CommandArgument?, nodes: seq<CommandArgument>, words: seq<Str>, ks: KState, p: Proc, ks': KState, p': Proc)
    reads nodes
  {
    IsList(root, nodes) && Holds(nodes, words) && Allocated(p', nodes) && Spent(ks, p, ks', p', |nodes|)
  }

  lemma MadeIs(root: CommandArgument?, nodes: seq<CommandArgument>, words: seq<Str>, ks: KState, p: Proc, ks': KState, p': Proc)
    ensures Made(root, nodes, words, ks, p, ks', p') <==>
      IsList(root, nodes) && Holds(nodes, words) && Allocated(p', nodes) && Spent(ks, p, ks', p', |nodes|)
  {
    hide IsList, Holds, Allocated, Spent;
  }

  /** The cursor after the first m of these words were made into nodes. */
  ghost predicate CursorAfter(tok: Tokenizer, words: seq<Str>, m: nat)
    reads tok, tok.buffer
  {
    && m <= |words|
    && (m == |words| ==> tok.IsNull())
    && (m < |words| ==>
      tok.buffer != null && Terminated(tok.buffer[..], tok.sp) && tok.Pending(SPACE) == words[m + 1..])
  }

  /**
    The outcome of parsing a line of these words: the list holds the words in order, as many as
    blocks and slots allow, each node in its own allocation, and nothing else was taken.
   */
  ghost predicate Parsed(root: CommandArgument?, nodes: seq<CommandArgument>, tok: Tokenizer, words: seq<Str>,
                         ks: KState, p: Proc, ks': KState, p': Proc)
    reads nodes, tok, tok.buffer
  {
    && Made(root, nodes, words, ks, p, ks', p') && |nodes| == Least(|words|, NodesLeft(ks, p))
    && CursorAfter(tok, words, |nodes|)
  }

  /** A cursor left by an earlier call points into the buffer of this one, and a NUL follows it or will. */
  ghost predicate CursorOk(tok: Tokenizer, scommand: array<Byte>, line: Str)
    reads tok, scommand
  {
    tok.buffer != null ==> tok.buffer == scommand && (tok.sp <= |line| || Terminated(scommand[..], tok.sp))
  }

  /** The words that a line is parsed into: its own, or those from the old position on in the overwritten buffer. */
  ghost function ParsedWords(tok: Tokenizer, scommand: array<Byte>, line: Str): seq<Str>
    requires CursorOk(tok, scommand, line)
    reads tok, scommand
  {
    Words(if tok.buffer == null then line else TextBehind(scommand[..], line, tok.sp), SPACE)
  }

  /**
    os_parse_command. Its local buffer `scommand` lies at the same stack address whenever it is called
    from the same depth, so a cursor that an earlier call left behind points into it. The list holds
    the words in order, as many as free blocks and free slots of the calling process allow, and each
    node takes one of both. The cursor is null again exactly when they suffice. Otherwise one word is
    lost, and the next line is read from the old position on.
   */
  method OsParseCommand(tok: Tokenizer, command: array<Byte>, max: int, scommand: array<Byte>, k: Machine, shell: Process)
    returns (root: CommandArgument?, ghost nodes: seq<CommandArgument>)
    requires Terminated(command[..], 0) && scommand.Length == COMMAND_SIZE && scommand != command
    requires CursorOk(tok, scommand, Cut(Text(command[..], 0), COMMAND_SIZE - 1))
    requires k.Valid() && shell.Valid() && ProcOk(k.State(), shell.Model()) && Apart(k, scommand)
    modifies tok, scommand, k.heap`live, k.heap.entries, k.ram, shell.allocations
    ensures k.Valid() && ProcOk(k.State(), shell.Model()) && (tok.buffer == null || tok.buffer == scommand)
    ensures max >= 1025 ==>
      && root == null && nodes == [] && tok.buffer == old(tok.buffer) && tok.sp == old(tok.sp) && scommand[..] == old(scommand[..])
      && k.State() == old(k.State()) && shell.Model() == old(shell.Model())
    ensures max < 1025 ==>
      Parsed(root, nodes, tok, old(ParsedWords(tok, scommand, Cut(Text(command[..], 0), 1024))),
             old(k.State()), old(shell.Model()), k.State(), shell.Model())
  {
    hide Words, Text, Terminated, Cut, ProcOk, Parsed, Overlay, TextBehind, Machine.State, Machine.Valid, Refines;
    if max >= COMMAND_SIZE {
      return null, [];
    }
    ghost var line, before := Cut(Text(command[..], 0), COMMAND_SIZE - 1), scommand[..];
    LineIsText(command[..], COMMAND_SIZE - 1);
    Strncpy(scommand, command, 0, COMMAND_SIZE);
    if tok.buffer != null { OverlayText(before, line, tok.sp); }
    root, nodes := ParseCopy(tok, scommand, k, shell);
  }

  lemma LineIsText(b: seq<Byte>, n: nat)
    requires Terminated(b, 0)
    ensures var line := Cut(Text(b, 0), n); NUL !in line && |line| <= n
  {
    CutIsText(Text(b, 0), n);
  }

  lemma CutIsText(s: Str, n: nat)
    requires NUL !in s
    ensures NUL !in Cut(s, n) && |Cut(s, n)| <= n
  {
  }

  /** The allocation at `address` is none of the nodes'. */
  ghost predicate IsNew(p: Proc, nodes: seq<CommandArgument>, address: nat) {
    && Allocated(p, nodes) && HasAlloc(p, Alloc(address, NODE_SIZE))
    && forall i :: 0 <= i < |nodes| ==> nodes[i].address != address
  }

  /** The malloc system call for one more node: refused exactly when nothing is left. */
  method OsMalloc(k: Machine, shell: Process, ghost ks: KState, ghost proc: Proc, ghost nodes: seq<CommandArgument>)
    returns (address: nat)
    requires k.Valid() && shell.Valid() && ProcOk(k.State(), shell.Model())
    requires Spent(ks, proc, k.State(), shell.Model(), |nodes|) && Allocated(shell.Model(), nodes)
    modifies k.heap`live, k.heap.entries, k.ram, shell.allocations
    ensures k.Valid() && ProcOk(k.State(), shell.Model())
    ensures address == 0 ==>
      && |nodes| == NodesLeft(ks, proc)
      && Spent(ks, proc, k.State(), shell.Model(), |nodes|) && Allocated(shell.Model(), nodes)
    ensures address != 0 ==>
      && |nodes| < NodesLeft(ks, proc)
      && Spent(ks, proc, k.State(), shell.Model(), |nodes| + 1) && IsNew(shell.Model(), nodes, address)
  {
    hide ProcOk, OnlyOwn, HT.FreeFrom, Unused, HasAlloc, TakeFirst, Footprint, TakenFrame;
    ghost var ks1, p := k.State(), shell.Model();
    assert forall i :: 0 <= i < |nodes| ==> HasAlloc(p, Alloc(nodes[i].address, NODE_SIZE));
    address := GrantPage(k, shell, NODE_SIZE);
    OnlyOwnAgain(ks, proc, ks1, p, k.State(), shell.Model());
    assert TakeSingles(ks.table, |nodes| + 1) == TakeFirst(TakeSingles(ks.table, |nodes|), 1);
    if address != 0 {
      ghost var p' := shell.Model();
      forall i | 0 <= i < |nodes| ensures HasAlloc(p', Alloc(nodes[i].address, NODE_SIZE)) && nodes[i].address != address {
        assert HasAlloc(p, Alloc(nodes[i].address, NODE_SIZE)) && Alloc(nodes[i].address, NODE_SIZE).ptr == nodes[i].address;
      }
    }
  }

  lemma AllocatedMore(p: Proc, nodes: seq<CommandArgument>, node: CommandArgument)
    requires IsNew(p, nodes, node.address)
    ensures Allocated(p, nodes + [node])
  {
    hide HasAlloc;
  }

  lemma SpentNone(ks: KState, p: Proc)
    requires Ok(ks) && p.chunk < FRAMES
    ensures Spent(ks, p, ks, p, 0) && Allocated(p, [])
  {
    hide OnlyOwn, Refines;
    NothingDone(ks, p);
  }

  lemma SpentBound(ks: KState, p: Proc, ks': KState, p': Proc, n: nat)
    requires Spent(ks, p, ks', p', n)
    ensures n <= NodesLeft(ks, p)
  {
  }

  /** The part of os_parse_command that works on its private copy. */
  method ParseCopy(tok: Tokenizer, b: array<Byte>, k: Machine, shell: Process)
    returns (root: CommandArgument?, ghost nodes: seq<CommandArgument>)
    requires (tok.buffer == null || tok.buffer == b) && Terminated(b[..], Start(tok))
    requires k.Valid() && shell.Valid() && ProcOk(k.State(), shell.Model()) && Apart(k, b)
    modifies tok, b, k.heap`live, k.heap.entries, k.ram, shell.allocations
    ensures k.Valid() && ProcOk(k.State(), shell.Model()) && (tok.buffer == null || tok.buffer == b)
    ensures Parsed(root, nodes, tok, Words(Text(old(b[..]), old(Start(tok))), SPACE), old(k.State()), old(shell.Model()), k.State(), shell.Model())
  {
    hide Words, Text, Terminated, IsList, Holds, HoldsText, Cut, AtWord, ProcOk, Spent, Allocated, CursorAfter, NodesLeft, IsNew;
    ghost var words := Words(Text(b[..], Start(tok)), SPACE);
    ghost var ks, proc := k.State(), shell.Model();
    nodes := [];
    SpentNone(ks, proc);
    NoNodes(words);
    var token, start := FirstToken(tok, b);
    TokenIs(tok, b, token, start, words, 0);
    if token == null {
      return null, [];
    }
    root := NewNode(k, shell, b, start, words[0], ks, proc, []);
    TokenIs(tok, b, token, start, words, 0);
    if root == null {
      return null, [];
    }
    HoldsMore([], words, root);
    assert [] + [root] == [root];
    token, start := NextToken(tok, b, token, start, words, 0);
    OneNode(root);
    nodes := AddArguments(tok, b, token, start, root, k, shell, words, ks, proc);
  }

  lemma TokenIs(tok: Tokenizer, b: array<Byte>, from: array?<Byte>, start: nat, words: seq<Str>, k: nat)
    requires AtWord(tok, b, from, start, words, k)
    ensures k <= |words| && (from == null <==> k == |words|) && (tok.IsNull() <==> from == null)
    ensures from != null ==> from == b && Terminated(b[..], start) && Text(b[..], start) == words[k]
    ensures CursorAfter(tok, words, k) && (tok.buffer == null || tok.buffer == b)
  {
    hide Text, Words, Terminated;
  }

  /** An allocated node with the text of the token; null when the allocation fails. */
  method NewNode(k: Machine, shell: Process, b: array<Byte>, start: nat, ghost word: Str, ghost ks: KState, ghost proc: Proc, ghost nodes: seq<CommandArgument>)
    returns (node: CommandArgument?)
    requires Terminated(b[..], start) && Text(b[..], start) == word && Apart(k, b)
    requires k.Valid() && shell.Valid() && ProcOk(k.State(), shell.Model())
    requires Spent(ks, proc, k.State(), shell.Model(), |nodes|) && Allocated(shell.Model(), nodes)
    modifies k.heap`live, k.heap.entries, k.ram, shell.allocations
    ensures k.Valid() && ProcOk(k.State(), shell.Model())
    ensures node == null ==>
      && |nodes| == NodesLeft(ks, proc)
      && Spent(ks, proc, k.State(), shell.Model(), |nodes|) && Allocated(shell.Model(), nodes)
    ensures node != null ==>
      && fresh(node) && node.next == null && HoldsText(node, Cut(word, ARGUMENT_SIZE - 1))
      && Spent(ks, proc, k.State(), shell.Model(), |nodes| + 1) && Allocated(shell.Model(), nodes + [node])
  {
    hide Text, Terminated, HoldsText, Cut, ProcOk, Spent, Allocated, NodesLeft, IsNew, Machine.Valid, Machine.State, Refines;
    var address := OsMalloc(k, shell, ks, proc, nodes);
    if address == 0 {
      return null;
    }
    var argument := NewArgument(address, b, start);
    AllocatedMore(shell.Model(), nodes, argument);
    node := argument;
  }

  /** One round of the loop of os_parse_command; null when the allocation fails. */
  method AddOne(tok: Tokenizer, b: array<Byte>, token0: array<Byte>, start0: nat, root: CommandArgument, current: CommandArgument, k: Machine,
                shell: Process, ghost words: seq<Str>, ghost ks: KState, ghost proc: Proc, ghost nodes: seq<CommandArgument>)
    returns (newCommand: CommandArgument?, token: array?<Byte>, start: nat)
    requires k.Valid() && shell.Valid() && ProcOk(k.State(), shell.Model()) && Apart(k, b)
    requires Made(root, nodes, words, ks, proc, k.State(), shell.Model()) && nodes != [] && current == nodes[|nodes| - 1]
    requires |nodes| < |words| && AtWord(tok, b, token0, start0, words, |nodes|)
    modifies tok, b, current, k.heap`live, k.heap.entries, k.ram, shell.allocations
    ensures k.Valid() && ProcOk(k.State(), shell.Model())
    ensures newCommand == null ==>
      && Made(root, nodes, words, ks, proc, k.State(), shell.Model()) && |nodes| == NodesLeft(ks, proc)
      && CursorAfter(tok, words, |nodes|) && (tok.buffer == null || tok.buffer == b)
    ensures newCommand != null ==>
      && fresh(newCommand) && Made(root, nodes + [newCommand], words, ks, proc, k.State(), shell.Model())
      && AtWord(tok, b, token, start, words, |nodes| + 1)
  {
    hide Words, Text, Terminated, IsList, Holds, HoldsText, Cut, AtWord, ProcOk, Spent, Allocated, CursorAfter, NodesLeft, IsNew, Made, Machine.Valid, Machine.State, Refines;
    token, start := token0, start0;
    MadeIs(root, nodes, words, ks, proc, k.State(), shell.Model());
    TokenIs(tok, b, token, start, words, |nodes|);
    newCommand := NewNode(k, shell, b, start, words[|nodes|], ks, proc, nodes);
    if newCommand == null {
      MadeIs(root, nodes, words, ks, proc, k.State(), shell.Model());
      return;
    }
    HoldsMore(nodes, words, newCommand);
    assert AtWord(tok, b, token, start, words, |nodes|);
    Append(root, nodes, current, newCommand);
    MadeIs(root, nodes + [newCommand], words, ks, proc, k.State(), shell.Model());
    assert AtWord(tok, b, token, start, words, |nodes|);
    token, start := NextToken(tok, b, token, start, words, |nodes|);
  }

  /** The loop of os_parse_command behind the root node. */
  method AddArguments(tok: Tokenizer, b: array<Byte>, token0: array?<Byte>, start0: nat, root: CommandArgument, k: Machine, shell: Process,
                      ghost words: seq<Str>, ghost ks: KState, ghost proc: Proc)
    returns (ghost nodes: seq<CommandArgument>)
    requires k.Valid() && shell.Valid() && ProcOk(k.State(), shell.Model()) && Apart(k, b)
    requires Made(root, [root], words, ks, proc, k.State(), shell.Model()) && AtWord(tok, b, token0, start0, words, 1)
    modifies tok, b, root, k.heap`live, k.heap.entries, k.ram, shell.allocations
    ensures k.Valid() && ProcOk(k.State(), shell.Model()) && (tok.buffer == null || tok.buffer == b)
    ensures Made(root, nodes, words, ks, proc, k.State(), shell.Model()) && |nodes| == Least(|words|, NodesLeft(ks, proc))
    ensures CursorAfter(tok, words, |nodes|)
  {
    hide Words, Text, Terminated, IsList, Holds, HoldsText, Cut, AtWord, ProcOk, Spent, Allocated, CursorAfter, NodesLeft, IsNew, Made;
    nodes := [root];
    var token, start, current := token0, start0, root;
    TokenIs(tok, b, token, start, words, 1);
    while token != null
      invariant 1 <= |nodes| <= |words|
      invariant nodes[0] == root && current == nodes[|nodes| - 1] && fresh(nodes[1..])
      invariant k.Valid() && ProcOk(k.State(), shell.Model())
      invariant Made(root, nodes, words, ks, proc, k.State(), shell.Model()) && AtWord(tok, b, token, start, words, |nodes|)
      decreases |words| - |nodes|
    {
      TokenIs(tok, b, token, start, words, |nodes|);
      assert current == root || current == nodes[1..][|nodes| - 2];
      var newCommand;
      newCommand, token, start := AddOne(tok, b, token, start, root, current, k, shell, words, ks, proc, nodes);
      if newCommand == null {
        return;
      }
      assert (nodes + [newCommand])[1..] == nodes[1..] + [newCommand];
      nodes := nodes + [newCommand];
      current := newCommand;
    }
    TokenIs(tok, b, token, start, words, |nodes|);
    MadeIs(root, nodes, words, ks, proc, k.State(), shell.Model());
    SpentBound(ks, proc, k.State(), shell.Model(), |nodes|);
  }

  lemma OneNode(node: CommandArgument)
    requires node.next == null
    ensures IsList(node, [node])
    ensures IsList(null, [])
  {
  }

  lemma HoldsMore(nodes: seq<CommandArgument>, words: seq<Str>, node: CommandArgument)
    requires |nodes| < |words| && (nodes == [] || Holds(nodes, words))
    requires HoldsText(node, Cut(words[|nodes|], ARGUMENT_SIZE - 1))
    ensures Holds(nodes + [node], words)
  {
  }

  lemma NoNodes(words: seq<Str>)
    ensures IsList(null, []) && Holds([], words)
  {
  }

  lemma CutTwice(s: Str, m: nat, n: nat)
    requires m <= n
    ensures Cut(Cut(s, m), n) == Cut(s, m)
  {
  }

  /** A text of two words and one space between them. */
  lemma TwoWords(t: Str, n: nat)
    requires 0 < n && n + 1 < |t| && t[n] == 0x20 && forall k :: 0 <= k < |t| && k != n ==> t[k] != 0x20
    ensures Words(t, SPACE) == [t[..n], t[n + 1..]]
  {
    SkipIs(t, SPACE, 0, 0);
    WordEndIs(t, SPACE, 0, n);
    SkipIs(t, SPACE, n, n + 1);
    WordEndIs(t, SPACE, n + 1, |t|);
    SkipIs(t, SPACE, |t|, |t|);
    assert t[0..n] == t[..n] && t[n + 1..|t|] == t[n + 1..];
    assert WordsFrom(t, SPACE, |t|) == [];
    assert WordsFrom(t, SPACE, n) == [t[n + 1..]];
  }

  /** "hello world", 0-terminated */
  const HELLO: Str := [0x68, 0x65, 0x6C, 0x6C, 0x6F, 0x20, 0x77, 0x6F, 0x72, 0x6C, 0x64]

  /**
    Parsing stopped in the line "a b" behind its first word, at index 2. The next line is
    "hello world", and the list that the shell gets for it holds "llo" and "world".
   */
  method StaleCursorCutsNextLine(scommand: array<Byte>, k: Machine, shell: Process)
    returns (root: CommandArgument?, ghost nodes: seq<CommandArgument>)
    requires scommand.Length == COMMAND_SIZE && Apart(k, scommand)
    requires k.Valid() && shell.Valid() && ProcOk(k.State(), shell.Model()) && NodesLeft(k.State(), shell.Model()) >= 2
    modifies scommand, k.heap`live, k.heap.entries, k.ram, shell.allocations
    ensures |nodes| == 2 && IsList(root, nodes)
    ensures HoldsText(nodes[0], HELLO[2..5]) && HoldsText(nodes[1], HELLO[6..])
  {
    hide Words, Text, Terminated, Cut, ProcOk, NodesLeft, TextBehind, HoldsText;
    var tok := new Tokenizer();
    var next := new Byte[12](i => if 0 <= i < |HELLO| then HELLO[i] else NUL);
    HelloText(next[..]);
    StopInside(tok, scommand);
    HelloWords(scommand[..]);
    root, nodes := OsParseCommand(tok, next, 0, scommand, k, shell);
    ghost var words := [HELLO[2..5], HELLO[6..]];
    assert HoldsText(nodes[0], Cut(words[0], ARGUMENT_SIZE - 1)) && HoldsText(nodes[1], Cut(words[1], ARGUMENT_SIZE - 1));
  }

  lemma HelloText(b: seq<Byte>)
    requires |b| == 12 && forall i :: 0 <= i < 12 ==> b[i] == if i < |HELLO| then HELLO[i] else NUL
    ensures Terminated(b, 0) && Text(b, 0) == HELLO && Cut(HELLO, COMMAND_SIZE - 1) == HELLO
  {
    LengthIs(b, 0, |HELLO|);
    assert b[0..|HELLO|] == HELLO;
  }

  lemma HelloWords(b: seq<Byte>)
    ensures Words(TextBehind(b, HELLO, 2), SPACE) == [HELLO[2..5], HELLO[6..]]
    ensures Cut(HELLO[2..5], ARGUMENT_SIZE - 1) == HELLO[2..5] && Cut(HELLO[6..], ARGUMENT_SIZE - 1) == HELLO[6..]
  {
    TwoWords(HELLO[2..], 3);
    assert HELLO[2..][..3] == HELLO[2..5] && HELLO[2..][4..] == HELLO[6..];
  }

  /** The state in which parsing "a b" leaves the cursor when the node for "a" cannot be allocated. */
  method StopInside(tok: Tokenizer, scommand: array<Byte>)
    requires tok.IsNull() && scommand.Length == COMMAND_SIZE
    modifies tok, scommand
    ensures tok.buffer == scommand && tok.sp == 2
  {
    scommand[0], scommand[1], scommand[2], scommand[3] := 0x61, 0x20, 0x62, NUL;
    LengthIs(scommand[..], 0, 3);
    var t := Text(scommand[..], 0);
    assert t == [0x61, 0x20, 0x62];
    TwoWords(t, 1);
    SkipIs(t, SPACE, 0, 0);
    WordEndIs(t, SPACE, 0, 1);
    var token, start := tok.Strtok(scommand, 0, SPACE);
  }

  /** os_system_run up to the system call: the line is cut to its own buffer first. */
  method OsSystemRun(tok: Tokenizer, command: array<Byte>, scommand: array<Byte>, k: Machine, shell: Process)
    returns (root: CommandArgument?, ghost nodes: seq<CommandArgument>)
    requires Terminated(command[..], 0) && scommand.Length == COMMAND_SIZE && scommand != command
    requires CursorOk(tok, scommand, Cut(Text(command[..], 0), RUN_BUFFER_SIZE - 1))
    requires k.Valid() && shell.Valid() && ProcOk(k.State(), shell.Model()) && Apart(k, scommand)
    modifies tok, scommand, k.heap`live, k.heap.entries, k.ram, shell.allocations
    ensures k.Valid() && ProcOk(k.State(), shell.Model()) && (tok.buffer == null || tok.buffer == scommand)
    ensures Parsed(root, nodes, tok, old(ParsedWords(tok, scommand, Cut(Text(command[..], 0), 1023))),
                   old(k.State()), old(shell.Model()), k.State(), shell.Model())
  {
    hide Words, Text, Terminated, ProcOk, Parsed;
    var buf := new Byte[RUN_BUFFER_SIZE](_ => NUL);
    Strncpy(buf, command, 0, RUN_BUFFER_SIZE);
    CutTwice(Text(command[..], 0), RUN_BUFFER_SIZE - 1, COMMAND_SIZE - 1);
    root, nodes := OsParseCommand(tok, buf, RUN_BUFFER_SIZE, scommand, k, shell);
  }
}
