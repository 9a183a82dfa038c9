/**
  When an ELF image fits its process, in terms of its program headers and the blocks of its file.
 */
module ImageOwnership {
  import opened HeapTable
  import opened Memory
  import opened KernelState
  import opened AddressSpace
  import opened ProcessMemory
  import opened ProgramImage
  import opened Ownership
  import I = Isolation
  import P = Paging

  // ---------------------------------------------------------------- headers

  /** First frame of a segment in the loaded file. */
  function FirstFrame(elf: nat, ph: Phdr): nat {
    (elf + ph.offset) / PAGE_SIZE
  }

  /** The pages of the segment stay clear of the window of heap addresses. */
  predicate MissesWindow(elf: nat, ph: Phdr)
    requires elf + ph.offset + ph.memsz <= 0xFFFF_F000
  {
    FirstPage(ph) + PageCount(elf, ph) <= HEAP_FRAME || HEAP_FRAME + HEAP_BLOCKS <= FirstPage(ph)
  }

  /** What one header must satisfy: a writable one names held frames only. */
  ghost predicate HeaderFits(live: map<nat, nat>, blocks: seq<nat>, elf: nat, ph: Phdr)
    requires elf + ph.offset + ph.memsz <= 0xFFFF_F000
  {
    PageCount(elf, ph) > 0 ==>
      if WantsWrite(ph) then
        MissesWindow(elf, ph)
        && forall g: nat :: FirstFrame(elf, ph) <= g < FirstFrame(elf, ph) + PageCount(elf, ph) ==> InHeld(live, blocks, g)
      else MissesWindow(elf, ph) || FirstPage(ph) == FirstFrame(elf, ph)
  }

  /** Separate headers: the image fits if and only if each header does. */
  lemma ImageFitsExactlyWhenHeadersFit(o: Owned, i: nat, elf: nat, phdrs: seq<Phdr>)
    requires i < |o.held| && ImageOk(Elf(elf, phdrs)) && Separate(elf, phdrs)
    ensures ImageFits(o, i, Elf(elf, phdrs)) <==>
      forall k :: 0 <= k < |phdrs| ==> Addressable(elf, phdrs[k]) && HeaderFits(o.sys.ks.live, o.held[i], elf, phdrs[k])
  {
    hide PageCount, InHeld, HeaderFits, ImageEntry, ImageFits;
    var live, blocks, image := o.sys.ks.live, o.held[i], Elf(elf, phdrs);
    forall k | 0 <= k < |phdrs|
      ensures Addressable(elf, phdrs[k])
      ensures HeaderFits(live, blocks, elf, phdrs[k]) <==> PagesFit(live, blocks, image, elf, phdrs[k])
    {
      HeaderPages(live, blocks, elf, phdrs, k);
    }
    AllPages(o, i, elf, phdrs);
  }

  /** The pages of one header, page by page. */
  ghost predicate PagesFit(live: map<nat, nat>, blocks: seq<nat>, image: Image, elf: nat, ph: Phdr)
    requires ImageOk(image) && Addressable(elf, ph)
  {
    forall p: nat :: InPages(elf, ph, p) ==> p < FRAMES && InImage(image, p) && EntryFits(live, blocks, p, ImageEntry(image, p))
  }

  lemma AllPages(o: Owned, i: nat, elf: nat, phdrs: seq<Phdr>)
    requires i < |o.held| && ImageOk(Elf(elf, phdrs)) && Separate(elf, phdrs)
    ensures ImageFits(o, i, Elf(elf, phdrs)) <==>
      forall k :: 0 <= k < |phdrs| ==> Addressable(elf, phdrs[k]) && PagesFit(o.sys.ks.live, o.held[i], Elf(elf, phdrs), elf, phdrs[k])
  {
    hide PageCount, EntryFits, ImageEntry;
    var live, blocks, image := o.sys.ks.live, o.held[i], Elf(elf, phdrs);
    if ImageFits(o, i, image) {
      forall k, p: nat | 0 <= k < |phdrs| && InPages(elf, phdrs[k], p)
        ensures p < FRAMES && InImage(image, p) && EntryFits(live, blocks, p, ImageEntry(image, p))
      {
        assert !InStack(p);
      }
    }
    if forall k :: 0 <= k < |phdrs| ==> Addressable(elf, phdrs[k]) && PagesFit(live, blocks, image, elf, phdrs[k]) {
      forall p: nat | p < FRAMES && InImage(image, p) && !InStack(p) ensures EntryFits(live, blocks, p, ImageEntry(image, p)) {
        var k :| 0 <= k < |phdrs| && InPages(elf, phdrs[k], p);
        assert PagesFit(live, blocks, image, elf, phdrs[k]);
      }
    }
  }

  lemma HeaderPages(live: map<nat, nat>, blocks: seq<nat>, elf: nat, phdrs: seq<Phdr>, k: nat)
    requires ImageOk(Elf(elf, phdrs)) && Separate(elf, phdrs) && k < |phdrs|
    ensures Addressable(elf, phdrs[k])
    ensures HeaderFits(live, blocks, elf, phdrs[k]) <==> PagesFit(live, blocks, Elf(elf, phdrs), elf, phdrs[k])
  {
    hide PageCount, InHeld, P.IsWriteable, P.Frame;
    var ph, image := phdrs[k], Elf(elf, phdrs);
    var a, f, n := FirstPage(ph), FirstFrame(elf, ph), PageCount(elf, ph);
    SegmentInRange(elf, ph);
    forall p: nat | InPages(elf, ph, p)
      ensures p < FRAMES && InImage(image, p) && ImageEntry(image, p) == (f + p - a) * PAGE_SIZE + SegmentFlags(ph)
      ensures EntryFits(live, blocks, p, ImageEntry(image, p)) <==>
        if WantsWrite(ph) then OutsideWindow(p) && InHeld(live, blocks, f + (p - a)) else OutsideWindow(p) || f == a
    {
      assert LastSegment(elf, phdrs, p) == k;
      EntryBits(f + p - a, SegmentFlags(ph));
    }
    if HeaderFits(live, blocks, elf, ph) {
      forall p: nat | InPages(elf, ph, p) ensures EntryFits(live, blocks, p, ImageEntry(image, p)) {}
    }
    if PagesFit(live, blocks, image, elf, ph) && n > 0 {
      WindowMissed(a, n);
      if WantsWrite(ph) {
        forall g: nat | f <= g < f + n ensures InHeld(live, blocks, g) {
          var p := a + (g - f);
          assert InPages(elf, ph, p) && f + (p - a) == g;
        }
        forall p: nat | a <= p < a + n ensures OutsideWindow(p) { assert InPages(elf, ph, p); }
      } else if f != a {
        forall p: nat | a <= p < a + n ensures OutsideWindow(p) { assert InPages(elf, ph, p); }
      }
    }
  }

  lemma WindowMissed(a: nat, n: nat)
    requires n > 0
    ensures (forall p: nat :: a <= p < a + n ==> OutsideWindow(p)) ==> a + n <= HEAP_FRAME || HEAP_FRAME + HEAP_BLOCKS <= a
  {
    assert a <= HEAP_FRAME < a + n ==> !OutsideWindow(HEAP_FRAME);
    assert !OutsideWindow(a) <==> HEAP_FRAME <= a < HEAP_FRAME + HEAP_BLOCKS || a >= FRAMES;
  }

  // ---------------------------------------------------------------- the run of the file

  /** Where the held stretch that starts at block x ends: held runs, one right behind the other. */
  ghost function HeldEnd(live: map<nat, nat>, blocks: seq<nat>, x: nat): (e: nat)
    ensures x <= e
    decreases HEAP_BLOCKS - x
  {
    if x in blocks && x in live && live[x] > 0 && x < HEAP_BLOCKS then HeldEnd(live, blocks, x + live[x]) else x
  }

  /** All frames of the stretch are held. */
  lemma {:induction false} StretchIsHeld(live: map<nat, nat>, blocks: seq<nat>, x: nat, g: nat)
    requires FrameOf(x) <= g < FrameOf(HeldEnd(live, blocks, x))
    ensures InHeld(live, blocks, g)
    decreases HEAP_BLOCKS - x
  {
    if g < FrameOf(x + live[x]) {
      assert Covers(live, x, g - HEAP_FRAME);
    } else {
      StretchIsHeld(live, blocks, x + live[x], g);
    }
  }

  /** The frame behind it is not. */
  lemma {:induction false} StretchEnds(o: Owned, i: nat, b: nat)
    requires OInv(o) && i < |o.held| && b in o.held[i]
    ensures var live, blocks := o.sys.ks.live, o.held[i]; !InHeld(live, blocks, FrameOf(HeldEnd(live, blocks, b)))
    decreases HEAP_BLOCKS - b
  {
    hide Inv, OInv, Refines;
    var live, blocks := o.sys.ks.live, o.held[i];
    InvOf(o);
    SystemOk(o.sys);
    HeldIsLive(o, i, b);
    LiveInHeap(o.sys.ks, b);
    var e := b + live[b];
    if e in blocks {
      HeldIsLive(o, i, e);
      StretchEnds(o, i, e);
    } else if InHeld(live, blocks, FrameOf(e)) {
      var c: nat :| c in blocks && Covers(live, c, FrameOf(e) - HEAP_FRAME);
      RunBehind(o.sys.ks, b, c);
    }
  }

  /** Frames from inside the stretch of the file on are all held exactly when they end in that stretch. */
  lemma HeldExactlyInStretch(o: Owned, i: nat, b: nat, f: nat, n: nat)
    requires OInv(o) && i < |o.held| && b in o.held[i] && n > 0
    requires FrameOf(b) <= f <= FrameOf(HeldEnd(o.sys.ks.live, o.held[i], b))
    ensures (forall g: nat :: f <= g < f + n ==> InHeld(o.sys.ks.live, o.held[i], g))
      <==> f + n <= FrameOf(HeldEnd(o.sys.ks.live, o.held[i], b))
  {
    hide OInv, InHeld, HeldEnd;
    var live, blocks := o.sys.ks.live, o.held[i];
    var end := FrameOf(HeldEnd(live, blocks, b));
    if f + n <= end {
      forall g: nat | f <= g < f + n ensures InHeld(live, blocks, g) { StretchIsHeld(live, blocks, b, g); }
    } else {
      StretchEnds(o, i, b);
      assert f <= end < f + n;
    }
  }

  /** File and stack alone: the stack counts exactly when it lies right behind the file. */
  lemma StretchOfFileAndStack(o: Owned, i: nat, b: nat, s: nat)
    requires OInv(o) && i < |o.held| && o.held[i] == [b, s]
    ensures b in o.sys.ks.live && s in o.sys.ks.live
    ensures var live := o.sys.ks.live;
      HeldEnd(live, o.held[i], b) == if s == b + live[b] then s + live[s] else b + live[b]
  {
    hide Inv, OInv, Refines;
    InvOf(o);
    SystemOk(o.sys);
    HeldIsLive(o, i, b);
    HeldIsLive(o, i, s);
    LiveInHeap(o.sys.ks, b);
    LiveInHeap(o.sys.ks, s);
    var live, blocks := o.sys.ks.live, o.held[i];
    assert HeldEnd(live, blocks, b) == HeldEnd(live, blocks, b + live[b]);
    if s == b + live[b] {
      assert s + live[s] !in blocks && HeldEnd(live, blocks, s) == HeldEnd(live, blocks, s + live[s]);
    } else {
      assert b + live[b] !in blocks;
    }
  }

  /** A run that covers the block behind another run starts there. */
  lemma RunBehind(ks: KState, b: nat, c: nat)
    requires Ok(ks) && b in ks.live && Covers(ks.live, c, b + ks.live[b])
    ensures c == b + ks.live[b]
  {
    hide Refines;
    LiveCoversItself(ks, b);
    LiveCoversItself(ks, c);
    if c < b + ks.live[b] {
      if b <= c {
        assert Covers(ks.live, b, c);
        RunsDisjoint(ks.table, ks.live, b, c, c);
      } else {
        assert Covers(ks.live, c, b);
        RunsDisjoint(ks.table, ks.live, b, c, b);
      }
    }
  }

  /** The rounded end of a segment in the loaded file. */
  function RoundedEnd(elf: nat, ph: Phdr): nat
    requires elf + ph.offset + ph.memsz <= 0xFFFF_F000
  {
    P.AlignAddress(elf + ph.offset + ph.memsz)
  }

  /** Address of the first byte behind the held stretch of the file. */
  ghost function HeldLimit(o: Owned, i: nat, b: nat): nat
    requires i < |o.held|
  {
    FrameOf(HeldEnd(o.sys.ks.live, o.held[i], b)) * PAGE_SIZE
  }

  /**
    Loading keeps ownership if and only if each writable header ends, rounded up to a page, inside the
    stretch of held runs that starts with the file. The headers are separate, start in that stretch and
    miss the window.
   */
  lemma LoadKeepsOwnershipExactlyWhenSegmentsEndInStretch(o: Owned, i: nat, b: nat, phdrs: seq<Phdr>, stack: nat)
    requires var elf := FrameOf(b) * PAGE_SIZE;
      && OInv(o) && Mappable(o, i, Elf(elf, phdrs), stack) && Separate(elf, phdrs) && b in o.held[i]
      && forall k :: 0 <= k < |phdrs| ==>
        Addressable(elf, phdrs[k]) && elf + phdrs[k].offset <= HeldLimit(o, i, b) && MissesWindow(elf, phdrs[k])
    ensures var elf := FrameOf(b) * PAGE_SIZE;
      OInv(ApplyMap(o, i, Elf(elf, phdrs), stack)) <==>
        forall k :: 0 <= k < |phdrs| && WantsWrite(phdrs[k]) && PageCount(elf, phdrs[k]) > 0 ==>
          RoundedEnd(elf, phdrs[k]) <= HeldLimit(o, i, b)
  {
    hide OInv, PageCount, Separate, InHeld, HeldEnd, P.AlignAddress, MissesWindow, ImageFits;
    var elf, live, blocks := FrameOf(b) * PAGE_SIZE, o.sys.ks.live, o.held[i];
    var n := HeldEnd(live, blocks, b) - b;
    MapKeepsOwnershipExactlyWhenImageFits(o, i, Elf(elf, phdrs), stack);
    ImageFitsExactlyWhenHeadersFit(o, i, elf, phdrs);
    forall k | 0 <= k < |phdrs|
      ensures HeaderFits(live, blocks, elf, phdrs[k]) <==>
        (WantsWrite(phdrs[k]) && PageCount(elf, phdrs[k]) > 0 ==> RoundedEnd(elf, phdrs[k]) <= HeldLimit(o, i, b))
    {
      var ph := phdrs[k];
      EndOfSegment(b, n, ph);
      if PageCount(elf, ph) > 0 { HeldExactlyInStretch(o, i, b, FirstFrame(elf, ph), PageCount(elf, ph)); }
    }
  }

  lemma EndOfSegment(b: nat, n: nat, ph: Phdr)
    requires var elf := FrameOf(b) * PAGE_SIZE; Addressable(elf, ph) && ph.offset <= n * PAGE_SIZE
    ensures var elf := FrameOf(b) * PAGE_SIZE;
      && FrameOf(b) <= FirstFrame(elf, ph) <= FrameOf(b) + n
      && (FirstFrame(elf, ph) + PageCount(elf, ph) <= FrameOf(b) + n <==> RoundedEnd(elf, ph) <= elf + n * PAGE_SIZE)
  {
    Ceiling(FrameOf(b) * PAGE_SIZE + ph.offset + ph.memsz);
    hide P.AlignAddress;
  }
}
