/**
  Physical memory: 2^20 frames of 4096 bytes. A 32-bit word is stored little endian.
  Addresses are split once into frame number and offset.
 */
module Memory {

  const PAGE_SIZE := 4096
  const FRAMES := 0x10_0000
  const ENTRIES := 1024

  type Byte = x: int | 0 <= x < 256
  type Word = x: int | 0 <= x < 0x1_0000_0000
  type Page = p: seq<Byte> | |p| == PAGE_SIZE witness seq(PAGE_SIZE, _ => 0)
  const ZERO_PAGE: Page := seq(PAGE_SIZE, _ => 0)
  type Ram = m: seq<Page> | |m| == FRAMES witness seq<Page>(FRAMES, _ => ZERO_PAGE)

  function Join(b0: int, b1: int, b2: int, b3: int): int {
    b0 + 0x100 * b1 + 0x1_0000 * b2 + 0x100_0000 * b3
  }

  lemma JoinSplits(b0: Byte, b1: Byte, b2: Byte, b3: Byte)
    ensures var w := Join(b0, b1, b2, b3);
      w % 0x100 == b0 && w / 0x100 % 0x100 == b1 && w / 0x1_0000 % 0x100 == b2 && w / 0x100_0000 == b3
  {
    var w := Join(b0, b1, b2, b3);
    assert w / 0x100 == b1 + 0x100 * b2 + 0x1_0000 * b3;
    assert w / 0x1_0000 == b2 + 0x100 * b3;
  }

  lemma SplitJoins(w: Word)
    ensures Join(w % 0x100, w / 0x100 % 0x100, w / 0x1_0000 % 0x100, w / 0x100_0000) == w
  {
    var h, q := w / 0x100, w / 0x1_0000;
    assert h / 0x100 == q && q / 0x100 == w / 0x100_0000;
  }

  /** The i-th 32-bit word of a page. */
  function WordAt(p: Page, i: nat): Word
    requires i < ENTRIES
  {
    Join(p[4 * i], p[4 * i + 1], p[4 * i + 2], p[4 * i + 3])
  }

  function SetWord(p: Page, i: nat, w: Word): (r: Page)
    requires i < ENTRIES
    ensures WordAt(r, i) == w
    ensures forall j: nat :: j < ENTRIES && j != i ==> WordAt(r, j) == WordAt(p, j)
  {
    SplitJoins(w);
    p[4 * i := w % 0x100]
     [4 * i + 1 := w / 0x100 % 0x100]
     [4 * i + 2 := w / 0x1_0000 % 0x100]
     [4 * i + 3 := w / 0x100_0000]
  }

  /** Storing back the word that is there changes no byte. */
  lemma SetWordSame(p: Page, i: nat)
    requires i < ENTRIES
    ensures SetWord(p, i, WordAt(p, i)) == p
  {
    JoinSplits(p[4 * i], p[4 * i + 1], p[4 * i + 2], p[4 * i + 3]);
  }

  lemma SetWordTwice(p: Page, i: nat, v: Word, w: Word)
    requires i < ENTRIES
    ensures SetWord(SetWord(p, i, v), i, w) == SetWord(p, i, w)
  {
  }

  /** Storing a word changes its four bytes only. */
  lemma SetWordElsewhere(p: Page, i: nat, w: Word, k: nat)
    requires i < ENTRIES && k < PAGE_SIZE && !(4 * i <= k < 4 * i + 4)
    ensures SetWord(p, i, w)[k] == p[k]
  {
  }

  lemma PageSteps(a: nat, i: nat)
    requires a % PAGE_SIZE == 0
    ensures (a + i * PAGE_SIZE) % PAGE_SIZE == 0
    ensures (a + i * PAGE_SIZE) / PAGE_SIZE == a / PAGE_SIZE + i
    ensures a + i * PAGE_SIZE == (a / PAGE_SIZE + i) * PAGE_SIZE
  {
  }

  /** The first `k` bytes of a page set to zero. */
  function ZeroPrefix(p: Page, k: int): Page {
    seq(PAGE_SIZE, i requires 0 <= i < PAGE_SIZE => if i < k then 0 else p[i])
  }

  /** `size` bytes set to zero from the start of frame `f` on. */
  function ZeroFill(m: Ram, f: nat, size: nat): Ram {
    seq(FRAMES, g requires 0 <= g < FRAMES => if f <= g then ZeroPrefix(m[g], size - (g - f) * PAGE_SIZE) else m[g])
  }

  lemma ZeroFillNone(m: Ram, f: nat)
    ensures ZeroFill(m, f, 0) == m
  {
    forall g | 0 <= g < FRAMES ensures ZeroFill(m, f, 0)[g] == m[g] {}
  }

  /** Zeroing touches only the pages that the bytes lie in. */
  lemma ZeroFillFrame(m: Ram, f: nat, size: nat, n: nat)
    requires size <= n * PAGE_SIZE
    ensures forall g :: 0 <= g < FRAMES && !(f <= g < f + n) ==> ZeroFill(m, f, size)[g] == m[g]
  {
    forall g | 0 <= g < FRAMES && !(f <= g < f + n) ensures ZeroFill(m, f, size)[g] == m[g] {
      if f <= g {
        assert size - (g - f) * PAGE_SIZE <= 0;
      }
    }
  }

  lemma ZeroFillStep(m: Ram, f: nat, i: nat)
    requires f + i / PAGE_SIZE < FRAMES
    ensures var g, z := f + i / PAGE_SIZE, ZeroFill(m, f, i);
            ZeroFill(m, f, i + 1) == z[g := z[g][i % PAGE_SIZE := 0]]
  {
    var g, z := f + i / PAGE_SIZE, ZeroFill(m, f, i);
    var r := z[g := z[g][i % PAGE_SIZE := 0]];
    forall h | 0 <= h < FRAMES ensures ZeroFill(m, f, i + 1)[h] == r[h] {
      if f <= h {
        assert i - (h - f) * PAGE_SIZE == (g - h) * PAGE_SIZE + i % PAGE_SIZE;
        if h < g { assert (g - h) * PAGE_SIZE >= PAGE_SIZE; }
        if h > g { assert (g - h) * PAGE_SIZE <= -PAGE_SIZE; }
      }
    }
  }
}
