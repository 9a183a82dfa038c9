/**
  Segment descriptors: the encoder, and the decoding that the processor does (section 3.4.5 of the
  Intel SDM, volume 3A).
 */
module SegmentDescriptors {
  import opened Memory

  datatype Segment = Segment(base: Word, limit: Word, kind: Byte)

  type Descriptor = d: seq<Byte> | |d| == 8 witness [0, 0, 0, 0, 0, 0, 0, 0]

  /** The processor's reading: with the granularity bit set the limit counts 4096-byte units. */
  function Decode(d: Descriptor): Segment {
    var raw := Join(d[0], d[1], d[6] % 16, 0);
    Segment(Join(d[2], d[3], d[4], d[7]), if d[6] >= 0x80 then Coarse(raw) else raw, d[5])
  }

  /** The bits of byte 6 above the limit: AVL, L (64-bit code), D/B (32-bit segment), G (4096-byte units). */
  ghost predicate FlagsAre(b: Byte, avl: nat, long: nat, big: nat, granular: nat) {
    b / 0x10 % 2 == avl && b / 0x20 % 2 == long && b / 0x40 % 2 == big && b / 0x80 == granular
  }

  /** The guard of the encoder; anything else panics. */
  predicate Accepted(s: Segment) {
    s.limit <= 65536 || s.limit % 4096 == 0xFFF
  }

  /** The bytes written for s, also for a segment the guard refuses. */
  function Encode(s: Segment): Descriptor {
    var big := s.limit > 65536;
    var limit := if big then s.limit / 4096 else s.limit;
    [limit % 0x100, limit / 0x100 % 0x100, s.base % 0x100, s.base / 0x100 % 0x100, s.base / 0x1_0000 % 0x100,
     s.kind, (if big then 0xC0 else 0x40) + limit / 0x1_0000 % 16, s.base / 0x100_0000]
  }

  /** The flag nibble and the limit nibble do not overlap, so OR is addition. */
  lemma OrIsPlusHere(flags: bv8, nibble: bv8)
    requires flags & 0x0F == 0
    ensures flags | (nibble & 0x0F) == flags + (nibble & 0x0F)
  {
  }

  lemma LimitSplits(limit: nat)
    requires limit <= 0xF_FFFF
    ensures Join(limit % 0x100, limit / 0x100 % 0x100, limit / 0x1_0000 % 16, 0) == limit
  {
    assert limit / 0x1_0000 == limit / 0x100 / 0x100;
  }

  /** What the processor reads: the coarse form rounds the limit up to all ones. */
  lemma DecodeOfEncode(s: Segment)
    ensures Decode(Encode(s)) == s.(limit := if s.limit > 65536 then Coarse(s.limit / 4096) else s.limit)
  {
    hide Join;
    var big := s.limit > 65536;
    var limit := if big then s.limit / 4096 else s.limit;
    LimitSplits(limit);
    SplitJoins(s.base);
    HighNibble(if big then 0xC0 else 0x40, limit / 0x1_0000 % 16);
  }

  /** Every segment is a 32-bit one, in units of 4096 bytes exactly above 65536. */
  lemma EncodedFlags(s: Segment)
    ensures FlagsAre(Encode(s)[6], 0, 0, 1, if s.limit > 65536 then 1 else 0)
  {
    var limit := if s.limit > 65536 then s.limit / 4096 else s.limit;
    NibbleFlags(if s.limit > 65536 then 0xC0 else 0x40, limit / 0x1_0000 % 16);
  }

  lemma NibbleFlags(flags: Byte, nibble: nat)
    requires nibble < 16 && (flags == 0x40 || flags == 0xC0)
    ensures FlagsAre(flags + nibble, 0, 0, 1, if flags == 0xC0 then 1 else 0)
  {
  }

  function Coarse(units: nat): nat { units * 4096 + 0xFFF }

  lemma CoarseIs(limit: nat)
    ensures Coarse(limit / 4096) == limit <==> limit % 4096 == 0xFFF
    ensures Coarse(limit) % 4096 == 0xFFF
  {
  }

  lemma HighNibble(flags: Byte, nibble: nat)
    requires nibble < 16 && (flags == 0x40 || flags == 0xC0)
    ensures (flags + nibble) % 16 == nibble && (flags + nibble >= 0x80 <==> flags == 0xC0)
  {
  }

  /** Decoding gives back the segment exactly when the guard accepts it. */
  lemma RoundTripExactlyWhenAccepted(s: Segment)
    ensures Decode(Encode(s)) == s <==> Accepted(s)
  {
    hide Encode, Decode, Coarse;
    DecodeOfEncode(s);
    CoarseIs(s.limit);
  }

  /** The guard also refuses some segments that a descriptor can express: exactly these. */
  lemma RefusedThoughExpressible(s: Segment)
    ensures !Accepted(s) && (exists d :: Decode(d) == s) <==>
      65536 < s.limit <= 0xF_FFFF && s.limit % 4096 != 0xFFF
  {
    if s.limit <= 0xF_FFFF {
      assert Decode(Fine(s)) == s by { FineDecodes(s); }
    } else {
      hide Decode;
      forall d | Decode(d) == s ensures Accepted(s) { DecodedLimit(d); }
    }
  }

  /** The descriptor that counts the limit in bytes. */
  function Fine(s: Segment): Descriptor
    requires s.limit <= 0xF_FFFF
  {
    var l, b := s.limit, s.base;
    [l % 0x100, l / 0x100 % 0x100, b % 0x100, b / 0x100 % 0x100, b / 0x1_0000 % 0x100, s.kind, 0x40 + l / 0x1_0000 % 16, b / 0x100_0000]
  }

  lemma FineDecodes(s: Segment)
    requires s.limit <= 0xF_FFFF
    ensures Decode(Fine(s)) == s
  {
    hide Join;
    LimitSplits(s.limit);
    SplitJoins(s.base);
    HighNibble(0x40, s.limit / 0x1_0000 % 16);
  }

  lemma DecodedLimit(d: Descriptor)
    ensures Decode(d).limit <= 0xF_FFFF || Decode(d).limit % 4096 == 0xFFF
  {
    CoarseIs(Join(d[0], d[1], d[6] % 16, 0));
  }

  /** The i-th descriptor of a table. */
  function At(bytes: seq<Byte>, i: nat): Descriptor
    requires 8 * i + 8 <= |bytes|
  {
    bytes[8 * i..8 * i + 8]
  }

  /** Writes one descriptor; false stands for the panic, which comes before any write. */
  method EncodeGdtEntry(target: array<Byte>, i: nat, s: Segment) returns (ok: bool)
    requires 8 * i + 8 <= target.Length
    modifies target
    ensures ok == Accepted(s)
    ensures target[..] == if ok then old(target[..8 * i]) + Encode(s) + old(target[8 * i + 8..]) else old(target[..])
    ensures ok ==> FlagsAre(target[8 * i + 6], 0, 0, 1, if s.limit > 65536 then 1 else 0)
  {
    EncodedFlags(s);
    if s.limit > 65536 && s.limit % 0x1000 != 0xFFF {
      return false;
    }
    var at, limit := 8 * i, s.limit;
    target[at + 6] := 0x40;
    if s.limit > 65536 {
      limit := limit / 4096;
      target[at + 6] := 0xC0;
    }
    target[at] := limit % 0x100;
    target[at + 1] := limit / 0x100 % 0x100;
    target[at + 6] := target[at + 6] + limit / 0x1_0000 % 16;
    target[at + 2] := s.base % 0x100;
    target[at + 3] := s.base / 0x100 % 0x100;
    target[at + 4] := s.base / 0x1_0000 % 0x100;
    target[at + 7] := s.base / 0x100_0000;
    target[at + 5] := s.kind;
    ok := true;
  }

  /** gdt_structured_to_gdt: the processor reads back every segment of the list. */
  method GdtStructuredToGdt(gdt: array<Byte>, segments: seq<Segment>) returns (ok: bool)
    requires 8 * |segments| <= gdt.Length
    modifies gdt
    ensures ok <==> forall i :: 0 <= i < |segments| ==> Accepted(segments[i])
    ensures ok ==> forall i :: 0 <= i < |segments| ==>
      Decode(At(gdt[..], i)) == segments[i] && FlagsAre(At(gdt[..], i)[6], 0, 0, 1, if segments[i].limit > 65536 then 1 else 0)
    ensures gdt[8 * |segments|..] == old(gdt[8 * |segments|..])
  {
    hide Decode, FlagsAre, Encode, At;
    for i := 0 to |segments|
      invariant forall k :: 0 <= k < i ==> Accepted(segments[k])
      invariant forall k :: 0 <= k < i ==>
        Decode(At(gdt[..], k)) == segments[k] && FlagsAre(At(gdt[..], k)[6], 0, 0, 1, if segments[k].limit > 65536 then 1 else 0)
      invariant gdt[8 * i..] == old(gdt[8 * i..])
    {
      ghost var was := gdt[..];
      ok := EncodeGdtEntry(gdt, i, segments[i]);
      if !ok {
        return;
      }
      AtWritten(was, gdt[..], i, segments[i]);
    }
    ok := true;
  }

  lemma AtWritten(was: seq<Byte>, now: seq<Byte>, i: nat, s: Segment)
    requires 8 * i + 8 <= |was| && now == was[..8 * i] + Encode(s) + was[8 * i + 8..] && Accepted(s)
    ensures |now| == |was| && Decode(At(now, i)) == s && FlagsAre(At(now, i)[6], 0, 0, 1, if s.limit > 65536 then 1 else 0)
    ensures forall k :: 0 <= k < i ==> At(now, k) == At(was, k)
    ensures now[8 * i + 8..] == was[8 * i + 8..]
  {
    RoundTripExactlyWhenAccepted(s);
    EncodedFlags(s);
    assert At(now, i) == Encode(s);
  }
}
