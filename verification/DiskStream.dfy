/**
  The sector streamer: a position on an immutable disk, read in sector-sized pieces by a loop
  and a tail call, equal to one slice of the flat image.
 */
module DiskStreams {
  import opened Memory

  const SECTOR_SIZE := 512

  /** The disk as a function from byte position to byte. */
  type Disk = nat -> Byte

  ghost function Slice(disk: Disk, pos: nat, n: nat): (s: seq<Byte>)
    ensures |s| == n
  {
    seq(n, i requires 0 <= i < n => disk(pos + i))
  }

  /** `s` written into `buffer` from index `at` on. */
  ghost function Splice(buffer: seq<Byte>, at: nat, s: seq<Byte>): (r: seq<Byte>)
    requires at + |s| <= |buffer|
    ensures |r| == |buffer|
  {
    buffer[..at] + s + buffer[at + |s|..]
  }

  lemma SliceSplits(disk: Disk, pos: nat, a: nat, b: nat)
    ensures Slice(disk, pos, a) + Slice(disk, pos + a, b) == Slice(disk, pos, a + b)
  {
  }

  lemma SpliceTwice(buffer: seq<Byte>, at: nat, s: seq<Byte>, t: seq<Byte>)
    requires at + |s| + |t| <= |buffer|
    ensures Splice(Splice(buffer, at, s), at + |s|, t) == Splice(buffer, at, s + t)
  {
  }

  /** What a read does to buffer and position. */
  ghost function ReadEffect(disk: Disk, pos: nat, buffer: seq<Byte>, at: nat, total: nat): (seq<Byte>, nat)
    requires at + total <= |buffer|
  {
    (Splice(buffer, at, Slice(disk, pos, total)), pos + total)
  }

  /** A read byte by byte. */
  lemma ReadBytes(disk: Disk, pos: nat, buffer: seq<Byte>, at: nat, total: nat)
    requires at + total <= |buffer|
    ensures var (out, end) := ReadEffect(disk, pos, buffer, at, total);
      && end == pos + total && |out| == |buffer|
      && forall k :: 0 <= k < |out| ==> out[k] == (if at <= k < at + total then disk(pos + k - at) else buffer[k])
  {
  }

  /** Reading a bytes and then b bytes is reading a + b bytes. */
  lemma ReadsCompose(disk: Disk, pos: nat, buffer: seq<Byte>, at: nat, a: nat, b: nat)
    requires at + a + b <= |buffer|
    ensures var (buffer1, pos1) := ReadEffect(disk, pos, buffer, at, a);
      ReadEffect(disk, pos1, buffer1, at + a, b) == ReadEffect(disk, pos, buffer, at, a + b)
  {
    SliceSplits(disk, pos, a, b);
    SpliceTwice(buffer, at, Slice(disk, pos, a), Slice(disk, pos + a, b));
  }

  /** The part of a sector that holds the bytes from `pos` on. */
  lemma SectorPart(disk: Disk, pos: nat, n: nat)
    requires pos % SECTOR_SIZE + n <= SECTOR_SIZE
    ensures Slice(disk, pos / SECTOR_SIZE * SECTOR_SIZE, SECTOR_SIZE)[pos % SECTOR_SIZE..pos % SECTOR_SIZE + n] == Slice(disk, pos, n)
  {
  }

  class DiskStream {
    const disk: Disk
    var pos: nat

    constructor (disk: Disk)
      ensures this.disk == disk && pos == 0
    {
      this.disk := disk;
      pos := 0;
    }

    method Seek(pos: nat) returns (res: int)
      modifies this`pos
      ensures this.pos == pos && res == 0
    {
      this.pos := pos;
      return 0;
    }

    /** disk_read_block of one sector. */
    method ReadBlock(sector: nat) returns (res: int, buf: array<Byte>)
      ensures res == 0 && fresh(buf) && buf[..] == Slice(disk, sector * SECTOR_SIZE, SECTOR_SIZE)
    {
      var d := disk;
      buf := new Byte[SECTOR_SIZE](i requires 0 <= i => d(sector * SECTOR_SIZE + i));
      res := 0;
    }

    /** The copy loop of diskstreamer_read. */
    method CopyOut(out: array<Byte>, at: nat, buf: array<Byte>, offset: nat, n: nat)
      requires at + n <= out.Length && offset + n <= buf.Length && out != buf
      modifies out
      ensures out[..] == Splice(old(out[..]), at, buf[..][offset..offset + n])
    {
      var i := 0;
      while i < n
        invariant 0 <= i <= n
        invariant forall k :: 0 <= k < out.Length ==>
          out[k] == if at <= k < at + i then buf[offset + k - at] else old(out[k])
      {
        out[at + i] := buf[offset + i];
        i := i + 1;
      }
    }

    /** diskstreamer_read */
    method Read(out: array<Byte>, at: nat, total: nat) returns (res: int)
      requires at + total <= out.Length
      modifies this`pos, out
      ensures res == 0
      ensures (out[..], pos) == ReadEffect(disk, old(pos), old(out[..]), at, total)
      decreases total
    {
      var sector := pos / SECTOR_SIZE;
      var offset := pos % SECTOR_SIZE;
      var totalToRead := total;
      var overflow := offset + totalToRead >= SECTOR_SIZE;
      if overflow {
        totalToRead := totalToRead - ((offset + totalToRead) - SECTOR_SIZE);
      }
      var buf;
      res, buf := ReadBlock(sector);
      if res < 0 {
        assert false;
      }
      ghost var before := out[..];
      CopyOut(out, at, buf, offset, totalToRead);
      SectorPart(disk, pos, totalToRead);
      pos := pos + totalToRead;
      if overflow {
        ReadsCompose(disk, old(pos), before, at, totalToRead, total - totalToRead);
        res := Read(out, at + totalToRead, total - totalToRead);
      }
    }
  }
}
