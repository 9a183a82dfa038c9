/**
  The methods of fat16.c that read file data, on two disk streams, proved equal to the functions
  of Fat16.
 */
module FatReader {
  import opened Status
  import opened Memory
  import opened DiskStreams
  import opened Fat16

  /** The FAT as the driver looks it up: two little-endian bytes at the driver's seek position. */
  ghost function FatOf(vol: Volume, disk: Disk): Fat {
    (cluster: nat) => EntryAt(vol, disk, cluster)
  }

  ghost function EntryAt(vol: Volume, disk: Disk, cluster: nat): nat {
    var p := vol.reservedSectors * vol.sectorSize * (cluster * 2);
    EntryNotNegative(vol, cluster);
    disk(p) + 0x100 * disk(p + 1)
  }

  lemma EntryNotNegative(vol: Volume, cluster: nat)
    ensures vol.reservedSectors * vol.sectorSize * (cluster * 2) >= 0
  {
    var a := vol.reservedSectors * vol.sectorSize;
    assert a >= 0;
  }

  class FatDisk {
    const vol: Volume
    const clusterStream: DiskStream
    const fatStream: DiskStream

    ghost predicate Valid()
    {
      vol.Valid() && clusterStream != fatStream && clusterStream.disk == fatStream.disk
    }

    ghost function Disk(): Disk {
      clusterStream.disk
    }

    ghost function TheFat(): Fat {
      FatOf(vol, clusterStream.disk)
    }

    /** The streams of fat16_init_private. */
    constructor (vol: Volume, disk: Disk)
      requires vol.Valid()
      ensures Valid() && this.vol == vol && Disk() == disk && fresh(clusterStream) && fresh(fatStream)
    {
      this.vol := vol;
      clusterStream := new DiskStream(disk);
      fatStream := new DiskStream(disk);
    }

    /** fat16_get_fat_entry */
    method GetFatEntry(cluster: nat) returns (res: int)
      requires Valid()
      modifies fatStream`pos
      ensures res == TheFat()(cluster)
      ensures var p: int := vol.reservedSectors * vol.sectorSize * (cluster * 2);
        p >= 0 && var low: int, high: int := Disk()(p), Disk()(p + 1); res == low + 0x100 * high
    {
      hide Volume.Valid;
      EntryNotNegative(vol, cluster);
      var position := vol.reservedSectors * vol.sectorSize * (cluster * 2);
      res := fatStream.Seek(position);
      if res < 0 {
        assert false;
      }
      var result := new Byte[2](_ => 0);
      res := fatStream.Read(result, 0, 2);
      if res < 0 {
        assert false;
      }
      assert result[..] == Slice(Disk(), position, 2);
      assert result[0] == result[..][0] && result[1] == result[..][1];
      return result[0] as int + 0x100 * result[1] as int;
    }

    /** fat16_get_cluster_for_offset */
    method GetClusterForOffset(startingCluster: nat, offset: nat) returns (res: int)
      requires Valid()
      modifies fatStream`pos
      ensures res == Walk(TheFat(), startingCluster, Index(offset, vol.ClusterSize()))
    {
      hide FatOf;
      var clusterToUse := startingCluster;
      var clusterAhead := Index(offset, vol.ClusterSize());
      var i := 0;
      while i < clusterAhead
        invariant 0 <= i <= clusterAhead && clusterToUse >= 0 && clusterToUse == Walk(TheFat(), startingCluster, i)
      {
        var entry := GetFatEntry(clusterToUse);
        if entry == 0xFF8 || entry == 0xFFF
           || entry == 0xFF7
           || entry == 0xFF0 || entry == 0xFF6
           || entry == 0x00
        {
          assert Walk(TheFat(), startingCluster, i + 1) < 0;
          WalkEnds(TheFat(), startingCluster, i + 1, clusterAhead);
          return -EIO;
        }
        clusterToUse := entry;
        i := i + 1;
      }
      return clusterToUse;
    }

    /** fat16_read_internal_from_stream */
    method ReadInternal(cluster: nat, offset: nat, total: nat, out: array<Byte>, at: nat) returns (res: int)
      requires Valid() && at + total <= out.Length
      modifies fatStream`pos, clusterStream`pos, out
      ensures var r := ReadChunks(TheFat(), vol, Disk(), cluster, offset, total);
        match r
        case Ok(bytes) => res == 0 && out[..] == Splice(old(out[..]), at, bytes)
        case Err(code) => res == code
      ensures forall k :: 0 <= k < out.Length && !(at <= k < at + total) ==> out[k] == old(out[k])
      decreases total
    {
      hide FatOf, Walk, ReadChunks, Index, Rest, Volume.ClusterSize, Volume.Base, Volume.Valid, Splice, Slice;
      ghost var before := out[..];
      var sizeOfCluster := vol.ClusterSize();
      ChunksStep(TheFat(), vol, Disk(), cluster, offset, total);
      var clusterToUse := GetClusterForOffset(cluster, offset);
      if clusterToUse < 0 {
        return clusterToUse;
      }
      var startingPos := vol.Base(clusterToUse) + Rest(offset, sizeOfCluster);
      var totalToRead := if total > sizeOfCluster then sizeOfCluster else total;
      res := clusterStream.Seek(startingPos);
      if res != 0 {
        assert false;
      }
      res := clusterStream.Read(out, at, totalToRead);
      if res != 0 {
        assert false;
      }
      SpliceKeeps(before, at, Slice(Disk(), startingPos, totalToRead));
      ghost var middle := out[..];
      if total - totalToRead > 0 {
        res := ReadInternal(cluster, offset + totalToRead, total - totalToRead, out, at + totalToRead);
        ghost var rest := ReadChunks(TheFat(), vol, Disk(), cluster, offset + totalToRead, total - totalToRead);
        if rest.Ok? {
          SpliceTwice(before, at, Slice(Disk(), startingPos, totalToRead), rest.bytes);
        }
        KeptTwice(before, middle, out[..], at, totalToRead, total);
      }
    }

    lemma KeptTwice(a: seq<Byte>, b: seq<Byte>, c: seq<Byte>, at: nat, n: nat, total: nat)
      requires |a| == |b| == |c| && n <= total
      requires forall k :: 0 <= k < |a| && !(at <= k < at + n) ==> b[k] == a[k]
      requires forall k :: 0 <= k < |a| && !(at + n <= k < at + total) ==> c[k] == b[k]
      ensures forall k :: 0 <= k < |a| && !(at <= k < at + total) ==> c[k] == a[k]
    {
    }

    lemma SpliceKeeps(buffer: seq<Byte>, at: nat, s: seq<Byte>)
      requires at + |s| <= |buffer|
      ensures forall k :: 0 <= k < |buffer| && !(at <= k < at + |s|) ==> Splice(buffer, at, s)[k] == buffer[k]
    {
    }

    /** fat16_read: the number of records, or the error of the first record that fails. */
    method Read(firstCluster: nat, pos: nat, size: nat, nmemb: nat, out: array<Byte>) returns (res: int)
      requires Valid() && size * nmemb <= out.Length
      modifies fatStream`pos, clusterStream`pos, out
      ensures match ReadRecords(TheFat(), vol, Disk(), firstCluster, pos, size, nmemb)
        case Ok(bytes) => res == nmemb && out[..size * nmemb] == bytes
        case Err(code) => res == code
      ensures forall k :: size * nmemb <= k < out.Length ==> out[k] == old(out[k])
    {
      hide FatOf, Walk, ReadChunks, ReadRecords, Splice, Volume.Valid;
      ghost var fat, disk := TheFat(), Disk();
      var offset, at := pos, 0;
      var i := 0;
      assert size * 0 == 0;
      NoneRead(out[..at], ReadRecords(fat, vol, disk, firstCluster, pos, size, nmemb));
      while i < nmemb
        invariant 0 <= i <= nmemb && at == size * i && offset == pos + at && at + size * (nmemb - i) == size * nmemb
        invariant ReadRecords(fat, vol, disk, firstCluster, pos, size, nmemb)
          == Prepend(out[..at], ReadRecords(fat, vol, disk, firstCluster, offset, size, nmemb - i))
        invariant forall k :: size * nmemb <= k < out.Length ==> out[k] == old(out[k])
      {
        RecordStep(size, i, nmemb);
        ghost var before := out[..];
        res := ReadInternal(firstCluster, offset, size, out, at);
        if res < 0 {
          RecordFails(fat, vol, disk, firstCluster, offset, size, nmemb - i);
          return;
        }
        RecordAppended(fat, vol, disk, firstCluster, offset, size, nmemb - i, before, out[..], at);
        at := at + size;
        offset := offset + size;
        i := i + 1;
      }
      assert size * (nmemb - i) == 0;
      AllRead(fat, vol, disk, firstCluster, offset, size, out[..at]);
      return nmemb;
    }
  }

  /** One piece of the read. */
  lemma ChunksStep(fat: Fat, vol: Volume, disk: Disk, c: nat, offset: nat, total: nat)
    requires vol.Valid()
    ensures var s, r := vol.ClusterSize(), ReadChunks(fat, vol, disk, c, offset, total);
      var q := Walk(fat, c, Index(offset, s));
      if q < 0 then r == Err(q)
      else
        var pos := vol.Base(q) + Rest(offset, s);
        if total <= s then r == Ok(Slice(disk, pos, total))
        else r == Prepend(Slice(disk, pos, s), ReadChunks(fat, vol, disk, c, offset + s, total - s))
  {
    hide Index, Rest, Volume.ClusterSize, Volume.Base, Walk;
  }

  ghost function Prepend(done: seq<Byte>, r: Result): Result {
    match r
    case Ok(bytes) => Ok(done + bytes)
    case Err(e) => Err(e)
  }

  lemma NoneRead(done: seq<Byte>, r: Result)
    requires done == []
    ensures Prepend(done, r) == r
  {
    if r.Ok? { assert done + r.bytes == r.bytes; }
  }

  lemma AllRead(fat: Fat, vol: Volume, disk: Disk, c: nat, offset: nat, size: nat, done: seq<Byte>)
    requires vol.Valid()
    ensures Prepend(done, ReadRecords(fat, vol, disk, c, offset, size, 0)) == Ok(done)
  {
    assert done + [] == done;
  }

  lemma RecordFails(fat: Fat, vol: Volume, disk: Disk, c: nat, offset: nat, size: nat, left: nat)
    requires vol.Valid() && left > 0 && ReadChunks(fat, vol, disk, c, offset, size).Err?
    ensures ReadRecords(fat, vol, disk, c, offset, size, left) == ReadChunks(fat, vol, disk, c, offset, size)
  {
    hide ReadChunks;
  }

  lemma RecordStep(size: nat, i: nat, nmemb: nat)
    requires i < nmemb
    ensures size * (i + 1) == size * i + size
    ensures size * (nmemb - i) == size + size * (nmemb - (i + 1))
    ensures size * i + size <= size * nmemb
  {
    Distributes(size, i, 1);
    Distributes(size, nmemb - i - 1, 1);
    Distributes(size, i + 1, nmemb - i - 1);
  }

  lemma Distributes(a: nat, b: nat, c: nat)
    ensures a * (b + c) == a * b + a * c && a * c >= 0
  {
  }

  /** One more record read into the buffer: what remains shrinks by that record. */
  lemma RecordAppended(fat: Fat, vol: Volume, disk: Disk, c: nat, offset: nat, size: nat, left: nat,
                       before: seq<Byte>, after: seq<Byte>, at: nat)
    requires vol.Valid() && left > 0 && at + size <= |before|
    requires ReadChunks(fat, vol, disk, c, offset, size).Ok?
    requires after == Splice(before, at, ReadChunks(fat, vol, disk, c, offset, size).bytes)
    ensures Prepend(before[..at], ReadRecords(fat, vol, disk, c, offset, size, left))
      == Prepend(after[..at + size], ReadRecords(fat, vol, disk, c, offset + size, size, left - 1))
  {
    hide ReadChunks;
    var first := ReadChunks(fat, vol, disk, c, offset, size).bytes;
    assert after[..at + size] == before[..at] + first;
    var rest := ReadRecords(fat, vol, disk, c, offset + size, size, left - 1);
    if rest.Ok? {
      assert before[..at] + (first + rest.bytes) == (before[..at] + first) + rest.bytes;
    }
  }
}
