/**
  Where the bytes of a file lie on the disk, in sectors and clusters: the reads of Fat16 along a chain of
  cluster numbers.
 */
module FatPositions {
  import opened Memory
  import opened DiskStreams
  import opened Fat16

  /** Cluster numbers that follow one another in the FAT, with no end mark, bad or reserved entry between them. */
  ghost predicate Chain(fat: Fat, cs: seq<nat>) {
    cs != [] && forall i :: 0 <= i < |cs| - 1 ==>
      fat(cs[i]) !in {0xFF8, 0xFFF, 0xFF7, 0xFF0, 0xFF6, 0} && cs[i + 1] == fat(cs[i])
  }

  /** Byte position of a cluster: the data sectors start with cluster 2. */
  function Position(vol: Volume, cluster: nat): int {
    (vol.endingSector + (cluster - 2) * vol.sectorsPerCluster) * vol.sectorSize
  }

  lemma BaseIsPosition(vol: Volume, cluster: nat)
    requires vol.Valid()
    ensures vol.Base(cluster) == Position(vol, cluster)
    ensures vol.Base(2) == vol.endingSector * vol.sectorSize
  {
    assert (2 - 2) * vol.sectorsPerCluster == 0;
  }

  /** The n-th hop of the walk is the n-th number of the chain. */
  lemma {:induction false} WalkIsChain(fat: Fat, cs: seq<nat>, n: nat)
    requires Chain(fat, cs) && n < |cs|
    ensures Walk(fat, cs[0], n) == cs[n]
  {
    if n > 0 {
      WalkIsChain(fat, cs, n - 1);
      assert fat(cs[n - 1]) !in {0xFF8, 0xFFF, 0xFF7, 0xFF0, 0xFF6, 0};
    }
  }

  /** Behind an entry that ends the chain every walk gives -EIO, which is -1. */
  lemma ChainEnds(fat: Fat, cs: seq<nat>, n: nat)
    requires Chain(fat, cs) && n >= |cs| && fat(cs[|cs| - 1]) in {0xFF8, 0xFFF, 0xFF7, 0xFF0, 0xFF6, 0}
    ensures Walk(fat, cs[0], n) == -1
  {
    WalkIsChain(fat, cs, |cs| - 1);
    assert Walk(fat, cs[0], |cs|) == -1;
    WalkEnds(fat, cs[0], |cs|, n);
    WalkFails(fat, cs[0], n);
  }

  lemma WalkFails(fat: Fat, c: nat, n: nat)
    ensures Walk(fat, c, n) < 0 ==> Walk(fat, c, n) == -1
  {
  }

  /** Every read along a chain that is long enough: the j-th byte comes from the j / s-th cluster of the read, behind its offset. */
  lemma ReadByteOfChain(fat: Fat, vol: Volume, disk: Disk, cs: seq<nat>, s: nat, offset: nat, total: nat, j: nat)
    requires vol.Valid() && Chain(fat, cs) && s == vol.sectorsPerCluster * vol.sectorSize && s >= 1 && j < total
    requires offset / s + (total - 1) / s < |cs|
    ensures var r := ReadChunks(fat, vol, disk, cs[0], offset, total);
      && r.Ok? && j / s <= (total - 1) / s
      && var a := Position(vol, cs[offset / s + j / s]) + offset % s + j % s;
      a >= 0 && r.bytes[j] == disk(a)
  {
    hide ReadChunks, Walk, Chain;
    WalkIsChain(fat, cs, offset / s + (total - 1) / s);
    DivideMonotone(j, total - 1, s);
    WalkIsChain(fat, cs, offset / s + j / s);
    ReadSucceeds(fat, vol, disk, cs[0], offset, total);
    ReadByteAt(fat, vol, disk, cs[0], offset, total, j);
    BaseIsPosition(vol, cs[offset / s + j / s]);
  }

  /** This is the byte at offset x in the clusters of the chain. */
  ghost predicate ByteFrom(vol: Volume, disk: Disk, cs: seq<nat>, s: nat, x: nat, b: Byte)
    requires s >= 1
  {
    x / s < |cs| && var a := Position(vol, cs[x / s]) + x % s; a >= 0 && b == disk(a)
  }

  /** Byte x of the chain as one sequence. */
  lemma ChainByte(fat: Fat, vol: Volume, disk: Disk, cs: seq<nat>, s: nat, x: nat)
    requires vol.Valid() && Chain(fat, cs) && s == vol.sectorsPerCluster * vol.sectorSize && s >= 1 && x / s < |cs|
    ensures x < |ChainBytes(fat, vol, disk, cs[0], |cs|)|
    ensures ByteFrom(vol, disk, cs, s, x, ChainBytes(fat, vol, disk, cs[0], |cs|)[x])
  {
    hide ChainBytes, Walk, Chain;
    WalkIsChain(fat, cs, x / s);
    ChainByteAt(fat, vol, disk, cs[0], |cs|, x);
    BaseIsPosition(vol, cs[x / s]);
  }

  /** All bytes come from their places in the clusters of the chain. */
  ghost predicate FromChain(vol: Volume, disk: Disk, cs: seq<nat>, s: nat, pos: nat, bytes: seq<Byte>)
    requires s >= 1
  {
    forall j: nat :: j < |bytes| ==> ByteFrom(vol, disk, cs, s, pos + j, bytes[j])
  }

  lemma SliceIsFromChain(fat: Fat, vol: Volume, disk: Disk, cs: seq<nat>, s: nat, pos: nat, n: nat, bytes: seq<Byte>)
    requires vol.Valid() && Chain(fat, cs) && s == vol.sectorsPerCluster * vol.sectorSize && s >= 1
    requires n > 0 && (pos + n - 1) / s < |cs| && pos + n <= |ChainBytes(fat, vol, disk, cs[0], |cs|)|
    requires bytes == ChainBytes(fat, vol, disk, cs[0], |cs|)[pos..pos + n]
    ensures FromChain(vol, disk, cs, s, pos, bytes)
  {
    hide ChainBytes, Chain, ByteFrom;
    forall j: nat | j < n ensures ByteFrom(vol, disk, cs, s, pos + j, bytes[j]) {
      DivideMonotone(pos + j, pos + n - 1, s);
      ChainByte(fat, vol, disk, cs, s, pos + j);
    }
  }

  /** fat16_read of fitting records: byte x of the file comes from its place in cluster x / s of the chain. */
  lemma RecordsAreFromChain(fat: Fat, vol: Volume, disk: Disk, cs: seq<nat>, s: nat, pos: nat, size: nat, nmemb: nat)
    requires vol.Valid() && Chain(fat, cs) && s == vol.sectorsPerCluster * vol.sectorSize && s >= 1
    requires size > 0 && nmemb > 0 && RecordsFit(s, pos, size, nmemb)
    requires size * nmemb > 0 && (pos + size * nmemb - 1) / s < |cs|
    ensures var r := ReadRecords(fat, vol, disk, cs[0], pos, size, nmemb);
      r.Ok? && |r.bytes| == size * nmemb && FromChain(vol, disk, cs, s, pos, r.bytes)
  {
    hide ReadRecords, ChainBytes, Walk, Chain, RecordsFit, FromChain;
    WalkIsChain(fat, cs, (pos + size * nmemb - 1) / s);
    ReadRecordsIsSlice(fat, vol, disk, cs[0], pos, size, nmemb, |cs|);
    SliceIsFromChain(fat, vol, disk, cs, s, pos, size * nmemb, ReadRecords(fat, vol, disk, cs[0], pos, size, nmemb).bytes);
  }

  /** One cluster of 128 sectors: its first 512 bytes are those of the first data sector. */
  lemma FirstSector(fat: Fat, disk: Disk, endingSector: nat, j: nat)
    requires endingSector >= 256 && j < 512
    ensures var r := ReadChunks(fat, Volume(200, endingSector, 128, 512), disk, 2, 0, 512);
      r.Ok? && r.bytes[j] == disk(endingSector * 512 + j)
  {
    hide ReadChunks;
    ReadByteOfChain(fat, Volume(200, endingSector, 128, 512), disk, [2], 65536, 0, 512, j);
  }
}
