/**
  The FAT16 file reader: the walk along a cluster chain, the recursive cluster-sized reads that
  restart the walk every time, and what they return for every offset and length.
 */
module Fat16 {
  import opened Status
  import opened Memory
  import opened DiskStreams

  /** The geometry that the reader uses; sizes are positive and data sectors start past cluster 0. */
  datatype Volume = Volume(reservedSectors: nat, endingSector: nat, sectorsPerCluster: nat, sectorSize: nat) {
    predicate Valid() {
      sectorsPerCluster >= 1 && sectorSize >= 1 && endingSector >= 2 * sectorsPerCluster
    }

    function ClusterSize(): (s: nat)
      requires Valid()
      ensures s >= 1
    {
      Positive(sectorsPerCluster, sectorSize);
      sectorsPerCluster * sectorSize
    }

    /** fat16_cluster_to_sector; cluster numbers count from 2. */
    function ClusterToSector(cluster: nat): (s: nat)
      requires Valid()
    {
      SectorNotNegative(this, cluster);
      endingSector + (cluster - 2) * sectorsPerCluster
    }

    /** Byte position of the first byte of a cluster. */
    function Base(cluster: nat): nat
      requires Valid()
    {
      ClusterToSector(cluster) * sectorSize
    }
  }

  lemma Positive(a: nat, b: nat)
    requires a >= 1 && b >= 1
    ensures a * b >= 1
  {
  }

  lemma SectorNotNegative(vol: Volume, cluster: nat)
    requires vol.Valid()
    ensures vol.endingSector + (cluster - 2) * vol.sectorsPerCluster >= 0
  {
    assert (cluster - 2) * vol.sectorsPerCluster >= -2 * vol.sectorsPerCluster;
  }

  /** The next cluster number is physically next exactly when the bytes are. */
  lemma NextBase(vol: Volume, a: nat, b: nat)
    requires vol.Valid()
    ensures vol.Base(b) == vol.Base(a) + vol.ClusterSize() <==> b == a + 1
  {
    var p, s := vol.sectorsPerCluster, vol.sectorSize;
    Positive(p, s);
    Distribute(b - 2, a - 2, p);
    Distribute(vol.ClusterToSector(b), vol.ClusterToSector(a), s);
    Associate(b - a, p, s);
    MulAtLeast(b - a - 1, p * s);
    Distribute(b - a, 1, p * s);
  }

  lemma Distribute(x: int, y: int, k: int)
    ensures x * k - y * k == (x - y) * k
  {
  }

  lemma Associate(x: int, y: int, z: int)
    ensures (x * y) * z == x * (y * z)
  {
  }

  lemma MulAtLeast(k: int, s: nat)
    ensures k >= 1 ==> k * s >= s
    ensures k <= -1 ==> k * s + s <= 0
  {
    if k >= 1 { Distribute(k, 1, s); assert (k - 1) * s >= 0; }
    if k <= -1 { Distribute(-1, k, s); assert (-1 - k) * s >= 0; }
  }

  // ---------------------------------------------------------------- the chain
  /** Which cluster of a file a byte offset falls in, and where in that cluster. */
  function Index(x: nat, s: nat): nat
    requires s >= 1
  {
    x / s
  }

  function Rest(x: nat, s: nat): nat
    requires s >= 1
  {
    x % s
  }

  /** A FAT as an arbitrary function from cluster to entry. */
  type Fat = nat -> nat

  /** The entries on which fat16_get_cluster_for_offset gives up. */
  predicate Stop(entry: nat) {
    entry in {0xFF8, 0xFFF, 0xFF7, 0xFF0, 0xFF6, 0x00}
  }

  /** The cluster after `n` hops from `c`, or -EIO once a hop meets a stop entry. */
  ghost function Walk(fat: Fat, c: nat, n: nat): (r: int)
    ensures r >= 0 || r == -EIO
  {
    if n == 0 then c
    else
      var p := Walk(fat, c, n - 1);
      if p < 0 then p else if Stop(fat(p)) then -EIO else fat(p)
  }

  /** Once the chain has ended it stays ended. */
  lemma {:induction false} WalkEnds(fat: Fat, c: nat, n: nat, m: nat)
    requires n <= m && Walk(fat, c, n) < 0
    ensures Walk(fat, c, m) < 0
  {
    if n < m { WalkEnds(fat, c, n, m - 1); }
  }

  /** Walking n hops is one hop and then n - 1 more. */
  lemma {:induction false} WalkFromNext(fat: Fat, c: nat, n: nat)
    requires n >= 1 && !Stop(fat(c))
    ensures Walk(fat, c, n) == Walk(fat, fat(c), n - 1)
  {
    if n > 1 { WalkFromNext(fat, c, n - 1); }
  }

  lemma WalkStops(fat: Fat, c: nat, n: nat)
    requires n >= 1 && Stop(fat(c))
    ensures Walk(fat, c, n) < 0
  {
    assert Walk(fat, c, 0) == c;
    assert Walk(fat, c, 1) < 0;
    WalkEnds(fat, c, 1, n);
  }

  ghost function ClusterBytes(vol: Volume, disk: Disk, c: nat): seq<Byte>
    requires vol.Valid()
  {
    Slice(disk, vol.Base(c), vol.ClusterSize())
  }

  /** The file as its directory entry means it: clusters along the chain, each visited once, at most `n`. */
  ghost function ChainBytes(fat: Fat, vol: Volume, disk: Disk, c: nat, n: nat): seq<Byte>
    requires vol.Valid()
    decreases n
  {
    if n == 0 then []
    else if Stop(fat(c)) then ClusterBytes(vol, disk, c)
    else ClusterBytes(vol, disk, c) + ChainBytes(fat, vol, disk, fat(c), n - 1)
  }

  /** Where byte `x` of the file lies on the disk. */
  ghost function FileAddr(fat: Fat, vol: Volume, c: nat, x: nat): (a: int)
    requires vol.Valid()
  {
    var q := Walk(fat, c, Index(x, vol.ClusterSize()));
    if q < 0 then -1 else vol.Base(q) + Rest(x, vol.ClusterSize())
  }

  /** The single pass and the walk from the first cluster agree on every byte. */
  lemma {:induction false} ChainByteAt(fat: Fat, vol: Volume, disk: Disk, c: nat, n: nat, x: nat)
    requires vol.Valid() && Index(x, vol.ClusterSize()) < n && Walk(fat, c, Index(x, vol.ClusterSize())) >= 0
    ensures x < |ChainBytes(fat, vol, disk, c, n)|
    ensures FileAddr(fat, vol, c, x) >= 0
    ensures ChainBytes(fat, vol, disk, c, n)[x] == disk(FileAddr(fat, vol, c, x))
    decreases n
  {
    var s := vol.ClusterSize();
    if x < s {
      SmallDivision(x, s);
    } else {
      DivideLess(x, s);
      if Stop(fat(c)) { WalkStops(fat, c, Index(x, s)); }
      WalkFromNext(fat, c, Index(x, s));
      ChainByteAt(fat, vol, disk, fat(c), n - 1, x - s);
    }
  }

  lemma SmallDivision(x: nat, s: nat)
    requires x < s
    ensures Index(x, s) == 0 && Rest(x, s) == x
  {
  }

  lemma DivideLess(x: nat, s: nat)
    requires 1 <= s <= x
    ensures Index(x, s) >= 1 && Index(x - s, s) == Index(x, s) - 1 && Rest(x - s, s) == Rest(x, s)
  {
    var q, r := Index(x, s), Rest(x, s);
    assert x == q * s + r;
    assert x - s == (q - 1) * s + r;
    DivisionIsUnique(x - s, s, q - 1, r);
  }

  lemma DivisionIsUnique(x: nat, s: nat, q: int, r: nat)
    requires s >= 1 && x == q * s + r && r < s
    ensures Index(x, s) == q && Rest(x, s) == r
  {
    var q', r' := Index(x, s), Rest(x, s);
    assert x == q' * s + r';
    Distribute(q, q', s);
    MulAtLeast(q - q', s);
  }

  // ---------------------------------------------------------------- the read

  datatype Result = Ok(bytes: seq<Byte>) | Err(code: int)

  /** fat16_read_internal_from_stream: each piece restarts the walk at the first cluster. */
  ghost function ReadChunks(fat: Fat, vol: Volume, disk: Disk, c: nat, offset: nat, total: nat): (r: Result)
    requires vol.Valid()
    ensures r.Ok? ==> |r.bytes| == total
    ensures r.Err? ==> r.code == -EIO
    decreases total
  {
    var s := vol.ClusterSize();
    var q := Walk(fat, c, Index(offset, s));
    if q < 0 then Err(q)
    else if total <= s then Ok(Slice(disk, vol.Base(q) + Rest(offset, s), total))
    else
      match ReadChunks(fat, vol, disk, c, offset + s, total - s)
      case Ok(rest) => Ok(Slice(disk, vol.Base(q) + Rest(offset, s), s) + rest)
      case Err(e) => Err(e)
  }

  /** Number of pieces minus one. */
  function LastPiece(s: nat, total: nat): nat
    requires s >= 1
  {
    if total == 0 then 0 else Index(total - 1, s)
  }

  lemma PiecesLess(s: nat, total: nat)
    requires s >= 1 && total > s
    ensures LastPiece(s, total) == LastPiece(s, total - s) + 1
  {
    if total - 1 >= s { DivideLess(total - 1, s); }
  }

  lemma AddCluster(offset: nat, s: nat)
    requires s >= 1
    ensures Index(offset + s, s) == Index(offset, s) + 1 && Rest(offset + s, s) == Rest(offset, s)
  {
    DivideLess(offset + s, s);
  }

  /** For every offset and length: the read succeeds exactly when the walk to its last piece does. */
  lemma {:induction false} ReadSucceeds(fat: Fat, vol: Volume, disk: Disk, c: nat, offset: nat, total: nat)
    requires vol.Valid()
    ensures ReadChunks(fat, vol, disk, c, offset, total).Ok? <==>
      Walk(fat, c, Index(offset, vol.ClusterSize()) + LastPiece(vol.ClusterSize(), total)) >= 0
    decreases total
  {
    var s := vol.ClusterSize();
    var q, n := Index(offset, s), LastPiece(s, total);
    if Walk(fat, c, q) < 0 { WalkEnds(fat, c, q, q + n); }
    if total <= s {
      if total > 0 { SmallDivision(total - 1, s); }
    } else {
      PiecesLess(s, total);
      AddCluster(offset, s);
      ReadSucceeds(fat, vol, disk, c, offset + s, total - s);
    }
  }

  /** The disk position that the read takes its j-th byte from: piece j / s, without regard to where clusters end. */
  ghost function ReadAddr(fat: Fat, vol: Volume, c: nat, offset: nat, j: nat): (a: int)
    requires vol.Valid()
  {
    var s := vol.ClusterSize();
    var q := Walk(fat, c, Index(offset, s) + Index(j, s));
    if q < 0 then -1 else vol.Base(q) + Rest(offset, s) + Rest(j, s)
  }

  /** For every offset and length: where each returned byte comes from. */
  lemma {:induction false} ReadByteAt(fat: Fat, vol: Volume, disk: Disk, c: nat, offset: nat, total: nat, j: nat)
    requires vol.Valid() && j < total && ReadChunks(fat, vol, disk, c, offset, total).Ok?
    ensures ReadAddr(fat, vol, c, offset, j) >= 0
    ensures ReadChunks(fat, vol, disk, c, offset, total).bytes[j] == disk(ReadAddr(fat, vol, c, offset, j))
    decreases total
  {
    var s := vol.ClusterSize();
    if j < s {
      SmallDivision(j, s);
    } else {
      DivideLess(j, s);
      AddCluster(offset, s);
      ReadByteAt(fat, vol, disk, c, offset + s, total - s, j - s);
    }
  }

  /** Offset and length for which no piece of the read passes the end of a cluster. */
  predicate Fitting(s: nat, offset: nat, total: nat)
    requires s >= 1
  {
    Rest(offset, s) == 0 || Rest(offset, s) + total <= s
  }

  lemma FittingAddr(s: nat, offset: nat, total: nat, j: nat)
    requires s >= 1 && Fitting(s, offset, total) && j < total
    ensures Index(offset + j, s) == Index(offset, s) + Index(j, s) && Rest(offset + j, s) == Rest(offset, s) + Rest(j, s)
  {
    assert offset == (Index(offset, s)) * s + Rest(offset, s) && j == (Index(j, s)) * s + Rest(j, s);
    if Rest(offset, s) != 0 { SmallDivision(j, s); }
    assert offset + j == (Index(offset, s) + Index(j, s)) * s + (Rest(offset, s) + Rest(j, s)) by {
      assert (Index(offset, s) + Index(j, s)) * s == (Index(offset, s)) * s + (Index(j, s)) * s;
    }
    DivisionIsUnique(offset + j, s, Index(offset, s) + Index(j, s), Rest(offset, s) + Rest(j, s));
  }

  lemma LastPieceIsLastByte(s: nat, offset: nat, total: nat)
    requires s >= 1 && Fitting(s, offset, total) && total > 0
    ensures Index(offset, s) + LastPiece(s, total) == Index(offset + total - 1, s)
  {
    FittingAddr(s, offset, total, total - 1);
  }

  /**
    A fitting read returns exactly its slice of the file, and fails exactly when the chain ends
    before the cluster of its last byte (or, for an empty read, before the cluster of its offset).
   */
  lemma ReadIsSlice(fat: Fat, vol: Volume, disk: Disk, c: nat, offset: nat, total: nat, n: nat)
    requires vol.Valid() && Fitting(vol.ClusterSize(), offset, total)
    requires total > 0 ==> Index(offset + total - 1, vol.ClusterSize()) < n
    ensures var s, r := vol.ClusterSize(), ReadChunks(fat, vol, disk, c, offset, total);
      && (r.Ok? <==> Walk(fat, c, if total == 0 then Index(offset, s) else Index(offset + total - 1, s)) >= 0)
      && (r.Ok? && total > 0 ==>
        && offset + total <= |ChainBytes(fat, vol, disk, c, n)|
        && r.bytes == ChainBytes(fat, vol, disk, c, n)[offset..offset + total])
  {
    hide ReadChunks, ChainBytes, Walk, Fitting, LastPiece, Index, Rest, Volume.ClusterSize;
    ReadSucceeds(fat, vol, disk, c, offset, total);
    if total == 0 {
      NoPieces(vol.ClusterSize());
    } else {
      LastPieceIsLastByte(vol.ClusterSize(), offset, total);
      if ReadChunks(fat, vol, disk, c, offset, total).Ok? {
        SliceBytes(fat, vol, disk, c, offset, total, n);
      }
    }
  }

  lemma NoPieces(s: nat)
    requires s >= 1
    ensures LastPiece(s, 0) == 0
  {
  }

  lemma SliceBytes(fat: Fat, vol: Volume, disk: Disk, c: nat, offset: nat, total: nat, n: nat)
    requires vol.Valid() && Fitting(vol.ClusterSize(), offset, total) && total > 0
    requires Index(offset + total - 1, vol.ClusterSize()) < n && ReadChunks(fat, vol, disk, c, offset, total).Ok?
    ensures offset + total <= |ChainBytes(fat, vol, disk, c, n)|
    ensures ReadChunks(fat, vol, disk, c, offset, total).bytes == ChainBytes(fat, vol, disk, c, n)[offset..offset + total]
  {
    hide ReadChunks, ChainBytes, Walk, Fitting, Index, Rest, Volume.ClusterSize;
    var r, file := ReadChunks(fat, vol, disk, c, offset, total), ChainBytes(fat, vol, disk, c, n);
    SliceByte(fat, vol, disk, c, offset, total, n, total - 1);
    forall j: nat | j < total ensures r.bytes[j] == file[offset..offset + total][j] {
      SliceByte(fat, vol, disk, c, offset, total, n, j);
    }
  }

  lemma SliceByte(fat: Fat, vol: Volume, disk: Disk, c: nat, offset: nat, total: nat, n: nat, j: nat)
    requires vol.Valid() && Fitting(vol.ClusterSize(), offset, total) && j < total
    requires Index(offset + total - 1, vol.ClusterSize()) < n
    requires ReadChunks(fat, vol, disk, c, offset, total).Ok?
    ensures offset + j < |ChainBytes(fat, vol, disk, c, n)|
    ensures ReadChunks(fat, vol, disk, c, offset, total).bytes[j] == ChainBytes(fat, vol, disk, c, n)[offset + j]
  {
    hide ChainBytes, ReadChunks, Fitting, Index, Rest, Volume.ClusterSize;
    var s := vol.ClusterSize();
    FittingAddr(s, offset, total, j);
    ReadByteAt(fat, vol, disk, c, offset, total, j);
    DivideMonotone(offset + j, offset + total - 1, s);
    ChainByteAt(fat, vol, disk, c, n, offset + j);
  }

  lemma DivideMonotone(x: nat, y: nat, s: nat)
    requires s >= 1 && x <= y
    ensures Index(x, s) <= Index(y, s)
  {
    var q, r := Index(x, s), Index(y, s);
    assert x == q * s + Rest(x, s) && y == r * s + Rest(y, s);
    Distribute(q, r, s);
    MulAtLeast(q - r, s);
  }

  // ---------------------------------------------------------------- reads that do not fit

  /** Byte `x` of the file, where the chain reaches it. */
  ghost function FileByte(fat: Fat, vol: Volume, disk: Disk, c: nat, x: nat): Byte
    requires vol.Valid()
  {
    var a := FileAddr(fat, vol, c, x);
    if a < 0 then 0 else disk(a)
  }

  /** If the chain reaches the last requested byte, the read returns the requested bytes of the file. */
  ghost predicate ReadCorrect(fat: Fat, vol: Volume, disk: Disk, c: nat, offset: nat, total: nat)
    requires vol.Valid() && total > 0
  {
    Walk(fat, c, Index(offset + total - 1, vol.ClusterSize())) >= 0 ==>
      var r := ReadChunks(fat, vol, disk, c, offset, total);
      r.Ok? && forall j: nat :: j < total ==> r.bytes[j] == FileByte(fat, vol, disk, c, offset + j)
  }

  lemma FittingReadIsCorrect(fat: Fat, vol: Volume, disk: Disk, c: nat, offset: nat, total: nat)
    requires vol.Valid() && total > 0 && Fitting(vol.ClusterSize(), offset, total)
    ensures ReadCorrect(fat, vol, disk, c, offset, total)
  {
    hide ReadChunks, ChainBytes, Walk, Fitting, LastPiece, Index, Rest, Volume.ClusterSize, ReadAddr, FileAddr;
    var s, r := vol.ClusterSize(), ReadChunks(fat, vol, disk, c, offset, total);
    ReadSucceeds(fat, vol, disk, c, offset, total);
    LastPieceIsLastByte(s, offset, total);
    if r.Ok? {
      forall j: nat | j < total ensures r.bytes[j] == FileByte(fat, vol, disk, c, offset + j) {
        ReadByteAt(fat, vol, disk, c, offset, total, j);
        SameAddress(fat, vol, c, offset, total, j);
      }
    }
  }

  lemma SameAddress(fat: Fat, vol: Volume, c: nat, offset: nat, total: nat, j: nat)
    requires vol.Valid() && Fitting(vol.ClusterSize(), offset, total) && j < total
    ensures ReadAddr(fat, vol, c, offset, j) == FileAddr(fat, vol, c, offset + j)
  {
    hide Walk, Fitting, Index, Rest, Volume.ClusterSize;
    FittingAddr(vol.ClusterSize(), offset, total, j);
  }

  /** A FAT in which one cluster names itself: its chain never ends and never moves on. */
  ghost function LoopFat(c: nat): Fat {
    (x: nat) => c
  }

  lemma {:induction false} LoopWalk(c: nat, n: nat)
    requires !Stop(c)
    ensures Walk(LoopFat(c), c, n) == c
  {
    if n > 0 { LoopWalk(c, n - 1); }
  }

  /** Some byte of an unfitting read lies past the end of the cluster that the read takes it from. */
  lemma UnfittingCrosses(s: nat, offset: nat, total: nat) returns (j: nat)
    requires s >= 1 && total > 0 && !Fitting(s, offset, total)
    ensures j < total && Index(j, s) == 0 && Rest(j, s) == j && Rest(offset, s) + j >= s
    ensures Index(offset + j, s) == Index(offset, s) + 1 && Rest(offset + j, s) == Rest(offset, s) + j - s
  {
    j := if total >= s then s - 1 else total - 1;
    SmallDivision(j, s);
    var q, o := Index(offset, s), Rest(offset, s);
    assert offset == q * s + o;
    Distribute(q + 1, q, s);
    DivisionIsUnique(offset + j, s, q + 1, o + j - s);
  }

  /**
    The exact domain of the reader: on every volume, a read is correct for every FAT, first cluster
    and disk image if and only if its offset is cluster-aligned or it stays inside one cluster.
   */
  lemma CorrectExactlyWhenFitting(vol: Volume, offset: nat, total: nat)
    requires vol.Valid() && total > 0
    ensures (forall fat: Fat, disk: Disk, c: nat :: ReadCorrect(fat, vol, disk, c, offset, total))
      <==> Fitting(vol.ClusterSize(), offset, total)
  {
    hide Fitting, ReadCorrect, Volume.ClusterSize;
    if Fitting(vol.ClusterSize(), offset, total) {
      forall fat: Fat, disk: Disk, c: nat ensures ReadCorrect(fat, vol, disk, c, offset, total) {
        FittingReadIsCorrect(fat, vol, disk, c, offset, total);
      }
    } else {
      var disk := UnfittingMisreads(vol, offset, total);
      assert !ReadCorrect(LoopFat(2), vol, disk, 2, offset, total);
    }
  }

  lemma UnfittingMisreads(vol: Volume, offset: nat, total: nat) returns (disk: Disk)
    requires vol.Valid() && total > 0 && !Fitting(vol.ClusterSize(), offset, total)
    ensures !ReadCorrect(LoopFat(2), vol, disk, 2, offset, total)
  {
    hide Fitting, ReadChunks, Index, Rest, Volume.ClusterSize, Volume.Base, Walk;
    var s, fat := vol.ClusterSize(), LoopFat(2);
    var j := UnfittingCrosses(s, offset, total);
    var a := vol.Base(2) + Rest(offset, s) + j;
    disk := (x: nat) => if x == a then 1 else 0;
    var q := Index(offset, s);
    LoopWalk(2, q + LastPiece(s, total));
    LoopWalk(2, Index(offset + total - 1, s));
    LoopWalk(2, q);
    LoopWalk(2, q + 1);
    ReadSucceeds(fat, vol, disk, 2, offset, total);
    ReadByteAt(fat, vol, disk, 2, offset, total, j);
    assert q + Index(j, s) == q;
    assert ReadAddr(fat, vol, 2, offset, j) == a;
    assert FileAddr(fat, vol, 2, offset + j) == a - s;
    assert ReadChunks(fat, vol, disk, 2, offset, total).bytes[j] != FileByte(fat, vol, disk, 2, offset + j);
  }

  // ---------------------------------------------------------------- fat16_read

  /** `nmemb` records of `size` bytes, one internal read each. */
  ghost function ReadRecords(fat: Fat, vol: Volume, disk: Disk, c: nat, pos: nat, size: nat, nmemb: nat): (r: Result)
    requires vol.Valid()
    ensures r.Ok? ==> |r.bytes| == size * nmemb
    ensures r.Err? ==> r.code == -EIO
    decreases nmemb
  {
    if nmemb == 0 then Ok([])
    else
      match ReadChunks(fat, vol, disk, c, pos, size)
      case Err(e) => Err(e)
      case Ok(first) =>
        match ReadRecords(fat, vol, disk, c, pos + size, size, nmemb - 1)
        case Err(e) => Err(e)
        case Ok(rest) =>
          Distribute(nmemb, 1, size);
          Ok(first + rest)
  }

  /** No record passes the end of a cluster, unless it starts on one. */
  ghost predicate RecordsFit(s: nat, pos: nat, size: nat, nmemb: nat)
    requires s >= 1
    decreases nmemb
  {
    nmemb == 0 || (Fitting(s, pos, size) && RecordsFit(s, pos + size, size, nmemb - 1))
  }

  lemma {:induction false} AlignedRecordsFit(s: nat, pos: nat, size: nat, nmemb: nat)
    requires s >= 1 && Rest(pos, s) == 0 && Rest(size, s) == 0
    ensures RecordsFit(s, pos, size, nmemb)
    decreases nmemb
  {
    if nmemb > 0 {
      var q, p := Index(pos, s), Index(size, s);
      assert pos == q * s && size == p * s;
      Distribute(q, -p, s);
      DivisionIsUnique(pos + size, s, q + p, 0);
      AlignedRecordsFit(s, pos + size, size, nmemb - 1);
    }
  }

  /**
    fat16_read of fitting records returns exactly the bytes [pos, pos + size * nmemb) of the file,
    and fails exactly when the chain ends before the cluster of the last of them.
   */
  lemma {:induction false} ReadRecordsIsSlice(fat: Fat, vol: Volume, disk: Disk, c: nat, pos: nat, size: nat, nmemb: nat, n: nat)
    requires vol.Valid() && size > 0 && nmemb > 0 && RecordsFit(vol.ClusterSize(), pos, size, nmemb)
    requires size * nmemb > 0 && Index(pos + size * nmemb - 1, vol.ClusterSize()) < n
    ensures var r := ReadRecords(fat, vol, disk, c, pos, size, nmemb);
      && (r.Ok? <==> Walk(fat, c, Index(pos + size * nmemb - 1, vol.ClusterSize())) >= 0)
      && (r.Ok? ==>
        && pos + size * nmemb <= |ChainBytes(fat, vol, disk, c, n)|
        && r.bytes == ChainBytes(fat, vol, disk, c, n)[pos..pos + size * nmemb])
    decreases nmemb
  {
    hide ReadChunks, ChainBytes, Walk, Fitting, Index, Rest, Volume.ClusterSize;
    var s := vol.ClusterSize();
    Distribute(nmemb, 1, size);
    var rest := size * (nmemb - 1);
    assert size * nmemb == size + rest;
    DivideMonotone(pos + size - 1, pos + size * nmemb - 1, s);
    ReadIsSlice(fat, vol, disk, c, pos, size, n);
    var first := Index(pos + size - 1, s);
    if Walk(fat, c, first) < 0 { WalkEnds(fat, c, first, Index(pos + size * nmemb - 1, s)); }
    if nmemb == 1 {
      assert rest == 0;
    } else {
      Positive(size, nmemb - 1);
      ReadRecordsIsSlice(fat, vol, disk, c, pos + size, size, nmemb - 1, n);
    }
  }
}
