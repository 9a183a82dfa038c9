/**
  The exact domain of the FAT reader, chain by chain: where a piece of a read passes the end of its
  cluster, the read is right only if the next cluster of the chain is also the next one on disk.
 */
module FatExact {
  import opened Memory
  import opened DiskStreams
  import opened Fat16

  // ---------------------------------------------------------------- one read

  /** Bytes of piece `q`. */
  function PieceLength(s: nat, total: nat, q: nat): (n: int)
    requires s >= 1
  {
    if total - q * s >= s then s else total - q * s
  }

  /** Piece `q` of the read passes the end of its cluster. */
  predicate Crosses(s: nat, offset: nat, total: nat, q: nat)
    requires s >= 1
  {
    q * s < total && Rest(offset, s) + PieceLength(s, total, q) > s
  }

  /** Each hop that a piece crosses leads to the cluster with the next number. */
  ghost predicate HopsToNext(fat: Fat, vol: Volume, c: nat, offset: nat, total: nat)
    requires vol.Valid()
  {
    var s := vol.ClusterSize();
    forall q: nat :: Crosses(s, offset, total, q) ==> NextNumber(fat, c, Index(offset, s) + q)
  }

  ghost predicate NextNumber(fat: Fat, c: nat, k: nat) {
    Walk(fat, c, k + 1) == Walk(fat, c, k) + 1
  }

  ghost predicate Reaches(fat: Fat, vol: Volume, c: nat, x: nat)
    requires vol.Valid()
  {
    Walk(fat, c, Index(x, vol.ClusterSize())) >= 0
  }

  /** A fitting read is one without a crossing. */
  lemma FittingIsNoCrossing(s: nat, offset: nat, total: nat)
    requires s >= 1 && total > 0
    ensures Fitting(s, offset, total) <==> forall q: nat :: !Crosses(s, offset, total, q)
  {
    if !Fitting(s, offset, total) {
      assert 0 * s == 0;
      assert Crosses(s, offset, total, 0);
    } else if Rest(offset, s) != 0 {
      forall q: nat ensures !Crosses(s, offset, total, q) { assert q * s >= 0; }
    }
  }

  /** Where byte j of a read lies in the file: in its piece's cluster or in the next one. */
  lemma ByteOfPiece(s: nat, offset: nat, j: nat)
    requires s >= 1
    ensures var o, r := Rest(offset, s), Rest(j, s);
      if o + r < s
      then Index(offset + j, s) == Index(offset, s) + Index(j, s) && Rest(offset + j, s) == o + r
      else Index(offset + j, s) == Index(offset, s) + Index(j, s) + 1 && Rest(offset + j, s) == o + r - s
  {
    var q, o, r := Index(offset, s), Rest(offset, s), Rest(j, s);
    var p: int := Index(j, s);
    Divided(offset, s);
    Divided(j, s);
    hide Index, Rest;
    Distribute(q, -p, s);
    Distribute(q + p + 1, 1, s);
    if o + r < s { DivisionIsUnique(offset + j, s, q + p, o + r); } else { DivisionIsUnique(offset + j, s, q + p + 1, o + r - s); }
  }

  lemma Divided(x: nat, s: nat)
    requires s >= 1
    ensures x == Index(x, s) * s + Rest(x, s) && Rest(x, s) < s
  {
  }

  /** The read takes byte j from its place in the file exactly when it is not past the end, or the hop is to the next number. */
  lemma RightAddress(fat: Fat, vol: Volume, c: nat, offset: nat, j: nat)
    requires vol.Valid() && Reaches(fat, vol, c, offset + j)
    ensures var s := vol.ClusterSize();
      ReadAddr(fat, vol, c, offset, j) == FileAddr(fat, vol, c, offset + j) <==>
        Rest(offset, s) + Rest(j, s) < s || NextNumber(fat, c, Index(offset, s) + Index(j, s))
    ensures ReadAddr(fat, vol, c, offset, j) >= 0 && FileAddr(fat, vol, c, offset + j) >= 0
  {
    hide Volume.Base, Volume.ClusterSize, Index, Rest, Walk;
    var s := vol.ClusterSize();
    ByteOfPiece(s, offset, j);
    var k := Index(offset, s) + Index(j, s);
    if Walk(fat, c, k) < 0 { WalkEnds(fat, c, k, Index(offset + j, s)); }
    if Rest(offset, s) + Rest(j, s) >= s {
      NextBase(vol, Walk(fat, c, k), Walk(fat, c, k + 1));
    }
  }

  lemma CrossingByte(s: nat, offset: nat, total: nat, q: nat) returns (j: nat)
    requires s >= 1 && Crosses(s, offset, total, q)
    ensures j < total && Index(j, s) == q && Rest(offset, s) + Rest(j, s) >= s
  {
    var n := PieceLength(s, total, q);
    j := q * s + (n - 1);
    DivisionIsUnique(j, s, q, n - 1);
  }

  lemma ByteCrosses(s: nat, offset: nat, total: nat, j: nat)
    requires s >= 1 && j < total && Rest(offset, s) + Rest(j, s) >= s
    ensures Crosses(s, offset, total, Index(j, s))
  {
    assert j == Index(j, s) * s + Rest(j, s);
  }

  lemma ReachesBefore(fat: Fat, vol: Volume, c: nat, x: nat, y: nat)
    requires vol.Valid() && x <= y && Reaches(fat, vol, c, y)
    ensures Reaches(fat, vol, c, x)
  {
    hide Walk, Index, Volume.ClusterSize;
    var s := vol.ClusterSize();
    DivideMonotone(x, y, s);
    if Walk(fat, c, Index(x, s)) < 0 { WalkEnds(fat, c, Index(x, s), Index(y, s)); }
  }

  /** A chain that reaches the last byte lets the read succeed. */
  lemma ReachedReadSucceeds(fat: Fat, vol: Volume, disk: Disk, c: nat, offset: nat, total: nat)
    requires vol.Valid() && total > 0 && Reaches(fat, vol, c, offset + total - 1)
    ensures ReadChunks(fat, vol, disk, c, offset, total).Ok?
  {
    hide Walk, Index, Rest, Volume.ClusterSize, ReadChunks;
    var s := vol.ClusterSize();
    ReadSucceeds(fat, vol, disk, c, offset, total);
    ByteOfPiece(s, offset, total - 1);
    var k := Index(offset, s) + LastPiece(s, total);
    if Walk(fat, c, k) < 0 { WalkEnds(fat, c, k, Index(offset + total - 1, s)); }
  }

  /**
    For one FAT and first cluster whose chain reaches the last byte: the read is right on every
    disk if and only if each hop that it crosses leads to the next cluster number.
   */
  lemma RightOnEveryDisk(fat: Fat, vol: Volume, c: nat, offset: nat, total: nat)
    requires vol.Valid() && total > 0 && Reaches(fat, vol, c, offset + total - 1)
    ensures (forall disk: Disk :: ReadCorrect(fat, vol, disk, c, offset, total)) <==> HopsToNext(fat, vol, c, offset, total)
  {
    hide ReadCorrect, Walk, Index, Rest, Volume.ClusterSize, Crosses;
    if HopsToNext(fat, vol, c, offset, total) {
      forall disk: Disk ensures ReadCorrect(fat, vol, disk, c, offset, total) {
        HopsGiveFile(fat, vol, disk, c, offset, total);
      }
    } else {
      var q: nat :| Crosses(vol.ClusterSize(), offset, total, q) && !NextNumber(fat, c, Index(offset, vol.ClusterSize()) + q);
      var disk := JumpMisreads(fat, vol, c, offset, total, q);
      assert !ReadCorrect(fat, vol, disk, c, offset, total);
    }
  }

  lemma HopsGiveFile(fat: Fat, vol: Volume, disk: Disk, c: nat, offset: nat, total: nat)
    requires vol.Valid() && total > 0 && Reaches(fat, vol, c, offset + total - 1) && HopsToNext(fat, vol, c, offset, total)
    ensures ReadCorrect(fat, vol, disk, c, offset, total)
  {
    hide ReadChunks, Walk, Index, Rest, Volume.ClusterSize, ReadAddr, FileAddr, Crosses, NextNumber;
    var s, r := vol.ClusterSize(), ReadChunks(fat, vol, disk, c, offset, total);
    ReachedReadSucceeds(fat, vol, disk, c, offset, total);
    forall j: nat | j < total ensures r.bytes[j] == FileByte(fat, vol, disk, c, offset + j) {
      ReachesBefore(fat, vol, c, offset + j, offset + total - 1);
      RightAddress(fat, vol, c, offset, j);
      if Rest(offset, s) + Rest(j, s) >= s { ByteCrosses(s, offset, total, j); }
      ReadByteAt(fat, vol, disk, c, offset, total, j);
    }
  }

  lemma JumpMisreads(fat: Fat, vol: Volume, c: nat, offset: nat, total: nat, q: nat) returns (disk: Disk)
    requires vol.Valid() && total > 0 && Reaches(fat, vol, c, offset + total - 1)
    requires Crosses(vol.ClusterSize(), offset, total, q) && !NextNumber(fat, c, Index(offset, vol.ClusterSize()) + q)
    ensures !ReadCorrect(fat, vol, disk, c, offset, total)
  {
    hide ReadChunks, Walk, Index, Rest, Volume.ClusterSize, ReadAddr, FileAddr, Crosses, NextNumber;
    var j := CrossingByte(vol.ClusterSize(), offset, total, q);
    ReachesBefore(fat, vol, c, offset + j, offset + total - 1);
    RightAddress(fat, vol, c, offset, j);
    var a := ReadAddr(fat, vol, c, offset, j);
    disk := (x: nat) => if x == a then 1 else 0;
    ReachedReadSucceeds(fat, vol, disk, c, offset, total);
    ReadByteAt(fat, vol, disk, c, offset, total, j);
    assert ReadChunks(fat, vol, disk, c, offset, total).bytes[j] != FileByte(fat, vol, disk, c, offset + j);
  }

  // ---------------------------------------------------------------- fat16_read

  /** If the chain reaches the last requested byte, all records are the requested bytes of the file. */
  ghost predicate RecordsCorrect(fat: Fat, vol: Volume, disk: Disk, c: nat, pos: nat, size: nat, nmemb: nat)
    requires vol.Valid() && size * nmemb > 0
  {
    Reaches(fat, vol, c, pos + size * nmemb - 1) ==>
      var r := ReadRecords(fat, vol, disk, c, pos, size, nmemb);
      r.Ok? && forall j: nat :: j < size * nmemb ==> r.bytes[j] == FileByte(fat, vol, disk, c, pos + j)
  }

  /** Each hop that a record crosses leads to the cluster with the next number. */
  ghost predicate RecordsHopToNext(fat: Fat, vol: Volume, c: nat, pos: nat, size: nat, nmemb: nat)
    requires vol.Valid()
    decreases nmemb
  {
    nmemb == 0 || (HopsToNext(fat, vol, c, pos, size) && RecordsHopToNext(fat, vol, c, pos + size, size, nmemb - 1))
  }

  lemma RecordBytes(size: nat, nmemb: nat)
    requires size > 0 && nmemb > 0
    ensures size * nmemb == size + size * (nmemb - 1) && size * (nmemb - 1) >= 0
    ensures nmemb > 1 ==> size * (nmemb - 1) > 0
    ensures nmemb == 1 ==> size * (nmemb - 1) == 0
  {
    Distribute(nmemb, 1, size);
    if nmemb > 1 { Positive(size, nmemb - 1); }
  }

  /** On one disk and a long enough chain: all records are right exactly when the first one and the others are. */
  lemma FirstRecord(fat: Fat, vol: Volume, disk: Disk, c: nat, pos: nat, size: nat, nmemb: nat)
    requires vol.Valid() && size > 0 && nmemb > 0 && size * nmemb > 0 && Reaches(fat, vol, c, pos + size * nmemb - 1)
    requires nmemb > 1 ==> size * (nmemb - 1) > 0
    ensures RecordsCorrect(fat, vol, disk, c, pos, size, nmemb) <==>
      ReadCorrect(fat, vol, disk, c, pos, size) && (nmemb > 1 ==> RecordsCorrect(fat, vol, disk, c, pos + size, size, nmemb - 1))
  {
    hide ReadChunks, Walk, Index, Rest, Volume.ClusterSize, FileByte;
    RecordBytes(size, nmemb);
    ReachesBefore(fat, vol, c, pos + size - 1, pos + size * nmemb - 1);
    assert Walk(fat, c, Index(pos + size - 1, vol.ClusterSize())) >= 0;
    ReachedReadSucceeds(fat, vol, disk, c, pos, size);
    var first, rest := ReadChunks(fat, vol, disk, c, pos, size).bytes, ReadRecords(fat, vol, disk, c, pos + size, size, nmemb - 1);
    var r := ReadRecords(fat, vol, disk, c, pos, size, nmemb);
    assert rest.Ok? ==> r == Ok(first + rest.bytes);
    if ReadCorrect(fat, vol, disk, c, pos, size) && (nmemb > 1 ==> RecordsCorrect(fat, vol, disk, c, pos + size, size, nmemb - 1)) {
      forall j: nat | j < size * nmemb ensures r.bytes[j] == FileByte(fat, vol, disk, c, pos + j) {
        if j >= size { assert rest.bytes[j - size] == FileByte(fat, vol, disk, c, pos + size + (j - size)); }
      }
    }
    if RecordsCorrect(fat, vol, disk, c, pos, size, nmemb) {
      forall j: nat | j < size ensures first[j] == FileByte(fat, vol, disk, c, pos + j) { assert r.bytes[j] == first[j]; }
      forall j: nat | j < size * (nmemb - 1) ensures rest.bytes[j] == FileByte(fat, vol, disk, c, pos + size + j) {
        assert r.bytes[size + j] == rest.bytes[j];
      }
    }
  }

  /** The same for a whole fat16_read: on a chain that reaches its end, right on every disk if and only if the crossed hops lead to the next number. */
  lemma {:induction false} RecordsRightOnEveryDisk(fat: Fat, vol: Volume, c: nat, pos: nat, size: nat, nmemb: nat)
    requires vol.Valid() && size > 0 && nmemb > 0 && size * nmemb > 0 && Reaches(fat, vol, c, pos + size * nmemb - 1)
    ensures (forall disk: Disk :: RecordsCorrect(fat, vol, disk, c, pos, size, nmemb)) <==>
      RecordsHopToNext(fat, vol, c, pos, size, nmemb)
    decreases nmemb
  {
    hide RecordsCorrect, ReadCorrect, HopsToNext, Reaches;
    RecordBytes(size, nmemb);
    ReachesBefore(fat, vol, c, pos + size - 1, pos + size * nmemb - 1);
    RightOnEveryDisk(fat, vol, c, pos, size);
    forall disk: Disk ensures RecordsCorrect(fat, vol, disk, c, pos, size, nmemb) <==>
      ReadCorrect(fat, vol, disk, c, pos, size) && (nmemb > 1 ==> RecordsCorrect(fat, vol, disk, c, pos + size, size, nmemb - 1))
    {
      FirstRecord(fat, vol, disk, c, pos, size, nmemb);
    }
    if nmemb > 1 { RecordsRightOnEveryDisk(fat, vol, c, pos + size, size, nmemb - 1); }
    if forall disk: Disk :: RecordsCorrect(fat, vol, disk, c, pos, size, nmemb) {
      forall disk: Disk ensures ReadCorrect(fat, vol, disk, c, pos, size) {
        assert RecordsCorrect(fat, vol, disk, c, pos, size, nmemb);
      }
      if nmemb > 1 {
        var next, left := pos + size, nmemb - 1;
        forall disk: Disk ensures RecordsCorrect(fat, vol, disk, c, next, size, left) {
          assert RecordsCorrect(fat, vol, disk, c, pos, size, nmemb);
        }
      }
    }
  }

  /** On a chain that stays on one cluster a hop never leads to the next number. */
  lemma LoopHops(vol: Volume, offset: nat, total: nat)
    requires vol.Valid() && total > 0
    ensures HopsToNext(LoopFat(2), vol, 2, offset, total) <==> Fitting(vol.ClusterSize(), offset, total)
  {
    hide Walk, Crosses, Fitting, Index, Volume.ClusterSize;
    var s := vol.ClusterSize();
    FittingIsNoCrossing(s, offset, total);
    forall q: nat | Crosses(s, offset, total, q) ensures !NextNumber(LoopFat(2), 2, Index(offset, s) + q) {
      LoopWalk(2, Index(offset, s) + q);
      LoopWalk(2, Index(offset, s) + q + 1);
    }
  }

  lemma {:induction false} LoopRecords(vol: Volume, pos: nat, size: nat, nmemb: nat)
    requires vol.Valid() && size > 0
    ensures RecordsHopToNext(LoopFat(2), vol, 2, pos, size, nmemb) <==> RecordsFit(vol.ClusterSize(), pos, size, nmemb)
    decreases nmemb
  {
    hide HopsToNext, Fitting;
    if nmemb > 0 {
      LoopHops(vol, pos, size);
      LoopRecords(vol, pos + size, size, nmemb - 1);
    }
  }

  lemma {:induction false} FitHops(fat: Fat, vol: Volume, c: nat, pos: nat, size: nat, nmemb: nat)
    requires vol.Valid() && size > 0 && RecordsFit(vol.ClusterSize(), pos, size, nmemb)
    ensures RecordsHopToNext(fat, vol, c, pos, size, nmemb)
    decreases nmemb
  {
    hide Fitting, Crosses;
    if nmemb > 0 {
      FittingIsNoCrossing(vol.ClusterSize(), pos, size);
      FitHops(fat, vol, c, pos + size, size, nmemb - 1);
    }
  }

  /**
    fat16_read is right for every FAT, first cluster and disk if and only if each record starts on a
    cluster border or stays inside one cluster.
   */
  lemma RecordsCorrectExactlyWhenFitting(vol: Volume, pos: nat, size: nat, nmemb: nat)
    requires vol.Valid() && size > 0 && nmemb > 0 && size * nmemb > 0
    ensures (forall fat: Fat, disk: Disk, c: nat :: RecordsCorrect(fat, vol, disk, c, pos, size, nmemb))
      <==> RecordsFit(vol.ClusterSize(), pos, size, nmemb)
  {
    hide RecordsFit, RecordsHopToNext, Volume.ClusterSize, ReadRecords, Walk, FileByte, Index;
    var s, last := vol.ClusterSize(), pos + size * nmemb - 1;
    if RecordsFit(s, pos, size, nmemb) {
      forall fat: Fat, disk: Disk, c: nat ensures RecordsCorrect(fat, vol, disk, c, pos, size, nmemb) {
        if Reaches(fat, vol, c, last) {
          FitHops(fat, vol, c, pos, size, nmemb);
          RecordsRightOnEveryDisk(fat, vol, c, pos, size, nmemb);
        }
      }
    } else {
      LoopRecords(vol, pos, size, nmemb);
      LoopWalk(2, Index(last, s));
      RecordsRightOnEveryDisk(LoopFat(2), vol, 2, pos, size, nmemb);
      var disk: Disk :| !RecordsCorrect(LoopFat(2), vol, disk, 2, pos, size, nmemb);
    }
  }
}
