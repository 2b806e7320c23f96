/**
 * What the engine's reads of a mounted volume produce: the root listing, the listing of a
 * subdirectory by following its cluster chain, and the cluster buffers of a file.
 *
 * The source's walks loop without bound when a read of a cluster below 0xFF7 comes back short
 * (the cluster variable does not advance, so the same read is repeated) and index the FAT
 * without checking the index. Both are outcomes here, `NoResult(fault)`, not preconditions:
 * the model says exactly which inputs reach them.
 */
module Walk {
  import opened Bytes
  import opened BlockReader
  import opened Boot
  import opened FatTable
  import opened Directory

  /** The codes the engine reports through its error callback. */
  datatype ErrorCode =
    | ErrorOpeningFile
    | BootSectorReadError
    | DynamicAllocationError
    | ErrorUpdatingSectorSize
    | MultipleSectorReadError
    | ClusterSizeError
    | ErrorReadingRootDirectory
    | ErrorReadingSubDirectory

  /** Ways in which a walk of the source never returns a value. */
  datatype Fault =
    | ShortReadRepeats(cluster: u16)   // a short read of this cluster is repeated forever
    | ChainNeverEnds                   // the chain revisits a cluster, so the loop never exits
    | FatIndexOutOfRange(cluster: u16) // the FAT entry of this cluster lies outside the table
    | NullBufferRead(cluster: u16)     // this cluster is read into a null buffer

  /** The result of an operation: a value and the codes reported on the way, or a fault. */
  datatype Run<T> = Returned(value: T, reported: seq<ErrorCode>) | NoResult(fault: Fault)

  /** `run` with `prefix` placed before the value it returns. */
  function Prepend<T>(prefix: seq<T>, run: Run<seq<T>>): (r: Run<seq<T>>)
    ensures r.Returned? <==> run.Returned?
    ensures r.Returned? ==> r.value == prefix + run.value && r.reported == run.reported
    ensures r.NoResult? ==> r == run
  {
    match run
    case Returned(v, rep) => Returned(prefix + v, rep)
    case NoResult(_) => run
  }

  /** Prepending two prefixes one after the other is prepending their concatenation. */
  lemma PrependPrepend<T>(a: seq<T>, b: seq<T>, run: Run<seq<T>>)
    ensures Prepend(a, Prepend(b, run)) == Prepend(a + b, run)
  {
    if run.Returned? {
      assert a + (b + run.value) == (a + b) + run.value;
    }
  }

  /** Prepending nothing changes nothing. */
  lemma PrependNothing<T>(run: Run<seq<T>>)
    ensures Prepend([], run) == run
  {
    if run.Returned? {
      assert [] + run.value == run.value;
    }
  }

  /**
   * The state the walks read: the image, the sector size the reader currently uses, the
   * parsed boot sector, the FAT as loaded at mount time and the derived geometry.
   */
  datatype Disk = Disk(
    image: seq<byte>,
    sectorSize: u16,
    boot: BootSector,
    fat: seq<byte>,
    geometry: Geometry)

  /**
   * The reader's state after a successful mount (one that returned a non-zero cluster size):
   * an accepted sector size, taken over from the boot sector, and a non-zero cluster.
   */
  predicate Usable(d: Disk)
  {
    && SectorSizeAccepted(d.boot.bytesPerSector)
    && d.sectorSize == d.boot.bytesPerSector
    && d.boot.sectorsPerCluster > 0
  }

  /** A usable disk whose geometry is the one derived from its boot sector. */
  predicate Mounted(d: Disk)
  {
    Usable(d) && d.geometry == DeriveGeometry(d.boot)
  }

  /** The number of bytes in a cluster. */
  function ClusterBytes(d: Disk): (n: nat)
  {
    d.boot.sectorsPerCluster * d.boot.bytesPerSector
  }

  /**
   * The byte offset of data cluster c: the data area starts at cluster 2, and the sum of the
   * data start and c - 2 is taken as a sector number.
   */
  function ClusterOffset(d: Disk, c: u16): (o: u32)
  {
    ToOffset((d.geometry.dataStart - 2 + c) * d.boot.bytesPerSector)
  }

  /** Clusters 2 and up lie at or after the data area, unless the offset leaves the reader's 32-bit range. */
  lemma ClusterOffsetInDataArea(d: Disk, c: u16)
    requires 2 <= c && (d.geometry.dataStart - 2 + c) * d.boot.bytesPerSector < 0x1_0000_0000
    ensures d.geometry.dataStart * d.boot.bytesPerSector <= ClusterOffset(d, c)
  {
    ProductGrows(d.geometry.dataStart, c - 2, d.boot.bytesPerSector);
  }

  /** A larger first factor gives a product at least as large. */
  lemma ProductGrows(a: nat, k: nat, b: nat)
    ensures a * b <= (a + k) * b
  {
    assert (a + k) * b == a * b + k * b;
  }

  /**
   * Consecutive clusters lie one sector apart, whatever the number of sectors per cluster, as
   * long as the offsets stay within the reader's 32-bit range. With one sector per cluster the
   * clusters are disjoint; with more they overlap.
   */
  lemma ClusterOffsetStep(d: Disk, c: u16)
    requires 2 <= c < 0xFFFF
    requires (d.geometry.dataStart - 1 + c) * d.boot.bytesPerSector < 0x1_0000_0000
    ensures ClusterOffset(d, c + 1) == ClusterOffset(d, c) + d.boot.bytesPerSector
  {
    var sector: nat := d.geometry.dataStart - 2 + c;
    var bps: nat := d.boot.bytesPerSector;
    var here, there := sector * bps, (sector + 1) * bps;
    assert there == here + bps;
    assert ClusterOffset(d, c) == here;
    assert ClusterOffset(d, c + 1) == there by {
      assert d.geometry.dataStart - 2 + (c + 1) == sector + 1;
    }
  }

  /** The bytes a read of one cluster returns: sectors-per-cluster sectors at its offset. */
  function ReadCluster(d: Disk, c: u16): (data: seq<byte>)
    requires Usable(d)
    ensures |data| <= ClusterBytes(d)
  {
    ReadAt(d.image, ClusterOffset(d, c), ClusterBytes(d))
  }

  /** Whether the read of cluster c returns the whole cluster. */
  predicate Full(d: Disk, c: u16)
    requires Usable(d)
  {
    |ReadCluster(d, c)| == ClusterBytes(d)
  }

  /**
   * The root directory: one read of the root's sectors at its start; a short read reports an
   * error and lists nothing. The buffer is allocated first, and its allocation can fail.
   */
  function RootListing(d: Disk, allocOk: bool): (r: Run<seq<DirEntry>>)
    requires Usable(d)
    ensures r.Returned?
  {
    if !allocOk then Returned([], [DynamicAllocationError])
    else
      var bps := d.boot.bytesPerSector;
      var data := ReadAt(d.image, ToOffset(d.geometry.rootDirStart * bps), d.sectorSize * d.geometry.rootDirSectors);
      if |data| == bps * d.geometry.rootDirSectors then
        AcceptedSectorSizeHoldsWholeSlots(bps, d.geometry.rootDirSectors);
        Returned(Scan(data, NoFilter), [])
      else Returned([], [ErrorReadingRootDirectory])
  }

  /**
   * The walk of a subdirectory from cluster c, reusing one buffer for every cluster. Each full
   * read is scanned, skipping entries whose first cluster is the cluster being scanned; the
   * walk then moves to the cluster's FAT entry and stops once that is 0xFF7 or more. `fuel`
   * counts the clusters the walk may still visit.
   */
  function DirWalk(d: Disk, c: u16, fuel: nat): (r: Run<seq<DirEntry>>)
    requires Usable(d)
    ensures r.Returned? && r.reported != [] ==> r == Returned([], [ErrorReadingSubDirectory]) && EndsChain(c)
    ensures r.NoResult? ==> !r.fault.NullBufferRead?
    decreases fuel
  {
    if fuel == 0 then NoResult(ChainNeverEnds)
    else
      var data := ReadCluster(d, c);
      if |data| != ClusterBytes(d) then
        if EndsChain(c) then Returned([], [ErrorReadingSubDirectory]) else NoResult(ShortReadRepeats(c))
      else if !InTable(d.fat, c) then NoResult(FatIndexOutOfRange(c))
      else
        var entries := Scan(data, SkipCluster(c));
        var next := NextCluster(d.fat, c);
        if EndsChain(next) then Returned(entries, [])
        else Prepend(entries, DirWalk(d, next, fuel - 1))
  }

  /**
   * The subdirectory walk as written: after the first full cluster the buffer pointer is set
   * to null, so if the chain goes on, the next cluster is read into a null buffer.
   */
  function DirWalkAsWritten(d: Disk, c: u16): (r: Run<seq<DirEntry>>)
    requires Usable(d)
    ensures !(r.NoResult? && r.fault.NullBufferRead?) ==> r == DirWalk(d, c, MaxChainLength)
    ensures r.NoResult? && r.fault.NullBufferRead? ==>
              InTable(d.fat, c) && r.fault.cluster == NextCluster(d.fat, c) && !EndsChain(r.fault.cluster)
  {
    var data := ReadCluster(d, c);
    if |data| != ClusterBytes(d) then
      if EndsChain(c) then Returned([], [ErrorReadingSubDirectory]) else NoResult(ShortReadRepeats(c))
    else if !InTable(d.fat, c) then NoResult(FatIndexOutOfRange(c))
    else
      var entries := Scan(data, SkipCluster(c));
      var next := NextCluster(d.fat, c);
      if EndsChain(next) then Returned(entries, [])
      else NoResult(NullBufferRead(next))
  }

  /**
   * What a directory read returns: cluster 0 is the root; any other cluster starts a
   * subdirectory walk, after the allocation of its buffer.
   */
  function DirListing(d: Disk, c: u16, allocOk: bool): (r: Run<seq<DirEntry>>)
    requires Usable(d)
    ensures c == 0 ==> r.Returned?
    ensures r.Returned? ==> |r.reported| <= 1
    ensures r.Returned? && r.reported != [] ==> r.value == []
    ensures r.NoResult? ==> !r.fault.NullBufferRead?
  {
    if c == 0 then RootListing(d, allocOk)
    else if !allocOk then Returned([], [DynamicAllocationError])
    else DirWalk(d, c, MaxChainLength)
  }

  /**
   * The walk of a file from cluster c: every full read adds the cluster's bytes, then the walk
   * moves to the FAT entry and stops once that is 0xFF7 or more. Nothing is reported.
   */
  function FileWalk(d: Disk, c: u16, fuel: nat): (r: Run<seq<seq<byte>>>)
    requires Usable(d)
    ensures r.Returned? ==> r.reported == [] && |r.value| <= fuel
    ensures r.Returned? ==> forall i :: 0 <= i < |r.value| ==> |r.value[i]| == ClusterBytes(d)
    ensures r.NoResult? ==> !r.fault.NullBufferRead?
    decreases fuel
  {
    if fuel == 0 then NoResult(ChainNeverEnds)
    else
      var data := ReadCluster(d, c);
      if |data| != ClusterBytes(d) then
        if EndsChain(c) then Returned([], []) else NoResult(ShortReadRepeats(c))
      else if !InTable(d.fat, c) then NoResult(FatIndexOutOfRange(c))
      else
        var next := NextCluster(d.fat, c);
        if EndsChain(next) then Returned([data], [])
        else Prepend([data], FileWalk(d, next, fuel - 1))
  }

  /**
   * What a file read returns: whole clusters only, at most 0xFF8 of them, with nothing
   * reported; no buffer at all exactly when the start cluster ends a chain and reads short.
   */
  function FileContents(d: Disk, c: u16): (r: Run<seq<seq<byte>>>)
    requires Usable(d)
    ensures r.Returned? ==> r.reported == [] && |r.value| <= MaxChainLength
    ensures r.Returned? ==> forall i :: 0 <= i < |r.value| ==> |r.value[i]| == ClusterBytes(d)
    ensures r.Returned? ==> (r.value == [] <==> EndsChain(c) && !Full(d, c))
  {
    var r := FileWalk(d, c, MaxChainLength);
    if r.Returned? then
      FileWalkReturnsChain(d, c, MaxChainLength);
      r
    else r
  }

  // ---------------------------------------------------------------------------------------
  // Reference definitions in terms of the cluster chain

  /** Whether every cluster of `cs` reads in full. */
  predicate AllFull(d: Disk, cs: seq<u16>)
    requires Usable(d)
  {
    forall i :: 0 <= i < |cs| ==> Full(d, cs[i])
  }

  /** The bytes of the clusters of `cs`, in order. */
  function ClusterReads(d: Disk, cs: seq<u16>): (r: seq<seq<byte>>)
    requires Usable(d)
    ensures |r| == |cs|
    ensures forall i :: 0 <= i < |cs| ==> r[i] == ReadCluster(d, cs[i])
  {
    if cs == [] then [] else [ReadCluster(d, cs[0])] + ClusterReads(d, cs[1..])
  }

  /** The entries of the clusters of `cs`, each scanned with its own cluster as the skipped one. */
  function ChainListing(d: Disk, cs: seq<u16>): (r: seq<DirEntry>)
    requires Usable(d) && AllFull(d, cs)
  {
    if cs == [] then []
    else
      assert Full(d, cs[0]);
      AllFullTail(d, cs);
      Scan(ReadCluster(d, cs[0]), SkipCluster(cs[0])) + ChainListing(d, cs[1..])
  }

  /** A chain's listing holds at most as many entries as its clusters have slots. */
  lemma {:induction false} ChainListingBound(d: Disk, cs: seq<u16>)
    requires Usable(d) && AllFull(d, cs)
    ensures |ChainListing(d, cs)| <= |cs| * (ClusterBytes(d) / 32)
    decreases |cs|
  {
    if cs != [] {
      AllFullTail(d, cs);
      var here := Scan(ReadCluster(d, cs[0]), SkipCluster(cs[0]));
      ChainListingBound(d, cs[1..]);
      PartsBound(|here|, |ChainListing(d, cs[1..])|, |cs| - 1, ClusterBytes(d) / 32);
    }
  }

  /** A part of at most k and a rest of at most m parts of k make at most m + 1 parts of k. */
  lemma PartsBound(here: nat, rest: nat, m: nat, k: nat)
    requires here <= k && rest <= m * k
    ensures here + rest <= (m + 1) * k
  {
    assert (m + 1) * k == m * k + k;
  }

  /** One step of a file walk from a cluster that reads in full and whose entry is in the table. */
  lemma FileWalkStep(d: Disk, c: u16, fuel: nat)
    requires Usable(d) && fuel > 0 && Full(d, c) && InTable(d.fat, c)
    ensures var next := NextCluster(d.fat, c);
            FileWalk(d, c, fuel) ==
              if EndsChain(next) then Returned([ReadCluster(d, c)], [])
              else Prepend([ReadCluster(d, c)], FileWalk(d, next, fuel - 1))
  {
  }

  /**
   * A file walk that has collected `buffers` so far and is at cluster c: either it goes on to
   * the cluster's FAT entry with c's bytes added, or it finishes here.
   */
  lemma FileWalkAdvances(d: Disk, c: u16, fuel: nat, buffers: seq<seq<byte>>, total: Run<seq<seq<byte>>>)
    requires Usable(d) && fuel > 0 && total == Prepend(buffers, FileWalk(d, c, fuel))
    ensures Full(d, c) && InTable(d.fat, c) ==>
              var next := NextCluster(d.fat, c);
              var more := buffers + [ReadCluster(d, c)];
              total == if EndsChain(next) then Returned(more, []) else Prepend(more, FileWalk(d, next, fuel - 1))
    ensures !Full(d, c) ==> total == if EndsChain(c) then Returned(buffers, []) else NoResult(ShortReadRepeats(c))
    ensures Full(d, c) && !InTable(d.fat, c) ==> total == NoResult(FatIndexOutOfRange(c))
  {
    if Full(d, c) && InTable(d.fat, c) {
      var next := NextCluster(d.fat, c);
      FileWalkStep(d, c, fuel);
      PrependPrepend(buffers, [ReadCluster(d, c)], FileWalk(d, next, fuel - 1));
    } else if !Full(d, c) {
      assert buffers + [] == buffers;
    }
  }

  /** A chain whose clusters all read in full is read whole: one buffer per cluster, in chain order. */
  lemma {:induction false} FileWalkFollowsChain(d: Disk, cs: seq<u16>, fuel: nat)
    requires Usable(d) && IsChain(d.fat, cs) && |cs| <= fuel && AllFull(d, cs)
    ensures FileWalk(d, cs[0], fuel) == Returned(ClusterReads(d, cs), [])
    decreases |cs|
  {
    var c := cs[0];
    AllFullTail(d, cs);
    var data := ReadCluster(d, c);
    var rest := ClusterReads(d, cs[1..]);
    assert ClusterReads(d, cs) == [data] + rest;
    if |cs| == 1 {
      assert FileWalk(d, c, fuel) == Returned([data], []) by {
        FileWalkStep(d, c, fuel);
      }
      assert [data] + rest == [data];
    } else {
      var next := cs[1];
      assert FileWalk(d, next, fuel - 1) == Returned(rest, []) by {
        assert cs[1..][0] == next;
        FileWalkFollowsChain(d, cs[1..], fuel - 1);
      }
      assert FileWalk(d, c, fuel) == Prepend([data], FileWalk(d, next, fuel - 1)) by {
        FileWalkStep(d, c, fuel);
      }
    }
  }

  /** The first cluster of a fully readable chain reads in full, and so does the rest of the chain. */
  lemma AllFullTail(d: Disk, cs: seq<u16>)
    requires Usable(d) && AllFull(d, cs) && |cs| > 0
    ensures Full(d, cs[0]) && AllFull(d, cs[1..])
  {
    forall i | 0 <= i < |cs[1..]|
      ensures Full(d, cs[1..][i])
    {
      assert cs[1..][i] == cs[i + 1];
    }
  }

  /**
   * Conversely, a file walk that returns buffers has followed the chain from its start and read
   * each of its clusters in full; it returns nothing only when the start cluster ends a chain
   * and its read is short.
   */
  lemma {:induction false} FileWalkReturnsChain(d: Disk, c: u16, fuel: nat)
    requires Usable(d) && FileWalk(d, c, fuel).Returned?
    ensures FileWalk(d, c, fuel).reported == []
    ensures FileWalk(d, c, fuel).value == [] <==> EndsChain(c) && !Full(d, c)
    ensures FileWalk(d, c, fuel).value != [] ==>
              var cs := ChainFrom(d.fat, c, fuel);
              cs != [] && AllFull(d, cs) && FileWalk(d, c, fuel).value == ClusterReads(d, cs)
    decreases fuel
  {
    if Full(d, c) {
      var next := NextCluster(d.fat, c);
      if !EndsChain(next) {
        FileWalkReturnsChain(d, next, fuel - 1);
        var rest := ChainFrom(d.fat, next, fuel - 1);
        assert FileWalk(d, next, fuel - 1).value != [];
        var cs := [c] + rest;
        assert ChainFrom(d.fat, c, fuel) == cs;
        assert cs[1..] == rest;
      }
    }
  }

  /** One step of a directory walk from a cluster that reads in full and whose entry is in the table. */
  lemma DirWalkStep(d: Disk, c: u16, fuel: nat)
    requires Usable(d) && fuel > 0 && Full(d, c) && InTable(d.fat, c)
    ensures var next := NextCluster(d.fat, c);
            var entries := Scan(ReadCluster(d, c), SkipCluster(c));
            DirWalk(d, c, fuel) ==
              if EndsChain(next) then Returned(entries, [])
              else Prepend(entries, DirWalk(d, next, fuel - 1))
  {
  }

  /**
   * A directory walk that has listed `listing` so far and is at cluster c: either it goes on
   * to the cluster's FAT entry with c's entries added, or it finishes here.
   */
  lemma DirWalkAdvances(d: Disk, c: u16, fuel: nat, listing: seq<DirEntry>, total: Run<seq<DirEntry>>)
    requires Usable(d) && fuel > 0 && total == Prepend(listing, DirWalk(d, c, fuel))
    ensures Full(d, c) && InTable(d.fat, c) ==>
              var next := NextCluster(d.fat, c);
              var more := listing + Scan(ReadCluster(d, c), SkipCluster(c));
              total == if EndsChain(next) then Returned(more, []) else Prepend(more, DirWalk(d, next, fuel - 1))
    ensures !Full(d, c) ==>
              total == if EndsChain(c) then Returned(listing, [ErrorReadingSubDirectory]) else NoResult(ShortReadRepeats(c))
    ensures Full(d, c) && !InTable(d.fat, c) ==> total == NoResult(FatIndexOutOfRange(c))
  {
    if Full(d, c) && InTable(d.fat, c) {
      var next := NextCluster(d.fat, c);
      DirWalkStep(d, c, fuel);
      PrependPrepend(listing, Scan(ReadCluster(d, c), SkipCluster(c)), DirWalk(d, next, fuel - 1));
    } else if !Full(d, c) {
      assert listing + [] == listing;
    }
  }

  /** A directory chain whose clusters all read in full lists the entries of every cluster, in chain order. */
  lemma {:induction false} DirWalkFollowsChain(d: Disk, cs: seq<u16>, fuel: nat)
    requires Usable(d) && IsChain(d.fat, cs) && |cs| <= fuel && AllFull(d, cs)
    ensures DirWalk(d, cs[0], fuel) == Returned(ChainListing(d, cs), [])
    decreases |cs|
  {
    var c := cs[0];
    AllFullTail(d, cs);
    var entries := Scan(ReadCluster(d, c), SkipCluster(c));
    var rest := ChainListing(d, cs[1..]);
    assert ChainListing(d, cs) == entries + rest;
    if |cs| == 1 {
      assert DirWalk(d, c, fuel) == Returned(entries, []) by {
        DirWalkStep(d, c, fuel);
      }
      assert entries + rest == entries;
    } else {
      var tail := cs[1..];
      assert IsChain(d.fat, tail) && |tail| <= fuel - 1;
      DirWalkFollowsChain(d, tail, fuel - 1);
      DirWalkCons(d, c, tail[0], fuel, entries, rest);
    }
  }

  /** A walk from a fully read cluster whose entry names a further cluster lists its entries, then the further cluster's. */
  lemma DirWalkCons(d: Disk, c: u16, next: u16, fuel: nat, entries: seq<DirEntry>, rest: seq<DirEntry>)
    requires Usable(d) && fuel > 0 && Full(d, c) && InTable(d.fat, c)
    requires NextCluster(d.fat, c) == next && !EndsChain(next)
    requires entries == Scan(ReadCluster(d, c), SkipCluster(c))
    requires DirWalk(d, next, fuel - 1) == Returned(rest, [])
    ensures DirWalk(d, c, fuel) == Returned(entries + rest, [])
  {
    DirWalkStep(d, c, fuel);
  }

  /**
   * Conversely, a directory walk that lists anything without an error has followed the chain
   * from its start and read each of its clusters in full.
   */
  lemma {:induction false} DirWalkReturnsChain(d: Disk, c: u16, fuel: nat)
    requires Usable(d) && DirWalk(d, c, fuel).Returned?
    ensures DirWalk(d, c, fuel).reported == [ErrorReadingSubDirectory] <==> EndsChain(c) && !Full(d, c)
    ensures DirWalk(d, c, fuel).reported == [] <==> Full(d, c)
    ensures Full(d, c) ==>
              var cs := ChainFrom(d.fat, c, fuel);
              cs != [] && AllFull(d, cs) && DirWalk(d, c, fuel).value == ChainListing(d, cs)
    decreases fuel
  {
    if Full(d, c) {
      var next := NextCluster(d.fat, c);
      if !EndsChain(next) {
        DirWalkReturnsChain(d, next, fuel - 1);
        var rest := ChainFrom(d.fat, next, fuel - 1);
        assert Full(d, next);
        var cs := [c] + rest;
        assert ChainFrom(d.fat, c, fuel) == cs;
        assert cs[1..] == rest;
      } else {
        assert ChainListing(d, [c]) == Scan(ReadCluster(d, c), SkipCluster(c)) + ChainListing(d, []);
      }
    }
  }

  /**
   * The null-buffer defect: whenever the first cluster reads in full and its FAT entry names
   * another cluster of the directory, the walk as written faults on that cluster, while the
   * walk that reuses its buffer goes on to it; on a one-cluster directory the two agree.
   */
  lemma NullBufferBreaksMultiClusterDirectories(d: Disk, c: u16)
    requires Usable(d) && Full(d, c) && InTable(d.fat, c)
    ensures var next := NextCluster(d.fat, c);
            !EndsChain(next) ==>
              && DirWalkAsWritten(d, c) == NoResult(NullBufferRead(next))
              && DirWalk(d, c, MaxChainLength) ==
                   Prepend(Scan(ReadCluster(d, c), SkipCluster(c)), DirWalk(d, next, MaxChainLength - 1))
    ensures EndsChain(NextCluster(d.fat, c)) ==> DirWalkAsWritten(d, c) == DirWalk(d, c, MaxChainLength)
  {
  }

  /** A concrete directory on which the written walk faults: clusters 2 and 3 chained, both readable. */
  lemma NullBufferExample()
    ensures var d := Disk(seq(4 * 512, _ => 0x41), 512, BootSector(512, 1, 1, 0, 3, 1), [0, 0, 0, 3, 0xF0, 0xFF],
                          Geometry(512, 0, 2, 2));
            Usable(d) && DirWalkAsWritten(d, 2) == NoResult(NullBufferRead(3))
            && DirWalk(d, 2, MaxChainLength).Returned?
  {
    var d := Disk(seq(4 * 512, _ => 0x41), 512, BootSector(512, 1, 1, 0, 3, 1), [0, 0, 0, 3, 0xF0, 0xFF],
                  Geometry(512, 0, 2, 2));
    assert DeriveGeometry(d.boot) == Geometry(512, 0, 2, 2);
    assert NextCluster(d.fat, 2) == 3;
    assert NextCluster(d.fat, 3) == 0xFFF;
    assert IsChain(d.fat, [3]);
    assert IsChain(d.fat, [2, 3]);
    assert Full(d, 2) && Full(d, 3);
    DirWalkFollowsChain(d, [2, 3], MaxChainLength);
  }

  /** The root listing never holds more entries than the boot sector's root entry count. */
  lemma RootListingBounded(d: Disk, allocOk: bool)
    requires Mounted(d)
    ensures |RootListing(d, allocOk).value| <= d.boot.maxRootEntries
  {
    var bps := d.boot.bytesPerSector;
    if allocOk {
      AcceptedSectorSizeHoldsWholeSlots(bps, 0);
      assert d.geometry.rootDirSectors == (d.boot.maxRootEntries * 32) / bps;
      RootSectorsHoldRootEntries(d.boot.maxRootEntries, bps);
    }
  }

  /** A root listing reports an error exactly when its allocation fails or its read comes back short. */
  lemma RootListingReports(d: Disk, allocOk: bool)
    requires Usable(d)
    ensures !allocOk ==> RootListing(d, allocOk) == Returned([], [DynamicAllocationError])
    ensures allocOk ==>
              var offset := ToOffset(d.geometry.rootDirStart * d.boot.bytesPerSector);
              var count := d.boot.bytesPerSector * d.geometry.rootDirSectors;
              RootListing(d, allocOk).reported == [] <==> count == 0 || offset + count <= |d.image|
    ensures RootListing(d, allocOk).reported != [] ==> RootListing(d, allocOk).value == []
  {
  }

  // ---------------------------------------------------------------------------------------
  // Why running out of fuel means the source never returns

  /**
   * From `c` on, `fuel` clusters in a row are read in full, each lies in the table, and the
   * entry of each does not end a chain.
   */
  ghost predicate ReadsOn(d: Disk, c: u16, fuel: nat)
    requires Usable(d)
    decreases fuel
  {
    fuel == 0 ||
    (Full(d, c) && InTable(d.fat, c) && !EndsChain(NextCluster(d.fat, c))
     && ReadsOn(d, NextCluster(d.fat, c), fuel - 1))
  }

  /** A file walk that runs out of fuel reads on, in full, for all of its fuel. */
  lemma {:induction false} FileWalkExhaustedReadsOn(d: Disk, c: u16, fuel: nat)
    requires Usable(d) && FileWalk(d, c, fuel) == NoResult(ChainNeverEnds)
    ensures ReadsOn(d, c, fuel)
    decreases fuel
  {
    if fuel > 0 {
      var next := NextCluster(d.fat, c);
      assert Full(d, c) && InTable(d.fat, c) && !EndsChain(next);
      assert FileWalk(d, next, fuel - 1) == NoResult(ChainNeverEnds);
      FileWalkExhaustedReadsOn(d, next, fuel - 1);
    }
  }

  /** The same for a subdirectory walk. */
  lemma {:induction false} DirWalkExhaustedReadsOn(d: Disk, c: u16, fuel: nat)
    requires Usable(d) && DirWalk(d, c, fuel) == NoResult(ChainNeverEnds)
    ensures ReadsOn(d, c, fuel)
    decreases fuel
  {
    if fuel > 0 {
      var next := DirWalkExhaustedStep(d, c, fuel);
      assert DirWalk(d, next, fuel - 1) == NoResult(ChainNeverEnds);
      DirWalkExhaustedReadsOn(d, next, fuel - 1);
    }
  }

  /** One step of that: the walk read its start in full and its walk from the entry runs out of fuel too. */
  lemma DirWalkExhaustedStep(d: Disk, c: u16, fuel: nat) returns (next: u16)
    requires Usable(d) && fuel > 0 && DirWalk(d, c, fuel) == NoResult(ChainNeverEnds)
    ensures Full(d, c) && InTable(d.fat, c) && next == NextCluster(d.fat, c) && !EndsChain(next)
    ensures DirWalk(d, next, fuel - 1) == NoResult(ChainNeverEnds)
    ensures ReadsOn(d, next, fuel - 1) ==> ReadsOn(d, c, fuel)
  {
    next := NextCluster(d.fat, c);
  }

  /**
   * A walk that reads on for `fuel` clusters has read every cluster of its trail but the last
   * in full and passed `fuel` clusters after the start, none of which ends a chain.
   */
  lemma {:induction false} ReadsOnTrail(d: Disk, c: u16, fuel: nat)
    requires Usable(d) && ReadsOn(d, c, fuel)
    ensures |Trail(d.fat, c, fuel)| == fuel + 1
    ensures forall k :: 0 <= k < fuel ==> Full(d, Trail(d.fat, c, fuel)[k])
    ensures forall k :: 1 <= k <= fuel ==> !EndsChain(Trail(d.fat, c, fuel)[k])
    decreases fuel
  {
    if fuel > 0 {
      var next := NextCluster(d.fat, c);
      ReadsOnTrail(d, next, fuel - 1);
      TrailCons(d, c, next, fuel, Trail(d.fat, next, fuel - 1));
    }
  }

  /** A trail through a fully read, unended start continues with the trail from its entry. */
  lemma TrailCons(d: Disk, c: u16, next: u16, fuel: nat, rest: seq<u16>)
    requires Usable(d) && fuel > 0 && Full(d, c) && InTable(d.fat, c) && NextCluster(d.fat, c) == next
    requires !EndsChain(next) && rest == Trail(d.fat, next, fuel - 1) && |rest| == fuel
    requires forall k :: 0 <= k < fuel - 1 ==> Full(d, rest[k])
    requires forall k :: 1 <= k < fuel ==> !EndsChain(rest[k])
    ensures |Trail(d.fat, c, fuel)| == fuel + 1
    ensures forall k :: 0 <= k < fuel ==> Full(d, Trail(d.fat, c, fuel)[k])
    ensures forall k :: 1 <= k <= fuel ==> !EndsChain(Trail(d.fat, c, fuel)[k])
  {
    var t := Trail(d.fat, c, fuel);
    assert t == [c] + rest;
    forall k | 1 <= k <= fuel
      ensures t[k] == rest[k - 1]
    {
    }
  }

  /**
   * A trail that has passed more clusters below 0xFF7 than there are such clusters has met
   * some cluster twice. The next cluster is a function of the current one, so from its second
   * visit on, the walk repeats the clusters after the first visit forever.
   */
  lemma TrailRepeats(t: seq<u16>)
    requires |t| == MaxChainLength + 1
    requires forall k :: 1 <= k <= MaxChainLength ==> !EndsChain(t[k])
    ensures exists i, j :: 1 <= i < j < |t| && t[i] == t[j]
  {
    var after := t[1..];
    forall k | 0 <= k < |after|
      ensures after[k] < EndOfChainMin
    {
      assert after[k] == t[k + 1];
    }
    Pigeonhole(after, EndOfChainMin);
    var i, j :| 0 <= i < j < |after| && after[i] == after[j];
    assert t[i + 1] == t[j + 1];
  }

  /**
   * A file read that stops with `ChainNeverEnds` has read in full a chain that visits some
   * cluster twice, so the source's loop, whose next cluster depends only on the current one,
   * never exits.
   */
  lemma FileReadNeverEndsRepeats(d: Disk, c: u16)
    requires Usable(d) && FileContents(d, c) == NoResult(ChainNeverEnds)
    ensures var t := Trail(d.fat, c, MaxChainLength);
            && |t| == MaxChainLength + 1
            && (forall k :: 0 <= k < MaxChainLength ==> Full(d, t[k]))
            && exists i, j :: 1 <= i < j < |t| && t[i] == t[j]
  {
    assert FileWalk(d, c, MaxChainLength) == NoResult(ChainNeverEnds);
    FileWalkExhaustedReadsOn(d, c, MaxChainLength);
    ReadsOnTrail(d, c, MaxChainLength);
    TrailRepeats(Trail(d.fat, c, MaxChainLength));
  }

  /** The same for a subdirectory listing that stops with `ChainNeverEnds`. */
  lemma DirListingNeverEndsRepeats(d: Disk, c: u16, allocOk: bool)
    requires Usable(d) && DirListing(d, c, allocOk) == NoResult(ChainNeverEnds)
    ensures c != 0 && allocOk
    ensures var t := Trail(d.fat, c, MaxChainLength);
            && |t| == MaxChainLength + 1
            && (forall k :: 0 <= k < MaxChainLength ==> Full(d, t[k]))
            && exists i, j :: 1 <= i < j < |t| && t[i] == t[j]
  {
    assert DirWalk(d, c, MaxChainLength) == NoResult(ChainNeverEnds);
    DirWalkExhaustedReadsOn(d, c, MaxChainLength);
    ReadsOnTrail(d, c, MaxChainLength);
    TrailRepeats(Trail(d.fat, c, MaxChainLength));
  }
}
