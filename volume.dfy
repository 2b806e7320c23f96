/**
 * The FAT12 engine's state and its entry points: mounting an image (which parses the boot
 * sector, switches the reader to the volume's sector size, loads the FAT and derives the
 * geometry), reading a directory and reading a file.
 *
 * The engine keeps its state in module-level variables of two layers: the reader's open image
 * and current sector size, and the engine's parsed boot sector, FAT and derived offsets. Here
 * they are the fields of one `Volume`. Errors the engine passes to its callback are returned
 * as the list of codes reported, in order; allocation outcomes are parameters.
 */
module FatFs {
  import opened Bytes
  import opened BlockReader
  import opened Boot
  import opened FatTable
  import opened Directory
  import opened Walk

  datatype Option<T> = None | Some(value: T)

  /** The number of bytes in the boot sector the engine reads first. */
  const BootSectorBytes: nat := 512

  /** Whether a mount gets as far as parsing: the image opens, its buffer is allocated and the first sector reads in full. */
  predicate BootParsed(store: Option<seq<byte>>, bootAllocOk: bool)
  {
    store.Some? && bootAllocOk && |store.value| >= BootSectorBytes
  }

  /**
   * The FAT as loaded at mount time, and the codes reported on the way: a zero-filled table of
   * sectors-per-FAT sectors, into which as much of the region starting at byte
   * bytes-per-sector × sectors-per-cluster as the image holds has been read. A short read is
   * reported and the table kept; a failed allocation leaves no table at all.
   */
  function LoadFat(image: seq<byte>, boot: BootSector, allocOk: bool): (r: (seq<byte>, seq<ErrorCode>))
    ensures !allocOk ==> r == ([], [DynamicAllocationError])
    ensures allocOk ==> |r.0| == boot.bytesPerSector * boot.sectorsPerFat
    ensures allocOk ==>
              var offset := boot.bytesPerSector * boot.sectorsPerCluster;
              forall i :: 0 <= i < |r.0| ==> r.0[i] == if offset + i < |image| then image[offset + i] else 0
    ensures allocOk ==>
              var offset := boot.bytesPerSector * boot.sectorsPerCluster;
              var size := boot.bytesPerSector * boot.sectorsPerFat;
              && (r.1 == [] <==> size == 0 || offset + size <= |image|)
              && (r.1 != [] ==> r.1 == [MultipleSectorReadError])
  {
    if !allocOk then ([], [DynamicAllocationError])
    else
      var size := boot.bytesPerSector * boot.sectorsPerFat;
      var offset := boot.bytesPerSector * boot.sectorsPerCluster;
      var got := ReadAt(image, offset, size);
      ReadAtBytes(image, offset, size);
      var table := ZeroFilled(got, size);
      assert forall i :: 0 <= i < |got| ==> table[i] == got[i] by {
        assert table[..|got|] == got;
      }
      (table, if |got| != size then [MultipleSectorReadError] else [])
  }

  /** The engine's state: the reader's image and sector size, and what the mount derived from the image. */
  class Volume {
    var isOpen: bool
    var image: seq<byte>
    var sectorSize: u16
    var boot: BootSector
    var fat: seq<byte>
    var geometry: Geometry

    /** The state the reads work on. */
    function State(): Disk
      reads this
    {
      Disk(image, sectorSize, boot, fat, geometry)
    }

    /** Whether the last mount succeeded, that is, returned a non-zero cluster size. */
    predicate Mounted()
      reads this
    {
      isOpen && Walk.Mounted(State())
    }

    /** The state before any mount: nothing open, no table, all numbers zero. */
    constructor ()
      ensures !isOpen && image == [] && sectorSize == 0 && fat == []
      ensures boot == BootSector(0, 0, 0, 0, 0, 0) && geometry == Geometry(0, 0, 0, 0)
    {
      isOpen := false;
      image := [];
      sectorSize := 0;
      boot := BootSector(0, 0, 0, 0, 0, 0);
      fat := [];
      geometry := Geometry(0, 0, 0, 0);
    }

    /**
     * Opens the image `store` (`None` when it cannot be opened); the reader starts over with
     * 512-byte sectors whether or not the open succeeds.
     */
    method OpenImage(store: Option<seq<byte>>) returns (ok: bool)
      modifies this
      ensures ok == isOpen == store.Some? && image == (if store.Some? then store.value else [])
      ensures sectorSize == DefaultSectorSize
      ensures boot == old(boot) && fat == old(fat) && geometry == old(geometry)
    {
      sectorSize := DefaultSectorSize;
      if store.None? {
        isOpen, image := false, [];
      } else {
        isOpen, image := true, store.value;
      }
      ok := isOpen;
    }

    /** Switches the reader to sector size `size`, which must be a positive multiple of 512. */
    method UpdateSectorSize(size: u16) returns (ok: bool)
      modifies this
      ensures ok == SectorSizeAccepted(size)
      ensures sectorSize == if ok then size else old(sectorSize)
      ensures isOpen == old(isOpen) && image == old(image)
      ensures boot == old(boot) && fat == old(fat) && geometry == old(geometry)
    {
      ok := SectorSizeAccepted(size);
      if ok {
        sectorSize := size;
      }
    }

    /**
     * Mounts the image `store` (`None` when it cannot be opened) and returns the cluster size,
     * 0 on failure. The reader starts over with 512-byte sectors; the first sector is read and
     * parsed, the reader is switched to the boot sector's sector size, and only then are the
     * FAT loaded and the geometry derived. A failed FAT load is reported but does not make the
     * mount fail, while a zero sectors-per-cluster count does, silently.
     */
    method Init(store: Option<seq<byte>>, bootAllocOk: bool, fatAllocOk: bool) returns (clusterSize: u32, reported: seq<ErrorCode>)
      modifies this
      ensures isOpen == store.Some? && image == (if store.Some? then store.value else [])
      ensures store.None? ==> reported == [ErrorOpeningFile]
      ensures store.Some? && !bootAllocOk ==> reported == [DynamicAllocationError]
      ensures store.Some? && bootAllocOk && |store.value| < BootSectorBytes ==> reported == [BootSectorReadError]
      ensures !BootParsed(store, bootAllocOk) ==>
                && clusterSize == 0 && sectorSize == DefaultSectorSize
                && boot == old(boot) && fat == old(fat) && geometry == old(geometry)
      ensures BootParsed(store, bootAllocOk) ==> boot == ParseBootSector(store.value[..BootSectorBytes])
      ensures BootParsed(store, bootAllocOk) && !SectorSizeAccepted(boot.bytesPerSector) ==>
                && clusterSize == 0 && reported == [ErrorUpdatingSectorSize] && sectorSize == DefaultSectorSize
                && fat == old(fat) && geometry == old(geometry)
      ensures BootParsed(store, bootAllocOk) && SectorSizeAccepted(boot.bytesPerSector) ==>
                && sectorSize == boot.bytesPerSector
                && (fat, reported) == LoadFat(image, boot, fatAllocOk)
                && geometry == DeriveGeometry(boot)
                && clusterSize == boot.sectorsPerCluster * boot.bytesPerSector
      ensures clusterSize != 0 <==>
                BootParsed(store, bootAllocOk) && SectorSizeAccepted(boot.bytesPerSector) && boot.sectorsPerCluster > 0
      ensures clusterSize != 0 ==> Mounted()
    {
      var ok := OpenImage(store);
      if !ok {
        return 0, [ErrorOpeningFile];
      }
      if !bootAllocOk {
        return 0, [DynamicAllocationError];
      }
      var sector := ReadAt(image, 0, sectorSize);
      if |sector| != BootSectorBytes {
        return 0, [BootSectorReadError];
      }
      assert sector == store.value[..BootSectorBytes];
      boot := ParseBootSector(sector);
      var updated := UpdateSectorSize(boot.bytesPerSector);
      if !updated {
        return 0, [ErrorUpdatingSectorSize];
      }
      reported := GetFatTable(fatAllocOk);
      geometry := DeriveGeometry(boot);
      ClusterSizeFits(boot.sectorsPerCluster, boot.bytesPerSector);
      clusterSize := boot.sectorsPerCluster * boot.bytesPerSector;
      assert clusterSize != 0 <==> boot.sectorsPerCluster > 0 by {
        ProductIsZero(boot.sectorsPerCluster, boot.bytesPerSector);
      }
    }

    /**
     * Loads the FAT: sectors-per-FAT sectors read at byte bytes-per-sector × sectors-per-cluster
     * into a fresh zero-filled table. Called once the reader uses the boot sector's sector size.
     */
    method GetFatTable(allocOk: bool) returns (reported: seq<ErrorCode>)
      requires sectorSize == boot.bytesPerSector
      modifies this
      ensures (fat, reported) == LoadFat(image, boot, allocOk)
      ensures isOpen == old(isOpen) && image == old(image) && sectorSize == old(sectorSize)
      ensures boot == old(boot) && geometry == old(geometry)
    {
      if !allocOk {
        fat := [];
        return [DynamicAllocationError];
      }
      var size := boot.bytesPerSector * boot.sectorsPerFat;
      var got := ReadAt(image, boot.bytesPerSector * boot.sectorsPerCluster, sectorSize * boot.sectorsPerFat);
      fat := ZeroFilled(got, size);
      reported := if |got| != size then [MultipleSectorReadError] else [];
    }

    /** Lists directory `cluster`: 0 is the root, any other cluster the start of a subdirectory's chain. */
    method ReadDir(cluster: u16, allocOk: bool) returns (run: Run<seq<DirEntry>>)
      requires Mounted()
      ensures run == DirListing(State(), cluster, allocOk)
    {
      if cluster == 0 {
        run := ReadRoot(allocOk);
      } else if !allocOk {
        run := Returned([], [DynamicAllocationError]);
      } else {
        run := ReadSubdirectory(cluster);
      }
    }

    /** Lists the root directory: one read of its sectors into a buffer allocated beforehand. */
    method ReadRoot(allocOk: bool) returns (run: Run<seq<DirEntry>>)
      requires Mounted()
      ensures run == RootListing(State(), allocOk)
    {
      if !allocOk {
        return Returned([], [DynamicAllocationError]);
      }
      var bps: nat := boot.bytesPerSector;
      var n: nat := geometry.rootDirSectors;
      var data := ReadAt(image, ToOffset(geometry.rootDirStart * bps), sectorSize * n);
      if |data| == bps * n {
        AcceptedSectorSizeHoldsWholeSlots(bps, n);
        var entries := ScanBuffer(data, NoFilter);
        run := Returned(entries, []);
      } else {
        run := Returned([], [ErrorReadingRootDirectory]);
      }
    }

    /**
     * Lists the subdirectory starting at `cluster`, reusing one buffer for all its clusters.
     * The chain is followed for at most 0xFF8 clusters, beyond which the source's loop could
     * only be going round a cycle.
     */
    method ReadSubdirectory(cluster: u16) returns (run: Run<seq<DirEntry>>)
      requires Mounted()
      ensures run == DirWalk(State(), cluster, MaxChainLength)
    {
      var d := State();
      var bps: nat := boot.bytesPerSector;
      assert ClusterBytes(d) == bps * boot.sectorsPerCluster;
      var c := cluster;
      var listing: seq<DirEntry> := [];
      var steps := 0;
      ghost var total := DirWalk(d, cluster, MaxChainLength);
      ghost var fuel := MaxChainLength;
      PrependNothing(total);
      while steps < MaxChainLength
        invariant steps <= MaxChainLength && fuel == MaxChainLength - steps
        invariant total == Prepend(listing, DirWalk(d, c, fuel))
        decreases MaxChainLength - steps
      {
        var data := ReadAt(image, ClusterOffset(d, c), sectorSize * boot.sectorsPerCluster);
        assert data == ReadCluster(d, c);
        DirWalkAdvances(d, c, fuel, listing, total);
        if |data| != bps * boot.sectorsPerCluster {
          if EndsChain(c) {
            return Returned(listing, [ErrorReadingSubDirectory]);
          }
          return NoResult(ShortReadRepeats(c));
        }
        if !InTable(fat, c) {
          return NoResult(FatIndexOutOfRange(c));
        }
        AcceptedSectorSizeHoldsWholeSlots(boot.bytesPerSector, boot.sectorsPerCluster);
        var entries := ScanBuffer(data, SkipCluster(c));
        listing := listing + entries;
        var next := NextCluster(fat, c);
        if EndsChain(next) {
          return Returned(listing, []);
        }
        c, steps, fuel := next, steps + 1, fuel - 1;
      }
      run := NoResult(ChainNeverEnds);
    }

    /**
     * Reads the file starting at `cluster`: one buffer per cluster of its chain, each the
     * cluster's bytes, followed for at most 0xFF8 clusters. Every buffer allocation is taken
     * to succeed.
     */
    method ReadFile(cluster: u16) returns (run: Run<seq<seq<byte>>>)
      requires Mounted()
      ensures run == FileContents(State(), cluster)
    {
      var d := State();
      var bps: nat := boot.bytesPerSector;
      assert ClusterBytes(d) == bps * boot.sectorsPerCluster;
      var c := cluster;
      var buffers: seq<seq<byte>> := [];
      var steps := 0;
      ghost var total := FileWalk(d, cluster, MaxChainLength);
      ghost var fuel := MaxChainLength;
      PrependNothing(total);
      while steps < MaxChainLength
        invariant steps <= MaxChainLength && fuel == MaxChainLength - steps
        invariant total == Prepend(buffers, FileWalk(d, c, fuel))
        decreases MaxChainLength - steps
      {
        var data := ReadAt(image, ClusterOffset(d, c), sectorSize * boot.sectorsPerCluster);
        assert data == ReadCluster(d, c);
        FileWalkAdvances(d, c, fuel, buffers, total);
        if |data| != bps * boot.sectorsPerCluster {
          if EndsChain(c) {
            return Returned(buffers, []);
          }
          return NoResult(ShortReadRepeats(c));
        }
        if !InTable(fat, c) {
          return NoResult(FatIndexOutOfRange(c));
        }
        buffers := buffers + [data];
        var next := NextCluster(fat, c);
        if EndsChain(next) {
          return Returned(buffers, []);
        }
        c, steps, fuel := next, steps + 1, fuel - 1;
      }
      run := NoResult(ChainNeverEnds);
    }
  }
}
