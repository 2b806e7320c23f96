/**
 * The boot sector's BIOS Parameter Block fields the reader uses, and the volume geometry it
 * derives from them (section "Boot Sector and BPB" of Microsoft's "FAT: General Overview of
 * On-Disk Format", version 1.03).
 */
module Boot {
  import opened Bytes

  /** Byte offsets of the fields inside the boot sector. */
  const BytsPerSecOffset: nat := 11
  const SecPerClusOffset: nat := 13
  const NumFatsOffset: nat := 16
  const RootEntCntOffset: nat := 17
  const TotSec16Offset: nat := 19
  const FatSz16Offset: nat := 22

  /** The offsets of every byte the parser copies. */
  const ParsedOffsets: set<nat> := {11, 12, 13, 16, 17, 18, 19, 20, 22, 23}

  /**
   * The parsed fields. `sectorsPerCluster` is a 16-bit field of which only the low byte is
   * ever copied, so its value is always below 256; the reserved-sector count (offset 14) and
   * the media byte (offset 21) are not read at all.
   */
  datatype BootSector = BootSector(
    bytesPerSector: u16,
    sectorsPerCluster: u16,
    numberOfFats: byte,
    maxRootEntries: u16,
    totalSectors: u16,
    sectorsPerFat: u16)

  /** Geometry derived at mount time; the three offsets are counted in sectors. */
  datatype Geometry = Geometry(
    clusterSize: nat,
    rootDirSectors: u16,
    rootDirStart: u16,
    dataStart: u16)

  /** The boot-sector fields as the parser copies them out of the first sector. */
  function ParseBootSector(sector: seq<byte>): (b: BootSector)
    requires |sector| >= 24
    ensures b.bytesPerSector == sector[11] as int + 256 * (sector[12] as int)
    ensures b.sectorsPerCluster == sector[13] < 256
    ensures b.numberOfFats == sector[16]
    ensures b.maxRootEntries == sector[17] as int + 256 * (sector[18] as int)
    ensures b.totalSectors == sector[19] as int + 256 * (sector[20] as int)
    ensures b.sectorsPerFat == sector[22] as int + 256 * (sector[23] as int)
  {
    BootSector(
      Le16(sector, BytsPerSecOffset),
      sector[SecPerClusOffset],
      sector[NumFatsOffset],
      Le16(sector, RootEntCntOffset),
      Le16(sector, TotSec16Offset),
      Le16(sector, FatSz16Offset))
  }

  /** `sector` with the bytes of `b`'s fields stored at their offsets. */
  function WriteBootSector(sector: seq<byte>, b: BootSector): (r: seq<byte>)
    requires |sector| >= 24
    requires b.sectorsPerCluster < 256
    ensures |r| == |sector|
    ensures forall i :: 0 <= i < |sector| && i !in ParsedOffsets ==> r[i] == sector[i]
  {
    sector[..11] + Le16Bytes(b.bytesPerSector) + [b.sectorsPerCluster]
    + sector[14..16] + [b.numberOfFats] + Le16Bytes(b.maxRootEntries) + Le16Bytes(b.totalSectors)
    + sector[21..22] + Le16Bytes(b.sectorsPerFat) + sector[24..]
  }

  /** Parsing a sector into which a set of fields was written gives back exactly those fields. */
  lemma ParseWriteRoundTrip(sector: seq<byte>, b: BootSector)
    requires |sector| >= 24
    requires b.sectorsPerCluster < 256
    ensures ParseBootSector(WriteBootSector(sector, b)) == b
  {
    var r := WriteBootSector(sector, b);
    assert r[11..13] == Le16Bytes(b.bytesPerSector);
    assert r[17..19] == Le16Bytes(b.maxRootEntries);
    assert r[19..21] == Le16Bytes(b.totalSectors);
    assert r[22..24] == Le16Bytes(b.sectorsPerFat);
  }

  /** No byte outside the copied fields influences the parsed result. */
  lemma ParseReadsOnlyParsedOffsets(s: seq<byte>, t: seq<byte>)
    requires |s| >= 24 && |t| >= 24
    requires forall i :: i in ParsedOffsets ==> s[i] == t[i]
    ensures ParseBootSector(s) == ParseBootSector(t)
  {
    assert 11 in ParsedOffsets && 12 in ParsedOffsets && 13 in ParsedOffsets;
    assert 16 in ParsedOffsets && 17 in ParsedOffsets && 18 in ParsedOffsets;
    assert 19 in ParsedOffsets && 20 in ParsedOffsets && 22 in ParsedOffsets && 23 in ParsedOffsets;
  }

  /**
   * Geometry as computed at mount time. The cluster size is a 32-bit quantity and the other
   * three values are stored in 16-bit variables; the root start assumes exactly one reserved
   * sector before the FATs, whatever the boot sector says.
   */
  function DeriveGeometry(b: BootSector): (g: Geometry)
    requires b.bytesPerSector > 0
    ensures g.clusterSize == b.sectorsPerCluster * b.bytesPerSector
    ensures b.bytesPerSector >= 32 ==> g.rootDirSectors == (b.maxRootEntries * 32) / b.bytesPerSector
    ensures b.numberOfFats * b.sectorsPerFat + 1 < 0x1_0000 ==> g.rootDirStart == b.numberOfFats * b.sectorsPerFat + 1
    ensures b.numberOfFats * b.sectorsPerFat + g.rootDirSectors + 1 < 0x1_0000 ==>
              g.dataStart == g.rootDirStart + g.rootDirSectors
  {
    var clusterSize: nat := NatProduct(b.sectorsPerCluster, b.bytesPerSector);
    var fatSectors: nat := NatProduct(b.numberOfFats, b.sectorsPerFat);
    var rootDirSectors := RootDirSectors(b.maxRootEntries, b.bytesPerSector);
    Geometry(
      clusterSize,
      rootDirSectors,
      Truncate16(fatSectors + 1),
      Truncate16(fatSectors + rootDirSectors + 1))
  }

  /** A value stored in a 16-bit variable: reduced modulo 2^16. */
  function Truncate16(x: nat): (r: u16)
    ensures x < 0x1_0000 ==> r == x
    ensures (x - r) % 0x1_0000 == 0
  {
    x % 0x1_0000
  }

  /**
   * The cluster size fits the engine's unsigned 32-bit result: fewer than 256 sectors per
   * cluster, of at most 0xFFFF bytes each.
   */
  lemma ClusterSizeFits(sectorsPerCluster: nat, bytesPerSector: nat)
    requires sectorsPerCluster < 256 && bytesPerSector < 0x1_0000
    ensures sectorsPerCluster * bytesPerSector < 0x1_0000_0000
  {
    assert sectorsPerCluster * bytesPerSector <= 255 * bytesPerSector by {
      assert (255 - sectorsPerCluster) * bytesPerSector >= 0;
    }
  }

  /** A product of naturals is zero exactly when a factor is. */
  lemma ProductIsZero(x: nat, y: nat)
    requires y > 0
    ensures x * y == 0 <==> x == 0
  {
    if x > 0 {
      assert x * y >= y;
    }
  }

  /** The product of two naturals, as a natural. */
  function NatProduct(x: nat, y: nat): (p: nat)
    ensures p == x * y
  {
    x * y
  }

  /**
   * The number of sectors the root directory occupies, truncated to 16 bits as its variable
   * is; with sectors of at least 32 bytes no truncation happens.
   */
  function RootDirSectors(entries: u16, bytesPerSector: u16): (n: u16)
    requires bytesPerSector > 0
    ensures bytesPerSector >= 32 ==> n == (entries * 32) / bytesPerSector
  {
    var q := (entries * 32) / bytesPerSector;
    if bytesPerSector >= 32 then
      QuotientBound(entries, bytesPerSector);
      q
    else
      q % 0x1_0000
  }

  /** Dividing a count of 32-byte entries by a size of at least 32 gives at most the count. */
  lemma QuotientBound(entries: nat, size: nat)
    requires size >= 32
    ensures 0 <= (entries * 32) / size <= entries
  {
    var q := (entries * 32) / size;
    assert q * size <= entries * 32;
    assert q * 32 <= q * size;
  }

  /** The root directory's sectors, counted as above, hold at most `entries` 32-byte slots. */
  lemma RootSectorsHoldRootEntries(entries: nat, size: nat)
    requires size >= 32
    ensures (size * ((entries * 32) / size)) / 32 <= entries
  {
    var q := (entries * 32) / size;
    assert q * size <= entries * 32;
  }

  /** The standard 1.44 MB floppy: 512-byte sectors, 1 sector per cluster, 2 FATs of 9 sectors, 224 root entries. */
  lemma FloppyGeometry()
    ensures DeriveGeometry(BootSector(512, 1, 2, 224, 2880, 9)) == Geometry(512, 14, 19, 33)
  {
  }
}
