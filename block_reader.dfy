/**
 * The block reader the FAT12 engine sits on: an image file opened once, read with a seek to a
 * byte offset followed by a read of a whole number of sectors. Here the image is a byte
 * sequence; a read returns the bytes of the requested range that lie inside the image, so a
 * read that runs past the end comes back short, as a file read does.
 */
module BlockReader {
  import opened Bytes

  /** The sector size the reader starts with and the unit the sector size must be a multiple of. */
  const DefaultSectorSize: nat := 512

  /** At most `count` bytes of `image` starting at byte `offset`, clipped at the end of the image. */
  function ReadAt(image: seq<byte>, offset: nat, count: nat): (r: seq<byte>)
    ensures |r| <= count
    ensures |r| == count <==> count == 0 || offset + count <= |image|
    ensures offset < |image| ==> |r| == if offset + count <= |image| then count else |image| - offset
    ensures offset >= |image| ==> r == []
  {
    if offset >= |image| then []
    else if offset + count <= |image| then image[offset..offset + count]
    else image[offset..]
  }

  /** The bytes a read returns are the image's bytes from the offset on. */
  lemma ReadAtBytes(image: seq<byte>, offset: nat, count: nat)
    ensures var r := ReadAt(image, offset, count);
            forall i :: 0 <= i < |r| ==> r[i] == image[offset + i]
  {
  }

  /**
   * A zero-initialised buffer of `size` bytes after `got` has been read into its start: the
   * buffers of the engine are all zero-filled allocations.
   */
  function ZeroFilled(got: seq<byte>, size: nat): (buf: seq<byte>)
    requires |got| <= size
    ensures |buf| == size
    ensures buf[..|got|] == got
    ensures forall i :: |got| <= i < size ==> buf[i] == 0
  {
    got + seq(size - |got|, _ => 0)
  }

  /**
   * The value a computed byte offset has once it is passed as the reader's unsigned 32-bit
   * offset parameter: reduced modulo 2^32.
   */
  function ToOffset(x: int): (r: u32)
    ensures 0 <= x < 0x1_0000_0000 ==> r == x
    ensures (r - x) % 0x1_0000_0000 == 0
  {
    x % 0x1_0000_0000
  }

  /**
   * The sector-size update as written: any multiple of the default size is accepted,
   * including 0.
   */
  predicate SectorSizeAcceptedAsWritten(size: u16)
  {
    size % DefaultSectorSize == 0
  }

  /** The sector-size update as intended: only a positive multiple of the default size. */
  predicate SectorSizeAccepted(size: u16)
  {
    size > 0 && size % DefaultSectorSize == 0
  }

  /** The only size the written check accepts and the intended one refuses is 0. */
  lemma SectorSizeChecksDifferOnlyAtZero(size: u16)
    ensures SectorSizeAcceptedAsWritten(size) && !SectorSizeAccepted(size) <==> size == 0
  {
  }

  /**
   * An accepted sector size is at least one default sector, and any whole number of such
   * sectors splits into whole 32-byte directory slots.
   */
  lemma AcceptedSectorSizeHoldsWholeSlots(size: u16, sectors: nat)
    requires SectorSizeAccepted(size)
    ensures size >= DefaultSectorSize
    ensures (size * sectors) % 32 == 0
  {
    var q := size / 512;
    assert size == 512 * q;
    calc {
      size * sectors;
      512 * q * sectors;
      32 * (16 * q * sectors);
    }
  }
}
