/**
 * Directory slots: 32-byte records decoded into entries, and the scan of a directory buffer
 * that lists them (sections "FAT Directory Structure" and "FAT Long Directory Entries" of
 * Microsoft's "FAT: General Overview of On-Disk Format", version 1.03).
 */
module Directory {
  import opened Bytes

  /** A slot whose first byte is this is free, and so is every slot after it. */
  const FreeMarker: byte := 0x00

  /** The attribute value of a long-file-name fragment. */
  const LongNameAttribute: byte := 0x0F

  /** Bytes of a slot the decoder does not copy (NT flags, creation tenths, access date, high cluster word). */
  const UncopiedSlotBytes: set<nat> := {12, 13, 18, 19, 20, 21}

  /**
   * A decoded slot: the 8-byte name and 3-byte extension as stored (space padded, not
   * trimmed), the attribute byte, the packed creation and last-write times and dates, the
   * first cluster and the size in bytes.
   */
  datatype DirEntry = DirEntry(
    name: seq<byte>,
    extension: seq<byte>,
    attributes: byte,
    creationTime: u16,
    creationDate: u16,
    lastWriteTime: u16,
    lastWriteDate: u16,
    firstCluster: u16,
    size: u32)

  /** Which entries the scan drops besides free and long-name slots. */
  datatype SelfFilter = NoFilter | SkipCluster(cluster: u16)

  /** The name and extension have the lengths of their slot fields. */
  predicate WellFormed(e: DirEntry)
  {
    |e.name| == 8 && |e.extension| == 3
  }

  /** The entry a 32-byte slot decodes to. */
  function DecodeSlot(slot: seq<byte>): (e: DirEntry)
    requires |slot| == 32
    ensures WellFormed(e)
  {
    DirEntry(
      slot[0..8],
      slot[8..11],
      slot[11],
      Le16(slot, 14),
      Le16(slot, 16),
      Le16(slot, 22),
      Le16(slot, 24),
      Le16(slot, 26),
      Le32(slot, 28))
  }

  /** The slot that stores e, with zero in the bytes the decoder does not copy. */
  function EncodeSlot(e: DirEntry): (slot: seq<byte>)
    requires WellFormed(e)
    ensures |slot| == 32
  {
    e.name + e.extension + [e.attributes] + [0, 0]
    + Le16Bytes(e.creationTime) + Le16Bytes(e.creationDate) + [0, 0, 0, 0]
    + Le16Bytes(e.lastWriteTime) + Le16Bytes(e.lastWriteDate) + Le16Bytes(e.firstCluster)
    + Le32Bytes(e.size)
  }

  /** Decoding an encoded entry gives it back. */
  lemma DecodeEncode(e: DirEntry)
    requires WellFormed(e)
    ensures DecodeSlot(EncodeSlot(e)) == e
  {
    var s := EncodeSlot(e);
    assert s[0..8] == e.name && s[8..11] == e.extension;
    assert s[14..16] == Le16Bytes(e.creationTime);
    assert s[16..18] == Le16Bytes(e.creationDate);
    assert s[22..24] == Le16Bytes(e.lastWriteTime);
    assert s[24..26] == Le16Bytes(e.lastWriteDate);
    assert s[26..28] == Le16Bytes(e.firstCluster);
    assert s[28..32] == Le32Bytes(e.size) by {
      var w := Le32Bytes(e.size);
      forall i | 0 <= i < 4
        ensures s[28 + i] == w[i]
      {
      }
    }
  }

  /** Encoding a decoded slot gives back every byte the decoder copies. */
  lemma EncodeDecode(slot: seq<byte>)
    requires |slot| == 32
    ensures forall i :: 0 <= i < 32 && i !in UncopiedSlotBytes ==> EncodeSlot(DecodeSlot(slot))[i] == slot[i]
  {
    var s := EncodeSlot(DecodeSlot(slot));
    Le16Bytes_Le16(slot, 14);
    Le16Bytes_Le16(slot, 16);
    Le16Bytes_Le16(slot, 22);
    Le16Bytes_Le16(slot, 24);
    Le16Bytes_Le16(slot, 26);
    Le32Bytes_Le32(slot, 28);
    assert s[14..16] == slot[14..16] && s[16..18] == slot[16..18];
    assert s[22..24] == slot[22..24] && s[24..26] == slot[24..26] && s[26..28] == slot[26..28];
    assert s[28..32] == slot[28..32];
    forall i | 0 <= i < 32 && i !in UncopiedSlotBytes
      ensures s[i] == slot[i]
    {
      if 14 <= i < 18 {
        assert s[i] == s[14..18][i - 14];
      } else if 22 <= i < 28 {
        assert s[i] == s[22..28][i - 22];
      } else if 28 <= i {
        assert s[i] == s[28..32][i - 28];
      }
    }
  }

  /** The number of whole slots in a buffer. */
  function SlotCount(buf: seq<byte>): (n: nat)
  {
    |buf| / 32
  }

  /** Slot k of a buffer: bytes 32k to 32k+31. */
  function SlotAt(buf: seq<byte>, k: nat): (slot: seq<byte>)
    requires k < SlotCount(buf)
    ensures |slot| == 32
    ensures slot[0] == buf[k * 32] && slot[11] == buf[k * 32 + 11]
  {
    buf[k * 32..k * 32 + 32]
  }

  /**
   * Whether a slot yields an entry: its first byte is not the free marker, its attribute is
   * not the long-name marker, and its first cluster is not the one the filter skips. A slot
   * whose name starts with the deleted marker 0xE5 is kept.
   */
  predicate Kept(slot: seq<byte>, filter: SelfFilter)
    requires |slot| == 32
  {
    && slot[0] != FreeMarker
    && slot[11] != LongNameAttribute
    && !(filter.SkipCluster? && Le16(slot, 26) == filter.cluster)
  }

  /**
   * In terms of the entry it decodes to, a slot is kept exactly when the name does not start
   * with the free marker, the attribute is not the long-name marker, and the first cluster is
   * not the skipped one.
   */
  lemma KeptDecoded(slot: seq<byte>, filter: SelfFilter)
    requires |slot| == 32
    ensures var e := DecodeSlot(slot);
            Kept(slot, filter) <==> e.name[0] != FreeMarker && e.attributes != LongNameAttribute
                                    && !(filter.SkipCluster? && e.firstCluster == filter.cluster)
  {
  }

  /** What one slot contributes to a listing: its entry if it is kept, nothing otherwise. */
  function SlotEntries(slot: seq<byte>, filter: SelfFilter): (r: seq<DirEntry>)
    requires |slot| == 32
    ensures |r| <= 1
    ensures |r| == 1 <==> Kept(slot, filter)
  {
    if Kept(slot, filter) then [DecodeSlot(slot)] else []
  }

  /**
   * The entries of slots k, k+1, ... of a buffer, stopping at the first free slot: the scan
   * loop from slot k on.
   */
  function ScanFrom(buf: seq<byte>, k: nat, filter: SelfFilter): (r: seq<DirEntry>)
    ensures k <= SlotCount(buf) ==> |r| <= SlotCount(buf) - k
    decreases SlotCount(buf) - k
  {
    if k >= SlotCount(buf) || buf[k * 32] == FreeMarker then []
    else SlotEntries(SlotAt(buf, k), filter) + ScanFrom(buf, k + 1, filter)
  }

  /** The entries a buffer lists: every kept slot before the first free one, in slot order. */
  function Scan(buf: seq<byte>, filter: SelfFilter): (r: seq<DirEntry>)
    ensures |r| <= |buf| / 32
  {
    ScanFrom(buf, 0, filter)
  }

  /** The index of the first free slot at or after slot k, or the number of slots when none is free. */
  function FreeFrom(buf: seq<byte>, k: nat): (f: nat)
    ensures k <= SlotCount(buf) ==> k <= f <= SlotCount(buf)
    ensures f < SlotCount(buf) ==> buf[f * 32] == FreeMarker
    ensures forall j :: k <= j < f ==> j < SlotCount(buf) && buf[j * 32] != FreeMarker
    decreases SlotCount(buf) - k
  {
    if k >= SlotCount(buf) || buf[k * 32] == FreeMarker then k else FreeFrom(buf, k + 1)
  }

  /** The index of the first free slot, or the number of slots when none is free. */
  function FirstFreeSlot(buf: seq<byte>): (f: nat)
    ensures f <= SlotCount(buf)
    ensures f < SlotCount(buf) ==> buf[f * 32] == FreeMarker
    ensures forall j :: 0 <= j < f ==> buf[j * 32] != FreeMarker
  {
    FreeFrom(buf, 0)
  }

  /** The entries of slots 0 to n-1, whatever their first bytes: the reference listing. */
  function KeptSlots(buf: seq<byte>, n: nat, filter: SelfFilter): (r: seq<DirEntry>)
    requires n <= SlotCount(buf)
    ensures |r| <= n
  {
    if n == 0 then [] else KeptSlots(buf, n - 1, filter) + SlotEntries(SlotAt(buf, n - 1), filter)
  }

  /** Concatenation is associative. */
  lemma AppendAssociates<T>(a: seq<T>, b: seq<T>, c: seq<T>)
    ensures (a + b) + c == a + (b + c)
  {
  }

  /** Scanning on from slot k adds to the first k slots' entries those of the rest before the first free slot. */
  lemma {:induction false} ScanFromCompletes(buf: seq<byte>, k: nat, filter: SelfFilter)
    requires k <= FirstFreeSlot(buf)
    ensures KeptSlots(buf, k, filter) + ScanFrom(buf, k, filter) == KeptSlots(buf, FirstFreeSlot(buf), filter)
    decreases FirstFreeSlot(buf) - k
  {
    var f := FirstFreeSlot(buf);
    if k < f {
      var front, here, rest := KeptSlots(buf, k, filter), SlotEntries(SlotAt(buf, k), filter), ScanFrom(buf, k + 1, filter);
      assert (front + here) + rest == KeptSlots(buf, f, filter) by {
        assert KeptSlots(buf, k + 1, filter) == front + here;
        ScanFromCompletes(buf, k + 1, filter);
      }
      assert ScanFrom(buf, k, filter) == here + rest by {
        assert buf[k * 32] != FreeMarker;
      }
      AppendAssociates(front, here, rest);
    } else {
      assert ScanFrom(buf, k, filter) == [];
      assert KeptSlots(buf, k, filter) + [] == KeptSlots(buf, k, filter);
    }
  }

  /**
   * The scan lists exactly the kept slots before the first free one, in slot order: it stops
   * at the first free slot and skips nothing else but long-name and filtered slots.
   */
  lemma ScanIsKeptSlots(buf: seq<byte>, filter: SelfFilter)
    ensures Scan(buf, filter) == KeptSlots(buf, FirstFreeSlot(buf), filter)
  {
    ScanFromCompletes(buf, 0, filter);
    assert [] + Scan(buf, filter) == Scan(buf, filter);
  }

  /** Whether slot k of a buffer is kept and decodes to e. */
  predicate ListedAt(buf: seq<byte>, k: nat, filter: SelfFilter, e: DirEntry)
  {
    k < SlotCount(buf) && Kept(SlotAt(buf, k), filter) && e == DecodeSlot(SlotAt(buf, k))
  }

  /** A slot's contribution holds an entry exactly when the slot is kept and decodes to it. */
  lemma SlotEntriesMembers(buf: seq<byte>, k: nat, filter: SelfFilter, e: DirEntry)
    requires k < SlotCount(buf)
    ensures e in SlotEntries(SlotAt(buf, k), filter) <==> ListedAt(buf, k, filter, e)
  {
  }

  /** The concatenation of a sequence of parts, in order. */
  function Flatten<T>(parts: seq<seq<T>>): seq<T>
  {
    if parts == [] then [] else Flatten(parts[..|parts| - 1]) + parts[|parts| - 1]
  }

  /** An element of a concatenation of parts belongs to one of the parts, and conversely. */
  lemma {:induction false} FlattenMembers<T>(parts: seq<seq<T>>, x: T)
    ensures x in Flatten(parts) <==> exists j :: 0 <= j < |parts| && x in parts[j]
  {
    if parts != [] {
      var n := |parts| - 1;
      var front := parts[..n];
      FlattenMembers(front, x);
      assert Flatten(parts) == Flatten(front) + parts[n];
      if x in Flatten(parts) && x in Flatten(front) {
        var j :| 0 <= j < |front| && x in front[j];
        assert x in parts[j];
      }
      if j :| 0 <= j < |parts| && x in parts[j] {
        if j < n {
          assert x in front[j];
        }
      }
    }
  }

  /** The contributions of slots 0 to n-1, one part per slot. */
  function SlotParts(buf: seq<byte>, n: nat, filter: SelfFilter): (parts: seq<seq<DirEntry>>)
    requires n <= SlotCount(buf)
    ensures |parts| == n
  {
    if n == 0 then [] else SlotParts(buf, n - 1, filter) + [SlotEntries(SlotAt(buf, n - 1), filter)]
  }

  /** Appending one element keeps the prefix and puts the element last. */
  lemma AppendOne<T>(a: seq<T>, x: T)
    ensures (a + [x])[..|a|] == a && (a + [x])[|a|] == x
  {
  }

  /** Part k of the first n slots' parts is slot k's contribution. */
  lemma {:induction false} SlotPartsAt(buf: seq<byte>, n: nat, filter: SelfFilter, k: nat)
    requires k < n <= SlotCount(buf)
    ensures SlotParts(buf, n, filter)[k] == SlotEntries(SlotAt(buf, k), filter)
  {
    var front := SlotParts(buf, n - 1, filter);
    AppendOne(front, SlotEntries(SlotAt(buf, n - 1), filter));
    if k < n - 1 {
      SlotPartsAt(buf, n - 1, filter, k);
      assert SlotParts(buf, n, filter)[k] == front[k];
    }
  }

  /** The first n slots' entries are the concatenation of their contributions. */
  lemma {:induction false} KeptSlotsFlatten(buf: seq<byte>, n: nat, filter: SelfFilter)
    requires n <= SlotCount(buf)
    ensures KeptSlots(buf, n, filter) == Flatten(SlotParts(buf, n, filter))
  {
    if n > 0 {
      KeptSlotsFlatten(buf, n - 1, filter);
      AppendOne(SlotParts(buf, n - 1, filter), SlotEntries(SlotAt(buf, n - 1), filter));
    }
  }

  /** An entry is among the first n slots' entries exactly when one of those slots is kept and decodes to it. */
  lemma KeptSlotsMembers(buf: seq<byte>, n: nat, filter: SelfFilter, e: DirEntry)
    requires n <= SlotCount(buf)
    ensures e in KeptSlots(buf, n, filter) <==> exists j :: 0 <= j < n && ListedAt(buf, j, filter, e)
  {
    var parts := SlotParts(buf, n, filter);
    KeptSlotsFlatten(buf, n, filter);
    FlattenMembers(parts, e);
    if j :| 0 <= j < n && e in parts[j] {
      SlotPartsAt(buf, n, filter, j);
      SlotEntriesMembers(buf, j, filter, e);
    }
    if j :| 0 <= j < n && ListedAt(buf, j, filter, e) {
      SlotPartsAt(buf, n, filter, j);
      SlotEntriesMembers(buf, j, filter, e);
    }
  }

  /**
   * An entry is listed exactly when some slot before the first free one is kept and decodes
   * to it; in particular a slot whose name starts with 0xE5 is listed like any other.
   */
  lemma ScanMembers(buf: seq<byte>, filter: SelfFilter, e: DirEntry)
    ensures e in Scan(buf, filter) <==> exists k :: 0 <= k < FirstFreeSlot(buf) && ListedAt(buf, k, filter, e)
  {
    ScanIsKeptSlots(buf, filter);
    KeptSlotsMembers(buf, FirstFreeSlot(buf), filter, e);
  }

  /**
   * Every listed entry has an 8-byte name and a 3-byte extension, is neither free nor a
   * long-name fragment, and is not the entry the filter skips.
   */
  lemma ScanListsOnlyValidEntries(buf: seq<byte>, filter: SelfFilter, e: DirEntry)
    requires e in Scan(buf, filter)
    ensures WellFormed(e) && e.name[0] != FreeMarker && e.attributes != LongNameAttribute
    ensures filter.SkipCluster? ==> e.firstCluster != filter.cluster
  {
    ScanMembers(buf, filter, e);
    var k :| 0 <= k < FirstFreeSlot(buf) && ListedAt(buf, k, filter, e);
  }

  /** The contribution of a slot, in the terms of the scan loop's own test. */
  lemma SlotEntriesTest(slot: seq<byte>, filter: SelfFilter)
    requires |slot| == 32
    ensures var e := DecodeSlot(slot);
            SlotEntries(slot, filter) ==
              if slot[0] != FreeMarker && slot[11] != LongNameAttribute
                 && !(filter.SkipCluster? && filter.cluster == e.firstCluster)
              then [e] else []
  {
  }

  /** The scan loop: one pass over the slots of a buffer, stopping at the first free one. */
  method ScanBuffer(buf: seq<byte>, filter: SelfFilter) returns (entries: seq<DirEntry>)
    requires |buf| % 32 == 0
    ensures entries == Scan(buf, filter)
  {
    entries := [];
    var i := 0;
    ghost var k := 0;
    ghost var n := SlotCount(buf);
    ghost var f := FirstFreeSlot(buf);
    assert |buf| == n * 32;
    while i < |buf|
      invariant k <= f && i == k * 32
      invariant entries == KeptSlots(buf, k, filter)
      decreases |buf| - i
    {
      assert k < n && i + 32 <= |buf|;
      var slot := buf[i..i + 32];
      assert slot == SlotAt(buf, k);
      if buf[i] == FreeMarker {
        break;
      }
      assert k < f;
      SlotEntriesTest(slot, filter);
      if buf[i + 11] != LongNameAttribute {
        var e := DecodeSlot(slot);
        if !(filter.SkipCluster? && filter.cluster == e.firstCluster) {
          entries := entries + [e];
        } else {
          assert entries + [] == entries;
        }
      } else {
        assert entries + [] == entries;
      }
      i, k := i + 32, k + 1;
    }
    assert k == f;
    ScanIsKeptSlots(buf, filter);
  }
}
