/**
 * The File Allocation Table of a FAT12 volume: 12-bit entries, two packed into every three
 * bytes (section "FAT Data Structure" of Microsoft's "FAT: General Overview of On-Disk
 * Format", version 1.03), and the cluster chains they link.
 */
module FatTable {
  import opened Bytes

  /** Entry values from here up to 0xFFF end a chain (reserved, bad cluster, end of chain). */
  const EndOfChainMin: u16 := 0xFF7

  /**
   * A walk visits its start cluster and then only clusters below 0xFF7, of which there are
   * 0xFF7; a walk that has not ended after this many clusters has visited some cluster twice.
   */
  const MaxChainLength: nat := 0xFF8

  /** Index of the first of the two bytes holding entry n. */
  function EntryOffset(n: u16): (k: nat)
  {
    3 * n / 2
  }

  /** Whether both bytes of entry n lie inside the table; the source indexes without checking. */
  predicate InTable(fat: seq<byte>, n: u16)
  {
    EntryOffset(n) + 1 < |fat|
  }

  /** Whether an entry value ends a chain. */
  predicate EndsChain(e: u16)
  {
    e >= EndOfChainMin
  }

  /**
   * FAT entry n, the cluster that follows cluster n. For even n it is the low nibble of byte
   * 3n/2+1 above byte 3n/2; for odd n it is byte 3n/2+1 above the high nibble of byte 3n/2.
   */
  function NextCluster(fat: seq<byte>, n: u16): (e: u16)
    requires InTable(fat, n)
    ensures e <= 0xFFF
  {
    var k := EntryOffset(n);
    var lo: int, hi: int := fat[k], fat[k + 1];
    if n % 2 == 0 then
      (hi % 0x10) * 0x100 + lo  // (fat[k+1] & 0x0F) << 8 | fat[k]
    else
      hi * 0x10 + lo / 0x10     // fat[k+1] << 4 | (fat[k] & 0xF0) >> 4
  }

  /** Entry n depends on the two bytes at 3n/2 and 3n/2+1 and on nothing else in the table. */
  lemma NextClusterReadsTwoBytes(fat: seq<byte>, other: seq<byte>, n: u16)
    requires InTable(fat, n) && InTable(other, n)
    requires fat[EntryOffset(n)] == other[EntryOffset(n)]
    requires fat[EntryOffset(n) + 1] == other[EntryOffset(n) + 1]
    ensures NextCluster(fat, n) == NextCluster(other, n)
  {
  }

  /** The three bytes holding entry a in an even slot and entry b in the odd slot after it. */
  function Pack(a: u16, b: u16): (r: seq<byte>)
    requires a <= 0xFFF && b <= 0xFFF
    ensures |r| == 3
  {
    [a % 0x100, a / 0x100 + (b % 0x10) * 0x10, b / 0x10]
  }

  /** An even entry offset and the odd one after it are three bytes apart, starting at 3n/2. */
  lemma PairOffsets(n: u16)
    requires n % 2 == 0 && n < 0xFFFF
    ensures EntryOffset(n) * 2 == 3 * n
    ensures EntryOffset(n + 1) == EntryOffset(n) + 1
  {
    var m: nat := n / 2;
    assert n == 2 * m;
    assert 3 * n == 2 * (3 * m);
    assert EntryOffset(n) == 3 * m;
    assert 3 * (n + 1) == 2 * (3 * m + 1) + 1;
    assert EntryOffset(n + 1) == 3 * m + 1;
  }

  /** Decoding the slots of a packed pair gives back the two packed values. */
  lemma PackThenDecode(fat: seq<byte>, n: u16, a: u16, b: u16)
    requires a <= 0xFFF && b <= 0xFFF
    requires n % 2 == 0 && n < 0xFFFF
    requires EntryOffset(n) + 3 <= |fat|
    requires fat[EntryOffset(n)..EntryOffset(n) + 3] == Pack(a, b)
    ensures InTable(fat, n) && InTable(fat, n + 1)
    ensures NextCluster(fat, n) == a && NextCluster(fat, n + 1) == b
  {
    PairOffsets(n);
    var k := EntryOffset(n);
    assert fat[k] == a % 0x100 && fat[k + 1] == a / 0x100 + (b % 0x10) * 0x10 && fat[k + 2] == b / 0x10;
  }

  /** Packing the two decoded entries of a slot pair gives back the three bytes they came from. */
  lemma DecodeThenPack(fat: seq<byte>, n: u16)
    requires n % 2 == 0 && n < 0xFFFF
    requires EntryOffset(n) + 3 <= |fat|
    ensures InTable(fat, n) && InTable(fat, n + 1)
    ensures Pack(NextCluster(fat, n), NextCluster(fat, n + 1)) == fat[EntryOffset(n)..EntryOffset(n) + 3]
  {
    PairOffsets(n);
    var k := EntryOffset(n);
    var a, b := NextCluster(fat, n), NextCluster(fat, n + 1);
    var b0: int, b1: int, b2: int := fat[k], fat[k + 1], fat[k + 2];
    assert a == (b1 % 0x10) * 0x100 + b0;
    assert b == b2 * 0x10 + b1 / 0x10;
  }

  /**
   * Whether `cs` is a complete chain: every cluster's entry is inside the table, each entry
   * but the last names the next cluster and is below 0xFF7, and the last entry ends the chain.
   */
  ghost predicate IsChain(fat: seq<byte>, cs: seq<u16>)
    decreases |cs|
  {
    && |cs| >= 1
    && InTable(fat, cs[0])
    && if |cs| == 1 then EndsChain(NextCluster(fat, cs[0]))
       else NextCluster(fat, cs[0]) == cs[1] && !EndsChain(cs[1]) && IsChain(fat, cs[1..])
  }

  /**
   * The clusters a walk from c visits, in order; empty when an entry lies outside the table or
   * the chain has not ended within `fuel` clusters.
   */
  function ChainFrom(fat: seq<byte>, c: u16, fuel: nat): (cs: seq<u16>)
    ensures cs != [] ==> |cs| <= fuel && cs[0] == c && IsChain(fat, cs)
    decreases fuel
  {
    if fuel == 0 || !InTable(fat, c) then []
    else
      var next := NextCluster(fat, c);
      if EndsChain(next) then [c]
      else
        var rest := ChainFrom(fat, next, fuel - 1);
        if rest == [] then [] else [c] + rest
  }

  /** A complete chain that fits the fuel is exactly what the walk from its first cluster visits. */
  lemma {:induction false} ChainFromFindsChain(fat: seq<byte>, cs: seq<u16>, fuel: nat)
    requires IsChain(fat, cs) && |cs| <= fuel
    ensures ChainFrom(fat, cs[0], fuel) == cs
    decreases |cs|
  {
    if |cs| > 1 {
      ChainFromFindsChain(fat, cs[1..], fuel - 1);
      assert [cs[0]] + cs[1..] == cs;
    }
  }

  /**
   * The clusters a walk from c passes through in n steps: c, its FAT entry, that entry's entry
   * and so on, stopping early at a cluster whose entry lies outside the table.
   */
  function Trail(fat: seq<byte>, c: u16, n: nat): (t: seq<u16>)
    ensures 1 <= |t| <= n + 1 && t[0] == c
    ensures forall k :: 0 <= k < |t| - 1 ==> InTable(fat, t[k]) && t[k + 1] == NextCluster(fat, t[k])
    decreases n
  {
    if n == 0 || !InTable(fat, c) then [c] else [c] + Trail(fat, NextCluster(fat, c), n - 1)
  }

  /** The values a sequence holds. */
  function Values(s: seq<u16>): (vs: set<int>)
    ensures forall i :: 0 <= i < |s| ==> s[i] as int in vs
    ensures forall v :: v in vs ==> exists i :: 0 <= i < |s| && s[i] == v
  {
    if s == [] then {} else {s[0] as int} + Values(s[1..])
  }

  /** The numbers 0 to bound - 1. */
  function Below(bound: nat): (vs: set<int>)
    ensures |vs| == bound
    ensures forall v :: v in vs <==> 0 <= v < bound
  {
    if bound == 0 then {} else Below(bound - 1) + {bound - 1}
  }

  /** Whether no value occurs twice in a sequence. */
  predicate Distinct(s: seq<u16>)
  {
    forall i, j :: 0 <= i < j < |s| ==> s[i] != s[j]
  }

  /** A sequence without repeated values holds as many values as it has elements. */
  lemma {:induction false} DistinctValues(s: seq<u16>)
    requires Distinct(s)
    ensures |Values(s)| == |s|
  {
    if s != [] {
      var rest := s[1..];
      assert Distinct(rest) by {
        forall i, j | 0 <= i < j < |rest|
          ensures rest[i] != rest[j]
        {
          assert rest[i] == s[i + 1] && rest[j] == s[j + 1];
        }
      }
      DistinctValues(rest);
      forall i | 0 <= i < |rest|
        ensures rest[i] != s[0]
      {
        assert rest[i] == s[i + 1];
      }
      assert s[0] as int !in Values(rest);
    }
  }

  /** More values than there are numbers below `bound`, all below it, cannot all be different. */
  lemma Pigeonhole(s: seq<u16>, bound: nat)
    requires |s| > bound
    requires forall i :: 0 <= i < |s| ==> s[i] < bound
    ensures exists i, j :: 0 <= i < j < |s| && s[i] == s[j]
  {
    if Distinct(s) {
      DistinctValues(s);
      assert Values(s) <= Below(bound);
      SubsetSize(Values(s), Below(bound));
      assert false;
    }
  }

  /** A subset is no larger than the set containing it. */
  lemma SubsetSize(a: set<int>, b: set<int>)
    requires a <= b
    ensures |a| <= |b|
  {
    assert b == a + (b - a);
  }
}
