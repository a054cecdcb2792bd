/** The file allocation table as it is stored in sectors, and the table of numbers it stands for. */
module FatTable {
  import opened Bytes
  import opened Disk
  import opened Layout

  const FREE: u16 := 0x0000
  const END_OF_CHAIN: u16 := 0xFFFF
  const FIRST_END_MARK: u16 := 0xFFF8

  /** The drive holds the sectors of FAT entries `0..n`. */
  predicate FatFits(b: Bpb, d: Image, n: nat) {
    n <= 0x1_0000 && b.reservedSectors + (n + 255) / ENTRIES_PER_FAT_SECTOR <= |d|
  }

  function FatSector(b: Bpb, c: nat): nat {
    b.reservedSectors + c / ENTRIES_PER_FAT_SECTOR
  }

  function FatOffset(c: nat): (o: nat)
    ensures o + 1 < SECTOR_SIZE
  {
    2 * (c % ENTRIES_PER_FAT_SECTOR)
  }

  /** The two bytes of entry `c`, read as a little-endian number. */
  function FatEntry(b: Bpb, d: Image, c: nat): u16
    requires FatSector(b, c) < |d|
  {
    FromLe16(d[FatSector(b, c)][FatOffset(c)], d[FatSector(b, c)][FatOffset(c) + 1])
  }

  lemma EntryPlace(b: Bpb, s: nat, i: nat)
    requires i < 256
    ensures FatSector(b, s * 256 + i) == b.reservedSectors + s && FatOffset(s * 256 + i) == 2 * i
  {
    assert (s * 256 + i) / 256 == s && (s * 256 + i) % 256 == i;
  }

  /** Entries `0..n` of the table, as numbers. */
  function FatPrefix(b: Bpb, d: Image, n: nat): seq<u16>
    requires FatFits(b, d, n)
  {
    seq(n, c requires 0 <= c < n => FatEntry(b, d, c))
  }

  lemma FullFatFits(b: Bpb, d: Image)
    requires MetadataFits(b, d)
    ensures FatFits(b, d, ClusterCount(b))
  {
    FatBeforeRoot(b);
  }

  /** The whole first FAT, the only copy the file system reads or writes. */
  function Fat(b: Bpb, d: Image): (fat: seq<u16>)
    requires MetadataFits(b, d)
    ensures |fat| == ClusterCount(b) && FatFits(b, d, ClusterCount(b))
  {
    FullFatFits(b, d);
    FatPrefix(b, d, ClusterCount(b))
  }

  /** A cluster that fits on the drive lies behind the sector of its FAT entry, even past the end of the table. */
  lemma EntryBeforeCluster(b: Bpb, size: nat, c: nat)
    requires GoodBpb(b) && Fits(b, size, c)
    ensures FatSector(b, c) < size
  {
    FatBeforeRoot(b);
    ClusterDistance(b, c);
    assert c / ENTRIES_PER_FAT_SECTOR <= c - 2;
  }

  function PatchedSector(s: Sector, offset: nat, v: u16): (s': Sector)
    requires offset + 1 < SECTOR_SIZE
  {
    s[offset := v % 0x100][offset + 1 := v / 0x100]
  }

  /** The image after entry `c` has been set to `v`. */
  function WithFatEntry(b: Bpb, d: Image, c: nat, v: u16): (d': Image)
    requires FatSector(b, c) < |d|
    ensures |d'| == |d|
  {
    d[FatSector(b, c) := PatchedSector(d[FatSector(b, c)], FatOffset(c), v)]
  }

  /** The bytes refine a table of numbers: setting one entry changes that entry and no other. */
  lemma SetThenGet(b: Bpb, d: Image, n: nat, c: nat, v: u16)
    requires c < n && FatFits(b, d, n)
    ensures FatPrefix(b, WithFatEntry(b, d, c, v), n) == FatPrefix(b, d, n)[c := v]
  {
    var d' := WithFatEntry(b, d, c, v);
    forall k | 0 <= k < n
      ensures FatEntry(b, d', k) == if k == c then v else FatEntry(b, d, k)
    {
      if FatSector(b, k) == FatSector(b, c) {
        assert k == c || FatOffset(k) != FatOffset(c);
        assert FatOffset(k) % 2 == 0 && FatOffset(c) % 2 == 0;
      }
    }
  }

  /** Setting an entry of the first FAT leaves the boot sector, the root directory and all clusters alone. */
  lemma SetTouchesFatOnly(b: Bpb, d: Image, c: nat, v: u16, lba: nat)
    requires MetadataFits(b, d) && c < ClusterCount(b) && lba < |d|
    requires lba < b.reservedSectors || RootDirStart(b) <= lba
    ensures FatSector(b, c) < |d| && WithFatEntry(b, d, c, v)[lba] == d[lba]
  {
    FatBeforeRoot(b);
  }

  // ----- Free clusters -----

  /** The free entries from `c` on, in ascending order. */
  function FreeFrom(fat: seq<u16>, c: nat): (free: seq<nat>)
    requires c <= |fat|
    ensures |free| <= |fat| - c
    decreases |fat| - c
  {
    if c == |fat| then []
    else if fat[c] == FREE then [c] + FreeFrom(fat, c + 1)
    else FreeFrom(fat, c + 1)
  }

  function FreeClusters(fat: seq<u16>): (free: seq<nat>)
    ensures |free| <= |fat|
  {
    FreeFrom(fat, 0)
  }

  predicate Ascending(s: seq<nat>) {
    forall i, j :: 0 <= i < j < |s| ==> s[i] < s[j]
  }

  lemma {:induction false} ListedIsFree(fat: seq<u16>, from: nat)
    requires from <= |fat|
    ensures var free := FreeFrom(fat, from);
      Ascending(free) && forall i :: 0 <= i < |free| ==> from <= free[i] < |fat| && fat[free[i]] == FREE
    decreases |fat| - from
  {
    if from == |fat| {
    } else {
      ListedIsFree(fat, from + 1);
    }
  }

  lemma {:induction false} FreeIsListed(fat: seq<u16>, from: nat, c: nat)
    requires from <= c < |fat| && fat[c] == FREE
    ensures c in FreeFrom(fat, from)
    decreases c - from
  {
    if from == c {
    } else {
      FreeIsListed(fat, from + 1, c);
    }
  }

  /** `FreeClusters` lists exactly the free entries, smallest first. */
  lemma FreeClustersAreFree(fat: seq<u16>)
    ensures Ascending(FreeClusters(fat))
    ensures forall c :: c in FreeClusters(fat) <==> 0 <= c < |fat| && fat[c] == FREE
  {
    ListedIsFree(fat, 0);
    forall c | 0 <= c < |fat| && fat[c] == FREE ensures c in FreeClusters(fat) {
      FreeIsListed(fat, 0, c);
    }
  }

  lemma {:induction false} FreeFromSkips(fat: seq<u16>, from: nat, c: nat)
    requires from <= c <= |fat| && forall k :: from <= k < c ==> fat[k] != FREE
    ensures FreeFrom(fat, from) == FreeFrom(fat, c)
    decreases c - from
  {
    if from == c {
    } else {
      FreeFromSkips(fat, from + 1, c);
    }
  }

  lemma {:induction false} FreeFromFrame(fat: seq<u16>, fat': seq<u16>, from: nat)
    requires |fat| == |fat'| && from <= |fat|
    requires forall k :: from <= k < |fat| ==> (fat[k] == FREE <==> fat'[k] == FREE)
    ensures FreeFrom(fat, from) == FreeFrom(fat', from)
    decreases |fat| - from
  {
    if from == |fat| {
    } else {
      FreeFromFrame(fat, fat', from + 1);
    }
  }

  ghost predicate NoneFree(fat: seq<u16>, n: nat)
    requires n <= |fat|
  {
    forall k :: 0 <= k < n ==> fat[k] != FREE
  }

  /** Entry `i` of one sector of the table. */
  function SectorEntry(s: Sector, i: nat): u16
    requires i < ENTRIES_PER_FAT_SECTOR
  {
    FromLe16(s[2 * i], s[2 * i + 1])
  }

  ghost predicate NoZeroEntry(s: Sector, n: nat)
    requires n <= ENTRIES_PER_FAT_SECTOR
  {
    forall k :: 0 <= k < n ==> SectorEntry(s, k) != FREE
  }

  lemma EntryInSector(b: Bpb, d: Image, s: nat, i: nat)
    requires MetadataFits(b, d) && s < b.sectorsPerFat && i < 256
    ensures b.reservedSectors + s < |d| && s * 256 + i < ClusterCount(b)
    ensures Fat(b, d)[s * 256 + i] == SectorEntry(d[b.reservedSectors + s], i)
  {
    FatBeforeRoot(b);
    EntryPlace(b, s, i);
    assert Fat(b, d)[s * 256 + i] == FatEntry(b, d, s * 256 + i);
  }

  /** No entry up to entry `i` of sector `s` is free; if that one is, it is the first free cluster. */
  lemma FatSectorScanned(b: Bpb, d: Image, s: nat, i: nat)
    requires MetadataFits(b, d) && s < b.sectorsPerFat && i <= 256 && b.reservedSectors + s < |d|
    requires s * 256 + 256 <= ClusterCount(b) && NoneFree(Fat(b, d), s * 256)
    requires NoZeroEntry(d[b.reservedSectors + s], i)
    ensures NoneFree(Fat(b, d), s * 256 + i)
    ensures i < 256 && SectorEntry(d[b.reservedSectors + s], i) == FREE ==>
      var free := FreeClusters(Fat(b, d)); free != [] && free[0] == s * 256 + i
  {
    var fat := Fat(b, d);
    forall k | 0 <= k < s * 256 + i ensures fat[k] != FREE {
      if s * 256 <= k {
        EntryInSector(b, d, s, k - s * 256);
      }
    }
    if i < 256 {
      EntryInSector(b, d, s, i);
      FreeFromSkips(fat, 0, s * 256 + i);
    }
  }

  /** Allocating the first free cluster removes it from the front of the list. */
  lemma TakeFirstFree(fat: seq<u16>, v: u16)
    requires FreeClusters(fat) != [] && v != FREE
    ensures FreeClusters(fat)[0] < |fat| && fat[FreeClusters(fat)[0]] == FREE
    ensures FreeClusters(fat[FreeClusters(fat)[0] := v]) == FreeClusters(fat)[1..]
  {
    FreeClustersAreFree(fat);
    var c := FreeClusters(fat)[0];
    assert c in FreeClusters(fat);
    var fat' := fat[c := v];
    forall k | 0 <= k < c ensures fat[k] != FREE {
      assert k !in FreeClusters(fat);
    }
    FreeFromSkips(fat, 0, c);
    FreeFromSkips(fat', 0, c + 1);
    FreeFromFrame(fat, fat', c + 1);
  }

  /** Relinking an allocated entry does not change which entries are free. */
  lemma RelinkKeepsFree(fat: seq<u16>, c: nat, v: u16)
    requires c < |fat| && fat[c] != FREE && v != FREE
    ensures FreeClusters(fat[c := v]) == FreeClusters(fat)
  {
    FreeFromFrame(fat, fat[c := v], 0);
  }

  lemma {:induction false} ReleaseCounts(fat: seq<u16>, from: nat, c: nat)
    requires from <= c < |fat| && fat[c] != FREE
    ensures |FreeFrom(fat[c := FREE], from)| == |FreeFrom(fat, from)| + 1
    decreases c - from
  {
    if from == c {
      FreeFromFrame(fat, fat[c := FREE], c + 1);
    } else {
      ReleaseCounts(fat, from + 1, c);
    }
  }
}
