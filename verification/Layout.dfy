/** The BIOS parameter block and where it places the tables, the root directory and the clusters. */
module Layout {
  import opened Bytes
  import opened Disk
  import opened Arithmetic

  const ENTRIES_PER_FAT_SECTOR := 256
  const SLOTS_PER_SECTOR := 16
  const SLOT_SIZE := 32

  datatype Bpb = Bpb(
    jump: seq<byte>,
    oemName: seq<byte>,
    bytesPerSector: u16,
    sectorsPerCluster: byte,
    reservedSectors: u16,
    fatCount: byte,
    rootEntries: u16,
    totalSectors16: u16,
    mediaType: byte,
    sectorsPerFat: u16)

  /** The packed structure at the start of the boot sector. */
  function ParseBpb(s: seq<byte>): Bpb
    requires |s| >= 24
  {
    Bpb(s[0..3], s[3..11], FromLe16(s[11], s[12]), s[13], FromLe16(s[14], s[15]), s[16],
        FromLe16(s[17], s[18]), FromLe16(s[19], s[20]), s[21], FromLe16(s[22], s[23]))
  }

  /** The fields in the order in which they are stored. */
  function EncodeBpb(b: Bpb): seq<byte> {
    b.jump + b.oemName + ToLe16(b.bytesPerSector) + [b.sectorsPerCluster] + ToLe16(b.reservedSectors) + [b.fatCount]
    + ToLe16(b.rootEntries) + ToLe16(b.totalSectors16) + [b.mediaType] + ToLe16(b.sectorsPerFat)
  }

  /** What was stored is what mounting reads, whatever follows it in the sector. */
  lemma ParseEncodeBpb(b: Bpb, rest: seq<byte>)
    requires |b.jump| == 3 && |b.oemName| == 8
    ensures |EncodeBpb(b)| == 24 && ParseBpb(EncodeBpb(b) + rest) == b
  {
    var fields := EncodeBpb(b);
    assert |fields| == 24 && ParseBpb(fields) == b by {
      assert fields[0..3] == b.jump;
      assert fields[3..11] == b.oemName;
    }
    var s := fields + rest;
    assert s[0..3] == fields[0..3] && s[3..11] == fields[3..11];
  }

  /** Where the fields lie in the boot sector: byte positions and numbers with the low byte first. */
  predicate HoldsBpb(s: seq<byte>, b: Bpb)
    requires |s| >= 24
  {
    && b.jump == s[0..3] && b.oemName == s[3..11]
    && b.bytesPerSector == s[11] as int + 256 * s[12] as int && b.sectorsPerCluster == s[13]
    && b.reservedSectors == s[14] as int + 256 * s[15] as int && b.fatCount == s[16]
    && b.rootEntries == s[17] as int + 256 * s[18] as int && b.totalSectors16 == s[19] as int + 256 * s[20] as int
    && b.mediaType == s[21] && b.sectorsPerFat == s[22] as int + 256 * s[23] as int
  }

  /**
   * The geometries for which none of the 16-bit products of the source overflow and the regions of
   * the volume do not overlap. The source checks only the sector size.
   */
  predicate GoodBpb(b: Bpb) {
    && b.bytesPerSector == SECTOR_SIZE
    && 1 <= b.sectorsPerCluster
    && 1 <= b.reservedSectors
    && 1 <= b.fatCount
    && b.rootEntries <= 2032
    && 1 <= b.sectorsPerFat <= 255
  }

  function RootDirSectors(b: Bpb): nat {
    (b.rootEntries * SLOT_SIZE + 511) / SECTOR_SIZE
  }

  function RootDirStart(b: Bpb): nat {
    b.reservedSectors + b.fatCount * b.sectorsPerFat
  }

  function FirstDataSector(b: Bpb): nat {
    RootDirStart(b) + RootDirSectors(b)
  }

  function ClusterToLba(b: Bpb, cluster: nat): nat
    requires 2 <= cluster
  {
    FirstDataSector(b) + (cluster - 2) * b.sectorsPerCluster
  }

  /** The number of entries of one FAT. */
  function ClusterCount(b: Bpb): nat {
    ENTRIES_PER_FAT_SECTOR * b.sectorsPerFat
  }

  function SlotCount(b: Bpb): nat {
    SLOTS_PER_SECTOR * RootDirSectors(b)
  }

  function BytesPerCluster(b: Bpb): nat {
    b.sectorsPerCluster * SECTOR_SIZE
  }

  /** The drive is at least large enough for everything in front of the data region. */
  predicate MetadataFits(b: Bpb, d: Image) {
    GoodBpb(b) && FirstDataSector(b) <= |d|
  }

  predicate IsCluster(b: Bpb, c: nat) {
    2 <= c < ClusterCount(b)
  }

  /** All sectors of cluster number `c` exist on a drive of `size` sectors, whether or not the FAT has an entry for it. */
  predicate Fits(b: Bpb, size: nat, c: nat) {
    2 <= c && ClusterToLba(b, c) + b.sectorsPerCluster <= size
  }

  /** Cluster `c` exists in the FAT and on a drive of `size` sectors. */
  predicate OnDisk(b: Bpb, size: nat, c: nat) {
    IsCluster(b, c) && Fits(b, size, c)
  }

  /** The FAT starts after the boot sector and the root directory starts after the first FAT. */
  lemma FatBeforeRoot(b: Bpb)
    requires GoodBpb(b)
    ensures b.reservedSectors + b.sectorsPerFat <= RootDirStart(b) <= FirstDataSector(b)
  {
    MulGrows(1, b.fatCount, b.sectorsPerFat);
  }

  /** Clusters lie behind the boot sector, the FATs and the root directory. */
  lemma ClusterBehindMetadata(b: Bpb, c: nat)
    requires GoodBpb(b) && IsCluster(b, c)
    ensures FirstDataSector(b) <= ClusterToLba(b, c)
  {
    MulGrows(0, c - 2, b.sectorsPerCluster);
  }

  /** Cluster numbers advance by at least one sector each. */
  lemma ClusterDistance(b: Bpb, c: nat)
    requires GoodBpb(b) && 2 <= c
    ensures FirstDataSector(b) + (c - 2) <= ClusterToLba(b, c)
  {
    MulGrows(1, b.sectorsPerCluster, c - 2);
  }

  lemma ClusterOrder(b: Bpb, c: nat, c': nat)
    requires 2 <= c < c'
    ensures ClusterToLba(b, c) + b.sectorsPerCluster <= ClusterToLba(b, c')
  {
    MulGrows(c - 1, c' - 2, b.sectorsPerCluster);
    MulNext(c - 2, b.sectorsPerCluster);
  }

  /** Distinct clusters occupy disjoint sector ranges. */
  lemma ClustersDisjoint(b: Bpb, c: nat, c': nat, lba: nat)
    requires 2 <= c && 2 <= c' && c != c'
    requires ClusterToLba(b, c) <= lba < ClusterToLba(b, c) + b.sectorsPerCluster
    ensures !(ClusterToLba(b, c') <= lba < ClusterToLba(b, c') + b.sectorsPerCluster)
  {
    if c < c' {
      ClusterOrder(b, c, c');
    } else {
      ClusterOrder(b, c', c);
    }
  }
}
