/** Formatting a drive and mounting it. */
module Format {
  import opened Basics
  import opened Bytes
  import opened Disk
  import opened Layout
  import opened FatTable
  import opened Directory
  import opened Volume

  /** The geometry that formatting lays down. */
  function FormattedBpb(): Bpb {
    Bpb([0xEB, 0x3C, 0x90], [0x6D, 0x79, 0x4F, 0x53, 0x20, 0x20, 0x20, 0x20], 512, 4, 1, 2, 512, 65535, 0xF8, 64)
  }

  function ZeroSector(): Sector {
    seq(SECTOR_SIZE, _ => 0)
  }

  /** Sector `k` of a fresh FAT: the first one carries the two reserved entries. */
  function FreshFatSector(k: nat): Sector {
    if k == 0 then ZeroSector()[0 := 0xF8][1 := 0xFF][2 := 0xFF][3 := 0xFF] else ZeroSector()
  }

  /** The boot sector, both FATs and the root directory are those of an empty volume. */
  ghost predicate FreshVolume(d: Image) {
    && 161 <= |d|
    && ParseBpb(d[0]) == FormattedBpb()
    && HoldsFat(d, 1) && HoldsFat(d, 65)
    && (forall lba :: 129 <= lba < 161 ==> d[lba] == ZeroSector())
  }

  method MakeBootSector() returns (s: Sector)
    ensures ParseBpb(s) == FormattedBpb() && s[510] == 0x55 && s[511] == 0xAA
    ensures s[0..3] == [0xEB, 0x3C, 0x90] && s[3..11] == [0x6D, 0x79, 0x4F, 0x53, 0x20, 0x20, 0x20, 0x20]
    ensures s[11..13] == [0, 2] && s[13] == 4 && s[14..16] == [1, 0] && s[16] == 2 && s[17..19] == [0, 2]
    ensures s[19..21] == [0xFF, 0xFF] && s[21] == 0xF8 && s[22..24] == [64, 0]
    ensures forall k :: 24 <= k < 510 ==> s[k] == 0
  {
    var rest: seq<byte> := seq(486, _ => 0) + [0x55, 0xAA];
    ParseEncodeBpb(FormattedBpb(), rest);
    s := EncodeBpb(FormattedBpb()) + rest;
  }

  method FormatDrive(drive: AtaDrive)
    requires 161 <= |drive.sectors|
    modifies drive
    ensures |drive.sectors| == |old(drive.sectors)|
    ensures FreshVolume(drive.sectors) && drive.sectors[0][510] == 0x55 && drive.sectors[0][511] == 0xAA
    ensures drive.sectors[161..] == old(drive.sectors)[161..]
  {
    ghost var d0 := drive.sectors;
    var boot := MakeBootSector();
    drive.WriteSector(0, boot);
    for fat := 0 to 2
      invariant |drive.sectors| == |d0| && drive.sectors[0] == boot
      invariant forall lba :: 161 <= lba < |d0| ==> drive.sectors[lba] == d0[lba]
      invariant fat > 0 ==> HoldsFat(drive.sectors, 1)
      invariant fat > 1 ==> HoldsFat(drive.sectors, 65)
    {
      WriteFreshFat(drive, 1 + fat * 64);
    }
    ghost var d1 := drive.sectors;
    for k := 0 to 32
      invariant |drive.sectors| == |d0|
      invariant forall lba :: 0 <= lba < |d0| ==>
        drive.sectors[lba] == if 129 <= lba < 129 + k then ZeroSector() else d1[lba]
    {
      drive.WriteSector(129 + k, ZeroSector());
    }
  }

  /** A fresh copy of the FAT starts at sector `start`. */
  ghost predicate HoldsFat(d: Image, start: nat) {
    start + 64 <= |d| && forall lba :: start <= lba < start + 64 ==> d[lba] == FreshFatSector(lba - start)
  }

  /** Writes one copy of the FAT. */
  method WriteFreshFat(drive: AtaDrive, start: nat)
    requires start + 64 <= |drive.sectors|
    modifies drive
    ensures |drive.sectors| == |old(drive.sectors)| && HoldsFat(drive.sectors, start)
    ensures forall lba :: 0 <= lba < |drive.sectors| && !(start <= lba < start + 64) ==>
              drive.sectors[lba] == old(drive.sectors)[lba]
  {
    ghost var d0 := drive.sectors;
    for offset := 0 to 64
      invariant |drive.sectors| == |d0|
      invariant forall lba :: 0 <= lba < |d0| ==>
        drive.sectors[lba] == if start <= lba < start + offset then FreshFatSector(lba - start) else d0[lba]
    {
      drive.WriteSector(start + offset, FreshFatSector(offset));
    }
  }

  /** Reads the boot sector; a volume with another sector size is not mounted. */
  method Mount(drive: AtaDrive) returns (r: Option<Bpb>)
    requires 0 < |drive.sectors|
    ensures var b := ParseBpb(drive.sectors[0]);
      r == if b.bytesPerSector == 512 then Some(b) else None
    ensures var s := drive.sectors[0];
      && (r.Some? <==> s[11] as int + 256 * s[12] as int == 512)
      && (r.Some? ==> HoldsBpb(s, r.value))
  {
    var buffer := drive.ReadSector(0);
    var b := ParseBpb(buffer);
    if b.bytesPerSector != 512 {
      return None;
    }
    r := Some(b);
  }

  // ----- A formatted volume is consistent and empty -----

  lemma {:induction false} AllFreeFrom(fat: seq<u16>, from: nat)
    requires from <= |fat| && forall k :: from <= k < |fat| ==> fat[k] == FREE
    ensures |FreeFrom(fat, from)| == |fat| - from
    ensures forall k :: 0 <= k < |fat| - from ==> FreeFrom(fat, from)[k] == from + k
    decreases |fat| - from
  {
    if from == |fat| {
    } else {
      AllFreeFrom(fat, from + 1);
    }
  }

  lemma FreshFatEntries(d: Image)
    requires FreshVolume(d)
    ensures MetadataFits(FormattedBpb(), d)
    ensures Fat(FormattedBpb(), d)[0] == 0xFFF8 && Fat(FormattedBpb(), d)[1] == 0xFFFF
    ensures forall c :: 2 <= c < 16384 ==> Fat(FormattedBpb(), d)[c] == FREE
  {
    var b := FormattedBpb();
    forall c | 0 <= c < 16384
      ensures FatEntry(b, d, c) == if c == 0 then 0xFFF8 else if c == 1 then 0xFFFF else FREE
    {
      assert d[1 + c / 256] == FreshFatSector(c / 256);
    }
  }

  lemma FreshSlots(d: Image)
    requires FreshVolume(d)
    ensures MetadataFits(FormattedBpb(), d) && SlotCount(FormattedBpb()) == 512
    ensures forall i :: 0 <= i < 512 ==> Slots(FormattedBpb(), d)[i][0] == UNUSED
  {
    forall i | 0 <= i < 512 ensures Slots(FormattedBpb(), d)[i][0] == UNUSED {
      assert d[129 + i / 16] == ZeroSector();
    }
  }

  lemma FreshFree(fat: seq<u16>)
    requires |fat| == 16384 && fat[0] != FREE && fat[1] != FREE && forall c :: 2 <= c < 16384 ==> fat[c] == FREE
    ensures |FreeClusters(fat)| == 16382 && forall k :: 0 <= k < 16382 ==> FreeClusters(fat)[k] == k + 2
  {
    FreeFromSkips(fat, 0, 2);
    AllFreeFrom(fat, 2);
  }

  lemma EmptyDirectoryIsConsistent(b: Bpb, size: nat, fat: seq<u16>, slots: seq<SlotBytes>)
    requires |fat| == ClusterCount(b) <= FIRST_END_MARK && |fat| >= 2 && fat[0] != FREE && fat[1] != FREE
    requires forall i :: 0 <= i < |slots| ==> slots[i][0] == UNUSED
    ensures Consistent(b, size, fat, slots)
  {
    assert forall i :: 0 <= i < |slots| ==> IsEmptySlot(slots[i]);
  }

  /** A freshly formatted volume is consistent, holds no file and has all its 16382 clusters free. */
  lemma FreshVolumeIsEmpty(d: Image)
    requires FreshVolume(d)
    ensures Inv(FormattedBpb(), d)
    ensures forall i :: 0 <= i < SlotCount(FormattedBpb()) ==> Files(FormattedBpb(), d)[i] == Unused
    ensures var free := FreeClusters(Fat(FormattedBpb(), d));
      |free| == 16382 && forall k :: 0 <= k < 16382 ==> free[k] == k + 2
  {
    FreshFatEntries(d);
    FreshSlots(d);
    FreshFree(Fat(FormattedBpb(), d));
    EmptyDirectoryIsConsistent(FormattedBpb(), |d|, Fat(FormattedBpb(), d), Slots(FormattedBpb(), d));
    forall i | 0 <= i < SlotCount(FormattedBpb()) ensures Files(FormattedBpb(), d)[i] == Unused {
      assert Slots(FormattedBpb(), d)[i][0] == UNUSED;
    }
  }

  /**
   * The formatted table describes more clusters than 65536 sectors, a drive of 32 MiB, can hold: exactly
   * the clusters up to 16344 exist there, and 39 free entries have no sectors behind them.
   */
  lemma ClustersOnSmallDrive(c: nat)
    ensures OnDisk(FormattedBpb(), 65536, c) <==> 2 <= c <= 16344
  {
  }

  /** A drive of 65689 sectors holds every cluster of the formatted table. */
  lemma ClustersOnLargeDrive(c: nat, size: nat)
    requires size >= 65689
    ensures OnDisk(FormattedBpb(), size, c) <==> 2 <= c < 16384
  {
  }
}
