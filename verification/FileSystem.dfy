/** The FAT16 file system: every operation works directly on the sectors of the drive. */
module FileSystem {
  import opened Basics
  import opened Bytes
  import opened Disk
  import opened Layout
  import opened FatTable
  import opened Chains
  import opened Directory
  import opened Volume
  import opened Storage

  class Fat16FileSystem {
    const bpb: Bpb
    const drive: AtaDrive

    constructor (bpb: Bpb, drive: AtaDrive)
      ensures this.bpb == bpb && this.drive == drive
    {
      this.bpb := bpb;
      this.drive := drive;
    }

    method GetFatEntry(cluster: u16) returns (v: u16)
      requires FatSector(bpb, cluster) < |drive.sectors|
      ensures v == FatEntry(bpb, drive.sectors, cluster)
      ensures var s, o := drive.sectors[bpb.reservedSectors + cluster / 256], 2 * (cluster % 256);
        v == s[o] as int + 256 * s[o + 1] as int
    {
      var fatOffset := cluster * 2;
      var fatSector := bpb.reservedSectors + fatOffset / 512;
      var entOffset := fatOffset % 512;
      var buffer := drive.ReadSector(fatSector);
      v := FromLe16(buffer[entOffset], buffer[entOffset + 1]);
    }

    method SetFatEntry(cluster: u16, next: u16)
      requires FatSector(bpb, cluster) < |drive.sectors|
      modifies drive
      ensures drive.sectors == WithFatEntry(bpb, old(drive.sectors), cluster, next)
      ensures var lba, o := bpb.reservedSectors + cluster / 256, 2 * (cluster % 256);
        drive.sectors == old(drive.sectors)[lba := old(drive.sectors)[lba][o := next % 256][o + 1 := next / 256]]
      ensures drive.history == old(drive.history) + [drive.sectors]
    {
      var fatOffset := cluster * 2;
      var fatSector := bpb.reservedSectors + fatOffset / 512;
      var byteOffset := fatOffset % 512;
      var buffer := drive.ReadSector(fatSector);
      var nextBytes := ToLe16(next);
      buffer := buffer[byteOffset := nextBytes[0]];
      buffer := buffer[byteOffset + 1 := nextBytes[1]];
      drive.WriteSector(fatSector, buffer);
    }

    method FindFreeCluster() returns (r: Option<u16>)
      requires MetadataFits(bpb, drive.sectors)
      ensures var free := FreeClusters(Fat(bpb, drive.sectors));
        r == if free == [] then None else Some(free[0])
    {
      ghost var fat := Fat(bpb, drive.sectors);
      FatBeforeRoot(bpb);
      for s := 0 to bpb.sectorsPerFat
        invariant NoneFree(fat, s * 256)
      {
        var buffer := drive.ReadSector(bpb.reservedSectors + s);
        var i := FirstZeroEntry(buffer);
        FatSectorScanned(bpb, drive.sectors, s, i);
        if i < 256 {
          return Some(s * 256 + i);
        }
      }
      FreeFromSkips(fat, 0, |fat|);
      r := None;
    }

    /** The inner loop of the search for a free cluster. */
    method FirstZeroEntry(buffer: Sector) returns (i: nat)
      ensures i <= 256 && NoZeroEntry(buffer, i)
      ensures i < 256 ==> SectorEntry(buffer, i) == FREE
    {
      i := 0;
      while i < 256
        invariant i <= 256 && NoZeroEntry(buffer, i)
      {
        var status := FromLe16(buffer[2 * i], buffer[2 * i + 1]);
        assert status == SectorEntry(buffer, i);
        if status == FREE {
          return;
        }
        i := i + 1;
      }
    }

    method FindEmptyRootSlot() returns (r: Option<Location>, ghost slot: nat)
      requires MetadataFits(bpb, drive.sectors)
      ensures r == match FirstEmpty(Slots(bpb, drive.sectors), 0) case Some(i) => Some(SlotLocation(bpb, i)) case None => None
      ensures r.Some? ==> FirstEmpty(Slots(bpb, drive.sectors), 0) == Some(slot)
    {
      ghost var slots := Slots(bpb, drive.sectors);
      var sectors := RootDirSectors(bpb);
      slot := 0;
      for sectorOffset := 0 to sectors
        invariant AllTaken(slots, 16 * sectorOffset)
      {
        SectorFits(bpb, drive.sectors, sectorOffset);
        var lba := RootDirStart(bpb) + sectorOffset;
        var buffer := drive.ReadSector(lba);
        var i := ScanForEmpty(buffer);
        TakenSector(bpb, drive.sectors, sectorOffset, i);
        if i < 16 {
          slot := 16 * sectorOffset + i;
          SlotPlace(bpb, sectorOffset, i);
          return Some(Location(lba, 32 * i)), slot;
        }
      }
      FirstEmptySkips(slots, 0, |slots|);
      r := None;
    }

    /** The inner loop of the search for a free slot. */
    method ScanForEmpty(buffer: Sector) returns (i: nat)
      ensures i <= 16 && AllTaken(SectorSlots(buffer), i)
      ensures i < 16 ==> IsEmptySlot(SectorSlots(buffer)[i])
    {
      i := 0;
      while i < 16
        invariant i <= 16 && AllTaken(SectorSlots(buffer), i)
      {
        var firstByte := buffer[i * 32];
        assert firstByte == SectorSlots(buffer)[i][0];
        if firstByte == UNUSED || firstByte == DELETED {
          return;
        }
        i := i + 1;
      }
    }

    /** The inner loop of the scan: the first slot of a sector that ends it, if any. */
    method ScanSector(buffer: Sector, name: FileName, ext: Extension) returns (i: nat)
      ensures i <= 16 && Passed(SectorSlots(buffer), name, ext, i)
      ensures i < 16 ==> SectorSlots(buffer)[i][0] == UNUSED || Matches(SectorSlots(buffer)[i], name, ext)
    {
      i := 0;
      while i < 16
        invariant i <= 16 && Passed(SectorSlots(buffer), name, ext, i)
      {
        var bytes: SlotBytes := buffer[i * 32..i * 32 + 32];
        assert bytes == SectorSlots(buffer)[i];
        if bytes[0] == UNUSED {
          return;
        }
        if bytes[0] != DELETED && bytes[0..8] == name && bytes[8..11] == ext {
          return;
        }
        i := i + 1;
      }
    }

    method FindFileLocation(name: FileName, ext: Extension)
      returns (r: Option<FileLocation>, ghost slot: nat)
      requires MetadataFits(bpb, drive.sectors)
      ensures r == LocationOf(bpb, drive.sectors, Lookup(Slots(bpb, drive.sectors), name, ext, 0))
      ensures r.Some? ==> Lookup(Slots(bpb, drive.sectors), name, ext, 0) == Some(slot)
      ensures r.Some? ==> HoldsEntry(Slots(bpb, drive.sectors)[slot], r.value.entry)
    {
      ghost var slots := Slots(bpb, drive.sectors);
      var sectors := RootDirSectors(bpb);
      slot := 0;
      for sectorOffset := 0 to sectors
        invariant Passed(slots, name, ext, 16 * sectorOffset)
      {
        SectorFits(bpb, drive.sectors, sectorOffset);
        var lba := RootDirStart(bpb) + sectorOffset;
        var buffer := drive.ReadSector(lba);
        var i := ScanSector(buffer, name, ext);
        PassedSector(bpb, drive.sectors, name, ext, sectorOffset, i);
        if i < 16 {
          slot := 16 * sectorOffset + i;
          ScanEnds(bpb, drive.sectors, name, ext, sectorOffset, i);
          var bytes: SlotBytes := buffer[32 * i..32 * i + 32];
          if bytes[0] == UNUSED {
            return None, slot;
          }
          DecodeLayout(slots[slot]);
          return Some(FileLocation(Location(lba, 32 * i), Decode(bytes))), slot;
        }
      }
      LookupSkips(slots, name, ext, 0, |slots|);
      r := None;
    }

    method FindFile(name: FileName, ext: Extension) returns (r: Option<DirectoryEntry>)
      requires MetadataFits(bpb, drive.sectors)
      ensures var slots := Slots(bpb, drive.sectors);
        match Lookup(slots, name, ext, 0)
        case Some(i) => r == Some(Decode(slots[i]))
        case None => r == None
      ensures r.Some? ==> HoldsEntry(Slots(bpb, drive.sectors)[Lookup(Slots(bpb, drive.sectors), name, ext, 0).value], r.value)
    {
      var location, slot := FindFileLocation(name, ext);
      r := if location.Some? then Some(location.value.entry) else None;
    }

    /** Terminates on every table, cyclic ones included, as long as the links stay on the drive. */
    method ReadFile(entry: DirectoryEntry) returns (data: seq<byte>)
      requires GoodBpb(bpb) && Readable(bpb, drive.sectors, entry.clusterLow, entry.fileSize)
      ensures data == ReadFrom(bpb, drive.sectors, entry.clusterLow, entry.fileSize)
    {
      ghost var d := drive.sectors;
      ghost var all := ReadFrom(bpb, d, entry.clusterLow, entry.fileSize);
      data := [];
      var current: u16 := entry.clusterLow;
      var remaining: nat := entry.fileSize;
      while current < FIRST_END_MARK
        invariant Readable(bpb, d, current, remaining)
        invariant all == data + ReadFrom(bpb, d, current, remaining)
        decreases remaining
      {
        ReadStep(bpb, d, current, remaining, data);
        data, remaining := ReadCluster(current, data, remaining);
        if remaining == 0 {
          return;
        }
        current := GetFatEntry(current);
      }
    }

    /** The inner loop of `ReadFile`: appends up to one cluster of bytes. */
    method ReadCluster(cluster: u16, before: seq<byte>, left: nat) returns (data: seq<byte>, remaining: nat)
      requires GoodBpb(bpb) && Fits(bpb, |drive.sectors|, cluster)
      ensures var n := Min(left, BytesPerCluster(bpb));
        && remaining == left - n
        && data == before + ClusterBytes(bpb, drive.sectors, cluster)[..n]
    {
      var lba := ClusterToLba(bpb, cluster);
      ghost var ss := ClusterSectors(bpb, drive.sectors, cluster);
      data, remaining := before, left;
      for i := 0 to bpb.sectorsPerCluster
        invariant i * 512 <= left && remaining == left - i * 512
        invariant data == before + Flatten(ss)[..i * 512]
        invariant i > 0 ==> remaining > 0
      {
        var sector := drive.ReadSector(lba + i);
        var toCopy := Min(remaining, 512);
        FlattenStep(ss, i, toCopy, before);
        data := data + sector[..toCopy];
        remaining := remaining - toCopy;
        if remaining == 0 {
          break;
        }
      }
    }

    /**
     * Frees the chain that starts at `start`. Terminates on every table that the loop does not leave,
     * cycles included; `n` is the number of entries considered.
     */
    method FreeClusterChain(start: u16, ghost n: nat)
      requires FatFits(bpb, drive.sectors, n)
      requires FreeWalkStays(FatPrefix(bpb, drive.sectors, n), start)
      modifies drive
      ensures |drive.sectors| == |old(drive.sectors)|
      ensures FatPrefix(bpb, drive.sectors, n) == FreeWalk(old(FatPrefix(bpb, drive.sectors, n)), start)
      ensures PartlyFreed(bpb, old(drive.sectors), drive.sectors, n, FatPrefix(bpb, drive.sectors, n))
      ensures old(drive.history) <= drive.history
      ensures AllFreeing(bpb, old(drive.sectors), drive.history, |old(drive.history)|, n, FatPrefix(bpb, drive.sectors, n), start)
      ensures 2 <= start < FIRST_END_MARK ==> |old(drive.history)| < |drive.history|
    {
      ghost var d0, h0 := drive.sectors, drive.history;
      ghost var fat := FatPrefix(bpb, d0, n);
      var current: u16 := start;
      while 2 <= current < FIRST_END_MARK
        invariant |drive.sectors| == |d0| && h0 <= drive.history
        invariant fat == FatPrefix(bpb, drive.sectors, n)
        invariant FreeWalkStays(fat, current) && FreeWalk(fat, current) == FreeWalk(FatPrefix(bpb, d0, n), start)
        invariant PartlyFreed(bpb, d0, drive.sectors, n, fat)
        invariant AllFreeing(bpb, d0, drive.history, |h0|, n, fat, start)
        invariant |drive.history| == |h0| ==> current == start
        invariant |drive.history| > |h0| ==> start < n && fat[start] == FREE
        decreases n - |FreeClusters(fat)|, current >= 2
      {
        FreeStep(fat, current);
        FreeEntryStep(bpb, d0, drive.sectors, n, fat, current);
        FreedHistory(bpb, d0, drive.history, |h0|, n, fat, current, start, WithFatEntry(bpb, drive.sectors, current, FREE));
        var next := GetFatEntry(current);
        SetFatEntry(current, FREE);
        fat := fat[current := FREE];
        current := next;
      }
    }

    /** Copies a chunk into the sectors of one cluster; the tail of the last sector is zeroed. */
    method FillCluster(cluster: u16, chunk: seq<byte>)
      requires MetadataFits(bpb, drive.sectors) && OnDisk(bpb, |drive.sectors|, cluster)
      requires |chunk| <= BytesPerCluster(bpb)
      modifies drive
      ensures OnlyCluster(bpb, old(drive.sectors), drive.sectors, cluster)
      ensures old(drive.history) <= drive.history
      ensures AllFilling(bpb, old(drive.sectors), drive.history, |old(drive.history)|, cluster, chunk)
      ensures ClusterBytes(bpb, drive.sectors, cluster)[..|chunk|] == chunk
    {
      ghost var d0, h0 := drive.sectors, drive.history;
      var lba := ClusterToLba(bpb, cluster);
      for i := 0 to bpb.sectorsPerCluster
        invariant OnlyCluster(bpb, d0, drive.sectors, cluster) && h0 <= drive.history
        invariant AllFilling(bpb, d0, drive.history, |h0|, cluster, chunk)
        invariant FilledUpTo(ClusterSectors(bpb, d0, cluster), ClusterSectors(bpb, drive.sectors, cluster), chunk, i)
      {
        var sectorStart := i * 512;
        if sectorStart >= |chunk| {
          break;
        }
        var copyLen := Min(512, |chunk| - sectorStart);
        var buffer: Sector := chunk[sectorStart..sectorStart + copyLen] + seq(512 - copyLen, _ => 0);
        ghost var ss := ClusterSectors(bpb, drive.sectors, cluster);
        FilledUpToStep(ClusterSectors(bpb, d0, cluster), ss, chunk, i, buffer);
        drive.WriteSector(lba + i, buffer);
        assert ClusterSectors(bpb, drive.sectors, cluster) == ss[i := buffer];
        assert FillingImage(bpb, d0, drive.sectors, cluster, chunk);
      }
    }

    /** Marks `current` as the end of a chain and links it behind `previous`. */
    method LinkCluster(previous: Option<u16>, current: u16, ghost ch: seq<nat>, ghost d0: Image, ghost data: seq<byte>)
      requires Taking(bpb, d0, drive.sectors, ch, current, data)
      requires previous == if ch == [] then None else Some(ch[|ch| - 1])
      modifies drive
      ensures Taken(bpb, d0, old(drive.sectors), drive.sectors, ch, current, data)
      ensures FatSector(bpb, current) < |old(drive.sectors)|
      ensures drive.history == old(drive.history) + LinkImages(bpb, old(drive.sectors), ch, current, drive.sectors)
    {
      ghost var keep := Allocated(Fat(bpb, d0));
      NextCluster(Fat(bpb, d0), Fat(bpb, drive.sectors), ch);
      SetFatExtends(bpb, d0, drive.sectors, keep, current, END_OF_CHAIN);
      SetFatKeepsRest(bpb, drive.sectors, current, END_OF_CHAIN);
      SetFatEntry(current, END_OF_CHAIN);
      if previous.Some? {
        SetFatExtends(bpb, d0, drive.sectors, keep, previous.value, current);
        SetFatKeepsRest(bpb, drive.sectors, previous.value, current);
        SetFatEntry(previous.value, current);
      }
    }

    /** One round of the write loop: link the next free cluster and fill it. */
    method AddCluster(previous: Option<u16>, current: u16, chunk: seq<byte>,
                      ghost ch: seq<nat>, ghost d0: Image, ghost data: seq<byte>)
      requires Taking(bpb, d0, drive.sectors, ch, current, data)
      requires previous == if ch == [] then None else Some(ch[|ch| - 1])
      requires chunk == ChunkOf(bpb, data, |ch|)
      modifies drive
      ensures Progress(bpb, d0, drive.sectors, ch + [current], data)
      ensures old(drive.history) <= drive.history
      ensures AllMidway(bpb, d0, drive.history, |old(drive.history)|, data)
    {
      ghost var d, h := drive.sectors, drive.history;
      LinkCluster(previous, current, ch, d0, data);
      ghost var d1 := drive.sectors;
      FillCluster(current, chunk);
      RoundIsMidway(bpb, d0, d, d1, h, drive.history, ch, current, data);
      ProgressStep(bpb, d0, d, d1, drive.sectors, ch, current, data, chunk);
    }

    /** The body of the write loop, once a free cluster has been found. */
    method StoreChunk(current: u16, data: seq<byte>, bytesWritten: nat, previous: Option<u16>, first: u16,
                      ghost ch: seq<nat>, ghost d0: Image)
      returns (bytesWritten': nat, first': u16)
      requires Writing(bpb, d0, drive.sectors, data, ch, bytesWritten, previous, first)
      requires Fat(bpb, d0)[0] != FREE && Fat(bpb, d0)[1] != FREE && WriteStaysOnDisk(bpb, |d0|, Fat(bpb, d0), |data|)
      requires |ch| < ClustersNeeded(bpb, |data|) && |ch| * BytesPerCluster(bpb) <= |data|
      requires FreeClusters(Fat(bpb, drive.sectors)) != [] && current == FreeClusters(Fat(bpb, drive.sectors))[0]
      modifies drive
      ensures Writing(bpb, d0, drive.sectors, data, ch + [current], bytesWritten', Some(current), first')
      ensures old(drive.history) <= drive.history
      ensures AllMidway(bpb, d0, drive.history, |old(drive.history)|, data)
    {
      NextIsTaking(bpb, d0, drive.sectors, data, ch, current, bytesWritten, previous, first);
      first' := if previous == None then current else first;
      var bytesPerCluster := BytesPerCluster(bpb);
      var chunkSize := Min(|data| - bytesWritten, bytesPerCluster);
      var chunk := data[bytesWritten..bytesWritten + chunkSize];
      AddCluster(previous, current, chunk, ch, d0, data);
      bytesWritten' := bytesWritten + chunkSize;
    }

    /**
     * The loop shared by creation and overwriting: allocates, links and fills one cluster at a time
     * until the data is stored or no cluster is free. `ch` is the chain built.
     */
    method WriteChain(data: seq<byte>) returns (ok: bool, first: u16, ghost ch: seq<nat>)
      requires MetadataFits(bpb, drive.sectors)
      requires Fat(bpb, drive.sectors)[0] != FREE && Fat(bpb, drive.sectors)[1] != FREE
      requires WriteStaysOnDisk(bpb, |drive.sectors|, Fat(bpb, drive.sectors), |data|)
      modifies drive
      ensures Progress(bpb, old(drive.sectors), drive.sectors, ch, data)
      ensures |ch| == Min(ClustersNeeded(bpb, |data|), |FreeClusters(Fat(bpb, old(drive.sectors)))|)
      ensures ok <==> ClustersNeeded(bpb, |data|) <= |FreeClusters(Fat(bpb, old(drive.sectors)))|
      ensures ok ==> ch[0] == first
      ensures old(drive.history) <= drive.history
      ensures AllMidway(bpb, old(drive.sectors), drive.history, |old(drive.history)|, data)
    {
      ghost var d0, h0 := drive.sectors, drive.history;
      var bytesWritten: nat := 0;
      var previous: Option<u16> := None;
      first, ch := 0, [];
      ProgressStart(bpb, d0, data);
      while bytesWritten < |data| || data == []
        invariant Writing(bpb, d0, drive.sectors, data, ch, bytesWritten, previous, first)
        invariant data == [] ==> ch == []
        invariant h0 <= drive.history && AllMidway(bpb, d0, drive.history, |h0|, data)
        decreases |FreeClusters(Fat(bpb, d0))| - |ch|
      {
        NextChunk(bpb, |data|, |ch|);
        var found := FindFreeCluster();
        if found == None {
          return false, first, ch;
        }
        var current := found.value;
        bytesWritten, first := StoreChunk(current, data, bytesWritten, previous, first, ch, d0);
        previous := Some(current);
        ch := ch + [current];
        if data == [] {
          break;
        }
      }
      ClustersNeededIsLeast(bpb, |data|, |ch|);
      ok := true;
    }

    /** Rewrites one directory slot. */
    method PutEntry(dirLba: nat, dirOffset: nat, bytes: SlotBytes, ghost slot: nat)
      requires MetadataFits(bpb, drive.sectors) && slot < SlotCount(bpb)
      requires dirLba == SlotSector(bpb, slot) && dirOffset == SlotOffset(slot)
      modifies drive
      ensures drive.sectors == WithSlot(bpb, old(drive.sectors), slot, bytes)
      ensures drive.history == old(drive.history) + [drive.sectors]
    {
      var dirBuffer := drive.ReadSector(dirLba);
      dirBuffer := SplicedSector(dirBuffer, dirOffset, bytes);
      drive.WriteSector(dirLba, dirBuffer);
    }

    /** The bytes of an entry. */
    method EntryBytes(e: DirectoryEntry) returns (bytes: SlotBytes)
      ensures bytes == Encode(e) && Decode(bytes) == e && bytes[0..8] == e.filename && bytes[8..11] == e.extension
    {
      bytes := Encode(e);
      DecodeEncode(e);
      assert bytes[..8] == e.filename;
    }

    /** The last step of creation: publishes the entry. */
    method CommitNewFile(dirLba: nat, dirOffset: nat, name: FileName, ext: Extension, first: u16, data: seq<byte>,
                         ghost slot: nat, ghost d0: Image, ghost ch: seq<nat>)
      requires Inv(bpb, d0) && Progress(bpb, d0, drive.sectors, ch, data)
      requires |ch| == ClustersNeeded(bpb, |data|) && ch[0] == first
      requires slot < SlotCount(bpb) && IsEmptySlot(Slots(bpb, d0)[slot])
      requires dirLba == SlotSector(bpb, slot) && dirOffset == SlotOffset(slot)
      modifies drive
      ensures |drive.sectors| == |d0|
      ensures Created(bpb, d0, drive.sectors, slot, NewFile(name, ext, data), |ch|)
      ensures NewSlotBytes(Slots(bpb, drive.sectors)[slot], name, ext, first, |data|)
      ensures |drive.history| == |old(drive.history)| + 1 && drive.history[..|old(drive.history)|] == old(drive.history)
      ensures drive.history[|old(drive.history)|] == drive.sectors
    {
      var entryBytes := EntryBytes(NewEntry(name, ext, first, |data|));
      NewEntryBytes(name, ext, first, |data|);
      CreateCommits(bpb, d0, drive.sectors, ch, data, slot, entryBytes, name, ext);
      SlotUpdate(bpb, drive.sectors, slot, entryBytes);
      PutEntry(dirLba, dirOffset, entryBytes, slot);
    }

    /**
     * Creates a file in the first empty slot. Until the last write, the one to the directory, every
     * image the drive goes through is consistent and holds the old files.
     */
    method WriteNewFile(name: FileName, ext: Extension, data: seq<byte>) returns (r: Outcome)
      requires Inv(bpb, drive.sectors)
      requires FirstEmpty(Slots(bpb, drive.sectors), 0).Some? ==>
                 WriteStaysOnDisk(bpb, |drive.sectors|, Fat(bpb, drive.sectors), |data|)
      modifies drive
      ensures |drive.sectors| == |old(drive.sectors)| && Inv(bpb, drive.sectors)
      ensures r == CreateOutcome(bpb, old(drive.sectors), |data|)
      ensures r == RootDirectoryFull ==> drive.sectors == old(drive.sectors) && drive.history == old(drive.history)
      ensures r == DiskFull ==> CreateFailed(bpb, old(drive.sectors), drive.sectors)
      ensures r == Ok ==>
        Created(bpb, old(drive.sectors), drive.sectors, FirstEmpty(Slots(bpb, old(drive.sectors)), 0).value,
                NewFile(name, ext, data), ClustersNeeded(bpb, |data|))
      ensures r == Ok ==>
        var i, free := FirstEmpty(Slots(bpb, old(drive.sectors)), 0).value, FreeClusters(Fat(bpb, old(drive.sectors)));
        free != [] && NewSlotBytes(Slots(bpb, drive.sectors)[i], name, ext, free[0], |data|)
      ensures old(drive.history) <= drive.history
      ensures r == Ok ==> |drive.history| > |old(drive.history)| && drive.history[|drive.history| - 1] == drive.sectors
      ensures FilesKept(bpb, old(drive.sectors), drive.history,
                        |old(drive.history)|, |drive.history| - (if r == Ok then 1 else 0))
    {
      ghost var d0, h0 := drive.sectors, |drive.history|;
      var location, slot := FindEmptyRootSlot();
      if location == None {
        return RootDirectoryFull;
      }
      var Location(dirLba, dirOffset) := location.value;
      var ok, first, ch := WriteChain(data);
      ghost var d := drive.sectors;
      MidwayExtends(bpb, d0, drive.history, h0, data);
      HistoryKeepsFiles(bpb, d0, drive.history, h0);
      ExtendsKeepsFiles(bpb, d0, d);
      ExtendsKeepsSlots(bpb, d0, d);
      if !ok {
        return DiskFull;
      }
      ghost var h := drive.history;
      CommitNewFile(dirLba, dirOffset, name, ext, first, data, slot, d0, ch);
      FilesKeptLater(bpb, d0, h, drive.history, h0);
      r := Ok;
    }

    /** Frees the clusters of slot `slot`, whose entry is `entry`. */
    method ReleaseSlot(entry: DirectoryEntry, ghost slot: nat, ghost data: seq<byte>)
      requires Inv(bpb, drive.sectors) && slot < SlotCount(bpb) && !IsEmptySlot(Slots(bpb, drive.sectors)[slot])
      requires entry == Decode(Slots(bpb, drive.sectors)[slot])
      modifies drive
      ensures |drive.sectors| == |old(drive.sectors)|
      ensures Fat(bpb, drive.sectors) == FreedFat(Fat(bpb, old(drive.sectors)), Slots(bpb, old(drive.sectors))[slot])
      ensures Extends(bpb, old(drive.sectors), drive.sectors, Allocated(Fat(bpb, drive.sectors)))
      ensures SameClusters(bpb, old(drive.sectors), drive.sectors)
      ensures old(drive.history) <= drive.history && |old(drive.history)| < |drive.history|
      ensures AllExtend(bpb, old(drive.sectors), drive.history, |old(drive.history)|, Allocated(Fat(bpb, drive.sectors)))
      ensures AllTorn(bpb, old(drive.sectors), drive.history, |old(drive.history)|, |drive.history|, slot, data)
      ensures !Inv(bpb, drive.history[|old(drive.history)|])
    {
      ghost var d0, h0 := drive.sectors, drive.history;
      ghost var s := Slots(bpb, d0)[slot];
      ghost var ch := SlotChain(Fat(bpb, d0), s);
      FreeWalkReleases(Fat(bpb, d0), ch);
      ChainHead(Fat(bpb, d0), entry.clusterLow);
      if entry.clusterLow >= 2 {
        FreeClusterChain(entry.clusterLow, ClusterCount(bpb));
      }
      FreedKeeps(bpb, d0, slot);
      FreeingExtends(bpb, d0, drive.sectors, Fat(bpb, drive.sectors));
      AllFreeingExtend(bpb, d0, drive.history, |h0|, Fat(bpb, drive.sectors), entry.clusterLow);
      ReleasedIsTorn(bpb, d0, drive.history, |h0|, slot, data, Fat(bpb, drive.sectors), Allocated(Fat(bpb, drive.sectors)));
    }

    /** Frees the old clusters and stores the new data; the directory is not touched yet. */
    method ReplaceChain(entry: DirectoryEntry, data: seq<byte>, ghost slot: nat)
      returns (ok: bool, first: u16, ghost ch: seq<nat>, ghost d1: Image)
      requires Inv(bpb, drive.sectors) && slot < SlotCount(bpb) && !IsEmptySlot(Slots(bpb, drive.sectors)[slot])
      requires entry == Decode(Slots(bpb, drive.sectors)[slot])
      requires WriteStaysOnDisk(bpb, |drive.sectors|,
                                FreedFat(Fat(bpb, drive.sectors), Slots(bpb, drive.sectors)[slot]), |data|)
      modifies drive
      ensures MetadataFits(bpb, d1)
      ensures Fat(bpb, d1) == FreedFat(Fat(bpb, old(drive.sectors)), Slots(bpb, old(drive.sectors))[slot])
      ensures Progress(bpb, d1, drive.sectors, ch, data) && Slots(bpb, drive.sectors) == Slots(bpb, old(drive.sectors))
      ensures |ch| == Min(ClustersNeeded(bpb, |data|), |FreeClusters(Fat(bpb, d1))|)
      ensures ok <==> ClustersNeeded(bpb, |data|) <= |FreeClusters(Fat(bpb, d1))|
      ensures ok ==> ch[0] == first
      ensures OthersKept(bpb, old(drive.sectors), drive.sectors, slot)
      ensures old(drive.history) <= drive.history && |old(drive.history)| < |drive.history|
      ensures AllOthersKept(bpb, old(drive.sectors), drive.history, |old(drive.history)|, slot)
      ensures AllTorn(bpb, old(drive.sectors), drive.history, |old(drive.history)|, |drive.history|, slot, data)
      ensures !Inv(bpb, drive.history[|old(drive.history)|])
    {
      ghost var d0, h0 := drive.sectors, |drive.history|;
      ReleaseSlot(entry, slot, data);
      d1 := drive.sectors;
      ghost var h1, keep := drive.history, Allocated(Fat(bpb, d1));
      FreedKeeps(bpb, d0, slot);
      ok, first, ch := WriteChain(data);
      ExtendsTransitive(bpb, d0, d1, drive.sectors, keep);
      ExtendsKeepsOtherSlots(bpb, d0, drive.sectors, slot);
      MidwayExtends(bpb, d1, drive.history, |h1|, data);
      AllExtendJoin(bpb, d0, d1, h1, drive.history, h0, keep);
      HistoryKeepsOthers(bpb, d0, drive.history, h0, slot);
      TornJoin(bpb, d0, d1, h1, drive.history, h0, slot, data);
    }

    /**
     * Overwrites the first file of that name. Whatever the outcome, and in every image the drive
     * goes through, all other files keep their chains and contents. The first write makes the image inconsistent;
     * every image is consistent exactly when the first cluster its entry names is not free.
     */
    method OverwriteFile(name: FileName, ext: Extension, data: seq<byte>) returns (r: Outcome, ghost slot: nat)
      requires Inv(bpb, drive.sectors)
      requires match Lookup(Slots(bpb, drive.sectors), name, ext, 0)
        case Some(i) => WriteStaysOnDisk(bpb, |drive.sectors|,
                                         FreedFat(Fat(bpb, drive.sectors), Slots(bpb, drive.sectors)[i]), |data|)
        case None => true
      modifies drive
      ensures |drive.sectors| == |old(drive.sectors)| && Inv(bpb, drive.sectors)
      ensures r == OverwriteOutcome(bpb, old(drive.sectors), name, ext, |data|)
      ensures old(drive.history) <= drive.history
      ensures r == FileNotFound ==> drive.sectors == old(drive.sectors) && drive.history == old(drive.history)
      ensures r != FileNotFound ==>
        && Lookup(Slots(bpb, old(drive.sectors)), name, ext, 0) == Some(slot)
        && AllOthersKept(bpb, old(drive.sectors), drive.history, |old(drive.history)|, slot)
      ensures r == Ok ==> Overwritten(bpb, old(drive.sectors), drive.sectors, slot, name, ext, data)
      ensures r == DiskFull ==> Damaged(bpb, old(drive.sectors), drive.sectors, slot, name, ext, data)
      ensures r != FileNotFound ==>
        && |old(drive.history)| < |drive.history| && !Inv(bpb, drive.history[|old(drive.history)|])
        && AllTorn(bpb, old(drive.sectors), drive.history,
                   |old(drive.history)|, |drive.history| - (if r == Ok then 1 else 0), slot, data)
      ensures r == Ok ==> drive.history[|drive.history| - 1] == drive.sectors
    {
      ghost var d0, h0 := drive.sectors, |drive.history|;
      var location;
      location, slot := FindFileLocation(name, ext);
      if location == None {
        return FileNotFound, slot;
      }
      var FileLocation(Location(dirLba, dirOffset), entry) := location.value;
      FreedKeeps(bpb, d0, slot);
      var ok, first, ch, d1 := ReplaceChain(entry, data, slot);
      if !ok {
        OverwriteFails(bpb, d0, d1, drive.sectors, ch, data, slot, name, ext);
        return DiskFull, slot;
      }
      CommitOverwrite(dirLba, dirOffset, entry, first, name, ext, data, slot, d0, d1, ch, h0);
      r := Ok;
    }

    /** The last step of overwriting: the entry gets its new start cluster and size. */
    method CommitOverwrite(dirLba: nat, dirOffset: nat, entry: DirectoryEntry, first: u16,
                           ghost name: FileName, ghost ext: Extension, data: seq<byte>,
                           ghost slot: nat, ghost d0: Image, ghost d1: Image, ghost ch: seq<nat>, ghost from: nat)
      requires Inv(bpb, d0) && slot < SlotCount(bpb) && Matches(Slots(bpb, d0)[slot], name, ext)
      requires OthersKept(bpb, d0, drive.sectors, slot) && entry == Decode(Slots(bpb, d0)[slot])
      requires Progress(bpb, d1, drive.sectors, ch, data) && Fat(bpb, d1) == FreedFat(Fat(bpb, d0), Slots(bpb, d0)[slot])
      requires |ch| == ClustersNeeded(bpb, |data|) && ch[0] == first
      requires dirLba == SlotSector(bpb, slot) && dirOffset == SlotOffset(slot)
      requires AllOthersKept(bpb, d0, drive.history, from, slot)
      modifies drive
      ensures |drive.sectors| == |d0| && Overwritten(bpb, d0, drive.sectors, slot, name, ext, data)
      ensures drive.history == old(drive.history) + [drive.sectors]
      ensures AllOthersKept(bpb, d0, drive.history, from, slot)
    {
      var bytes := EntryBytes(entry.(clusterLow := first, fileSize := StoredSize(|data|)));
      OverwriteCommits(bpb, d0, d1, drive.sectors, ch, data, slot, bytes, name, ext);
      OthersKeptMore(bpb, d0, drive.history, WithSlot(bpb, drive.sectors, slot, bytes), from, slot);
      PutEntry(dirLba, dirOffset, bytes, slot);
    }
  }
}
