/** The root directory: 32-byte slots, the entries they hold and the scans over them. */
module Directory {
  import opened Basics
  import opened Bytes
  import opened Disk
  import opened Layout

  const UNUSED: byte := 0x00
  const DELETED: byte := 0xE5

  type FileName = s: seq<byte> | |s| == 8 witness seq(8, _ => 0x20)
  type Extension = s: seq<byte> | |s| == 3 witness seq(3, _ => 0x20)
  type SlotBytes = s: seq<byte> | |s| == SLOT_SIZE witness seq(SLOT_SIZE, _ => 0)

  datatype DirectoryEntry = DirectoryEntry(
    filename: FileName,
    extension: Extension,
    attributes: byte,
    reserved: byte,
    creationTimeMs: byte,
    creationTime: u16,
    creationDate: u16,
    lastAccessDate: u16,
    clusterHigh: u16,
    modifiedTime: u16,
    modifiedDate: u16,
    clusterLow: u16,
    fileSize: u32)

  /** The packed in-memory form of an entry. */
  function Encode(e: DirectoryEntry): SlotBytes {
    e.filename + e.extension + [e.attributes, e.reserved, e.creationTimeMs]
    + ToLe16(e.creationTime) + ToLe16(e.creationDate) + ToLe16(e.lastAccessDate) + ToLe16(e.clusterHigh)
    + ToLe16(e.modifiedTime) + ToLe16(e.modifiedDate) + ToLe16(e.clusterLow) + ToLe32(e.fileSize)
  }

  /** `core::ptr::read` of an entry from a slot. */
  function Decode(s: SlotBytes): DirectoryEntry {
    DirectoryEntry(s[..8], s[8..11], s[11], s[12], s[13],
                   FromLe16(s[14], s[15]), FromLe16(s[16], s[17]), FromLe16(s[18], s[19]),
                   FromLe16(s[20], s[21]), FromLe16(s[22], s[23]), FromLe16(s[24], s[25]),
                   FromLe16(s[26], s[27]), FromLe32(s[28..32]))
  }

  lemma DecodeEncode(e: DirectoryEntry)
    ensures Decode(Encode(e)) == e
  {
    var s := Encode(e);
    assert s[..8] == e.filename;
    assert s[8..11] == e.extension;
    assert s[28..32] == ToLe32(e.fileSize);
  }

  lemma EncodeDecode(s: SlotBytes)
    ensures Encode(Decode(s)) == s
  {
    var e := Decode(s);
    Le16Inverse(s[14], s[15]);
    Le16Inverse(s[16], s[17]);
    Le16Inverse(s[18], s[19]);
    Le16Inverse(s[20], s[21]);
    Le16Inverse(s[22], s[23]);
    Le16Inverse(s[24], s[25]);
    Le16Inverse(s[26], s[27]);
    Le32Inverse(s[28..32]);
    var t := s[..8] + s[8..11] + [s[11], s[12], s[13]]
      + [s[14], s[15]] + [s[16], s[17]] + [s[18], s[19]] + [s[20], s[21]]
      + [s[22], s[23]] + [s[24], s[25]] + [s[26], s[27]] + s[28..32];
    assert t == s;
  }

  /** Where the fields of an entry lie: byte positions and numbers with the low byte first. */
  predicate HoldsEntry(s: seq<byte>, e: DirectoryEntry)
    requires |s| == 32
  {
    && e.filename == s[0..8] && e.extension == s[8..11]
    && e.attributes == s[11] && e.reserved == s[12] && e.creationTimeMs == s[13]
    && e.creationTime == s[14] as int + 256 * s[15] as int
    && e.creationDate == s[16] as int + 256 * s[17] as int
    && e.lastAccessDate == s[18] as int + 256 * s[19] as int
    && e.clusterHigh == s[20] as int + 256 * s[21] as int
    && e.modifiedTime == s[22] as int + 256 * s[23] as int
    && e.modifiedDate == s[24] as int + 256 * s[25] as int
    && e.clusterLow == s[26] as int + 256 * s[27] as int
    && e.fileSize == s[28] as int + 0x100 * s[29] as int + 0x1_0000 * s[30] as int + 0x100_0000 * s[31] as int
  }

  lemma DecodeLayout(s: SlotBytes)
    ensures HoldsEntry(s, Decode(s))
  {
    assert s[28..32][0] == s[28] && s[28..32][1] == s[29] && s[28..32][2] == s[30] && s[28..32][3] == s[31];
  }

  lemma EncodeLayout(e: DirectoryEntry)
    ensures HoldsEntry(Encode(e), e)
  {
    DecodeEncode(e);
    DecodeLayout(Encode(e));
  }

  /** The number of a cluster, low byte first. */
  function ClusterField(c: u16): (bs: seq<byte>)
    ensures |bs| == 2
  {
    [c % 0x100, c / 0x100]
  }

  /** Digit `k` of a number written with bytes, low byte first. */
  function Digit(n: nat, k: nat): byte
    decreases k
  {
    if k == 0 then n % 0x100 else Digit(n / 0x100, k - 1)
  }

  /** A length cut to 32 bits, low byte first. */
  function SizeField(len: nat): (bs: seq<byte>)
    ensures |bs| == 4
  {
    [Digit(len, 0), Digit(len, 1), Digit(len, 2), Digit(len, 3)]
  }

  lemma CutTo32Bits(low: u32, more: nat)
    ensures (low + 0x1_0000_0000 * more) % 0x1_0000_0000 == low
  {
  }

  lemma FourDigits(a: byte, b: byte, c: byte, d: byte)
    ensures FromLe32([a, b, c, d]) == a as int + 0x100 * b as int + 0x1_0000 * c as int + 0x100_0000 * d as int
  {
  }

  lemma SizeFieldIs(len: nat)
    ensures ToLe32(len % 0x1_0000_0000) == SizeField(len)
  {
    var l1 := len / 0x100;
    var l2 := l1 / 0x100;
    var l3 := l2 / 0x100;
    assert Digit(len, 1) == l1 % 0x100;
    assert Digit(len, 2) == Digit(l1, 1) == l2 % 0x100;
    assert Digit(len, 3) == Digit(l1, 2) == Digit(l2, 1) == l3 % 0x100;
    FourDigits(len % 0x100, l1 % 0x100, l2 % 0x100, l3 % 0x100);
    CutTo32Bits(FromLe32(SizeField(len)), l3 / 0x100);
    Le32Inverse(SizeField(len));
  }

  /** The last four bytes are the size. */
  ghost predicate HoldsSize(s: seq<byte>, len: nat) {
    |s| == 32 && forall k {:trigger Digit(len, k)} :: 0 <= k < 4 ==> s[28 + k] == Digit(len, k)
  }

  lemma EncodedSize(e: DirectoryEntry, len: nat)
    requires e.fileSize == len % 0x1_0000_0000
    ensures HoldsSize(Encode(e), len)
  {
    var s := Encode(e);
    assert s[28..32] == SizeField(len) by {
      assert s[28..32] == ToLe32(e.fileSize);
      SizeFieldIs(len);
    }
    SizeAt(s, len);
  }

  lemma SizeAt(s: SlotBytes, len: nat)
    requires s[28..32] == SizeField(len)
    ensures HoldsSize(s, len)
  {
    forall k | 0 <= k < 4 ensures s[28 + k] == Digit(len, k) {
      assert s[28 + k] == s[28..32][k];
      assert k == 0 || k == 1 || k == 2 || k == 3;
    }
  }

  lemma SizeDecodes(s: SlotBytes, len: nat)
    requires HoldsSize(s, len)
    ensures Decode(s).fileSize == len % 0x1_0000_0000
  {
    assert s[28 + 0] == Digit(len, 0) && s[28 + 1] == Digit(len, 1) && s[28 + 2] == Digit(len, 2) && s[28 + 3] == Digit(len, 3);
    assert s[28..32] == SizeField(len);
    SizeFieldIs(len);
  }

  /** An entry with another first cluster and size differs from the old bytes in the last six. */
  lemma EncodePatched(s: SlotBytes, first: u16, len: nat)
    ensures Encode(Decode(s).(clusterLow := first, fileSize := len % 0x1_0000_0000))
         == s[..26] + ClusterField(first) + SizeField(len)
  {
    var e := Decode(s);
    var e' := e.(clusterLow := first, fileSize := len % 0x1_0000_0000);
    SizeFieldIs(len);
    EncodeDecode(s);
    assert Encode(e')[..26] == Encode(e)[..26];
    assert Encode(e') == Encode(e')[..26] + (ToLe16(first) + ToLe32(len % 0x1_0000_0000));
  }

  lemma PatchedBytes(s: SlotBytes, s': SlotBytes, first: u16, len: nat)
    requires Decode(s') == Decode(s).(clusterLow := first, fileSize := len % 0x1_0000_0000)
    ensures s'[..26] == s[..26] && s'[26] == first % 256 && s'[27] == first / 256 && HoldsSize(s', len)
  {
    EncodeDecode(s');
    EncodePatched(s, first, len);
    assert s'[28..32] == SizeField(len);
    SizeAt(s', len);
  }

  // ----- Slots -----

  function SlotSector(b: Bpb, i: nat): nat {
    RootDirStart(b) + i / SLOTS_PER_SECTOR
  }

  function SlotOffset(i: nat): (o: nat)
    ensures o + SLOT_SIZE <= SECTOR_SIZE
  {
    SLOT_SIZE * (i % SLOTS_PER_SECTOR)
  }

  function Slot(b: Bpb, d: Image, i: nat): SlotBytes
    requires MetadataFits(b, d) && i < SlotCount(b)
  {
    d[SlotSector(b, i)][SlotOffset(i)..SlotOffset(i) + SLOT_SIZE]
  }

  /** Where a slot lies on the drive. */
  lemma SlotIsRaw(b: Bpb, d: Image, i: nat)
    requires MetadataFits(b, d) && i < SlotCount(b)
    ensures var lba, o := b.reservedSectors + b.fatCount * b.sectorsPerFat + i / 16, 32 * (i % 16);
      lba < |d| && Slots(b, d)[i] == d[lba][o..o + 32]
  {
    assert Slots(b, d)[i] == Slot(b, d, i);
  }

  /** The slots of one root directory sector. */
  function SectorSlots(s: Sector): (slots: seq<SlotBytes>)
    ensures |slots| == SLOTS_PER_SECTOR
  {
    seq(SLOTS_PER_SECTOR, i requires 0 <= i < SLOTS_PER_SECTOR => s[SLOT_SIZE * i..SLOT_SIZE * i + SLOT_SIZE])
  }

  function Slots(b: Bpb, d: Image): (slots: seq<SlotBytes>)
    requires MetadataFits(b, d)
    ensures |slots| == SlotCount(b)
  {
    seq(SlotCount(b), i requires 0 <= i < SlotCount(b) => Slot(b, d, i))
  }

  function SplicedSector(s: Sector, offset: nat, bytes: SlotBytes): Sector
    requires offset + SLOT_SIZE <= SECTOR_SIZE
  {
    s[..offset] + bytes + s[offset + SLOT_SIZE..]
  }

  function WithSlot(b: Bpb, d: Image, i: nat, bytes: SlotBytes): (d': Image)
    requires MetadataFits(b, d) && i < SlotCount(b)
    ensures |d'| == |d|
  {
    d[SlotSector(b, i) := SplicedSector(d[SlotSector(b, i)], SlotOffset(i), bytes)]
  }

  /** Rewriting one slot changes that slot and no other. */
  lemma SlotUpdate(b: Bpb, d: Image, i: nat, bytes: SlotBytes)
    requires MetadataFits(b, d) && i < SlotCount(b)
    ensures Slots(b, WithSlot(b, d, i, bytes)) == Slots(b, d)[i := bytes]
  {
    var d' := WithSlot(b, d, i, bytes);
    forall j | 0 <= j < SlotCount(b)
      ensures Slot(b, d', j) == if j == i then bytes else Slot(b, d, j)
    {
      if SlotSector(b, j) == SlotSector(b, i) {
        SlotsApart(b, i, j);
        SpliceAt(d[SlotSector(b, i)], SlotOffset(i), bytes, SlotOffset(j));
      }
    }
  }

  lemma SlotsApart(b: Bpb, i: nat, j: nat)
    requires SlotSector(b, j) == SlotSector(b, i)
    ensures j == i || SlotOffset(j) + SLOT_SIZE <= SlotOffset(i) || SlotOffset(i) + SLOT_SIZE <= SlotOffset(j)
  {
    assert i == 16 * (i / 16) + i % 16 && j == 16 * (j / 16) + j % 16;
  }

  lemma SpliceAt(s: Sector, offset: nat, bytes: SlotBytes, at: nat)
    requires offset + SLOT_SIZE <= SECTOR_SIZE && at + SLOT_SIZE <= SECTOR_SIZE
    requires at == offset || at + SLOT_SIZE <= offset || offset + SLOT_SIZE <= at
    ensures SplicedSector(s, offset, bytes)[at..at + SLOT_SIZE]
         == if at == offset then bytes else s[at..at + SLOT_SIZE]
  {
  }

  lemma SlotPlace(b: Bpb, k: nat, i: nat)
    requires i < 16
    ensures SlotSector(b, 16 * k + i) == RootDirStart(b) + k && SlotOffset(16 * k + i) == 32 * i
  {
  }

  lemma SectorFits(b: Bpb, d: Image, k: nat)
    requires MetadataFits(b, d) && k < RootDirSectors(b)
    ensures RootDirStart(b) + k < |d| && 16 * k + 16 <= SlotCount(b)
  {
  }

  /** Slot `i` of root sector `k`. */
  lemma SlotInSector(b: Bpb, d: Image, k: nat, i: nat)
    requires MetadataFits(b, d) && k < RootDirSectors(b) && i < 16
    ensures RootDirStart(b) + k < |d| && 16 * k + i < SlotCount(b)
    ensures SlotSector(b, 16 * k + i) == RootDirStart(b) + k && SlotOffset(16 * k + i) == 32 * i
    ensures Slots(b, d)[16 * k + i] == d[RootDirStart(b) + k][32 * i..32 * i + 32] == SectorSlots(d[RootDirStart(b) + k])[i]
  {
    SectorFits(b, d, k);
    SlotPlace(b, k, i);
    assert Slots(b, d)[16 * k + i] == Slot(b, d, 16 * k + i);
  }

  /** Where a slot is stored. */
  datatype Location = Location(lba: nat, offset: nat)

  datatype FileLocation = FileLocation(at: Location, entry: DirectoryEntry)

  function SlotLocation(b: Bpb, i: nat): Location {
    Location(SlotSector(b, i), SlotOffset(i))
  }

  /** The place and the entry of a slot that was looked up. */
  function LocationOf(b: Bpb, d: Image, found: Option<nat>): Option<FileLocation>
    requires MetadataFits(b, d) && (found.Some? ==> found.value < SlotCount(b))
  {
    if found.Some? then Some(FileLocation(SlotLocation(b, found.value), Decode(Slots(b, d)[found.value]))) else None
  }

  // ----- Scans -----

  predicate IsEmptySlot(s: SlotBytes) {
    s[0] == UNUSED || s[0] == DELETED
  }

  predicate Matches(s: SlotBytes, name: FileName, ext: Extension) {
    !IsEmptySlot(s) && s[0..8] == name && s[8..11] == ext
  }

  /** The first slot that a new file may take. */
  function FirstEmpty(slots: seq<SlotBytes>, from: nat): (r: Option<nat>)
    requires from <= |slots|
    ensures match r
      case Some(i) => from <= i < |slots| && IsEmptySlot(slots[i]) && forall j :: from <= j < i ==> !IsEmptySlot(slots[j])
      case None => forall j :: from <= j < |slots| ==> !IsEmptySlot(slots[j])
    decreases |slots| - from
  {
    if from == |slots| then None
    else if IsEmptySlot(slots[from]) then Some(from)
    else FirstEmpty(slots, from + 1)
  }

  ghost predicate AllTaken(slots: seq<SlotBytes>, n: nat)
    requires n <= |slots|
  {
    forall j :: 0 <= j < n ==> !IsEmptySlot(slots[j])
  }

  lemma {:induction false} FirstEmptySkips(slots: seq<SlotBytes>, from: nat, n: nat)
    requires from <= n <= |slots| && AllTaken(slots, n)
    ensures FirstEmpty(slots, from) == FirstEmpty(slots, n)
    decreases n - from
  {
    if from == n {
    } else {
      FirstEmptySkips(slots, from + 1, n);
    }
  }

  /** Slots up to slot `i` of sector `k` are taken; if that one is empty the search is over. */
  lemma TakenSector(b: Bpb, d: Image, k: nat, i: nat)
    requires MetadataFits(b, d) && k < RootDirSectors(b) && i <= 16
    requires 16 * k + 16 <= SlotCount(b) && RootDirStart(b) + k < |d|
    requires AllTaken(Slots(b, d), 16 * k) && AllTaken(SectorSlots(d[RootDirStart(b) + k]), i)
    ensures AllTaken(Slots(b, d), 16 * k + i)
    ensures i < 16 && IsEmptySlot(SectorSlots(d[RootDirStart(b) + k])[i]) ==>
      && FirstEmpty(Slots(b, d), 0) == Some(16 * k + i)
      && SlotLocation(b, 16 * k + i) == Location(RootDirStart(b) + k, 32 * i)
  {
    var slots := Slots(b, d);
    forall j | 0 <= j < 16 * k + i ensures !IsEmptySlot(slots[j]) {
      if 16 * k <= j {
        SlotInSector(b, d, k, j - 16 * k);
      }
    }
    if i < 16 {
      SlotInSector(b, d, k, i);
      FirstEmptySkips(slots, 0, 16 * k + i);
    }
  }

  /** The first slot of that name; an unused slot ends the directory. */
  function Lookup(slots: seq<SlotBytes>, name: FileName, ext: Extension, from: nat): (r: Option<nat>)
    requires from <= |slots|
    ensures match r
      case Some(i) =>
        && from <= i < |slots| && Matches(slots[i], name, ext)
        && forall j :: from <= j < i ==> slots[j][0] != UNUSED && !Matches(slots[j], name, ext)
      case None =>
        forall i :: from <= i < |slots| && Matches(slots[i], name, ext) ==>
          exists j :: from <= j < i && slots[j][0] == UNUSED
    decreases |slots| - from
  {
    if from == |slots| || slots[from][0] == UNUSED then None
    else if Matches(slots[from], name, ext) then Some(from)
    else Lookup(slots, name, ext, from + 1)
  }

  /** The scan of slots `0..n` neither found the name nor the end of the directory. */
  ghost predicate Passed(slots: seq<SlotBytes>, name: FileName, ext: Extension, n: nat)
    requires n <= |slots|
  {
    forall j :: 0 <= j < n ==> slots[j][0] != UNUSED && !Matches(slots[j], name, ext)
  }

  /** Scanning `i` more slots, of sector `k`, without a result. */
  lemma PassedSector(b: Bpb, d: Image, name: FileName, ext: Extension, k: nat, i: nat)
    requires MetadataFits(b, d) && k < RootDirSectors(b) && i <= 16
    requires 16 * k + 16 <= SlotCount(b) && RootDirStart(b) + k < |d|
    requires Passed(Slots(b, d), name, ext, 16 * k) && Passed(SectorSlots(d[RootDirStart(b) + k]), name, ext, i)
    ensures Passed(Slots(b, d), name, ext, 16 * k + i)
  {
    var slots := Slots(b, d);
    forall j | 0 <= j < 16 * k + i ensures slots[j][0] != UNUSED && !Matches(slots[j], name, ext) {
      if 16 * k <= j {
        SlotInSector(b, d, k, j - 16 * k);
      }
    }
  }

  lemma {:induction false} LookupSkips(slots: seq<SlotBytes>, name: FileName, ext: Extension, from: nat, n: nat)
    requires from <= n <= |slots| && Passed(slots, name, ext, n)
    ensures Lookup(slots, name, ext, from) == Lookup(slots, name, ext, n)
    decreases n - from
  {
    if from == n {
    } else {
      LookupSkips(slots, name, ext, from + 1, n);
    }
  }

  /** The scan ends at slot `i` of sector `k`. */
  lemma ScanEnds(b: Bpb, d: Image, name: FileName, ext: Extension, k: nat, i: nat)
    requires MetadataFits(b, d) && k < RootDirSectors(b) && i < 16
    requires 16 * k + i < SlotCount(b) && Passed(Slots(b, d), name, ext, 16 * k + i)
    requires RootDirStart(b) + k < |d|
    requires var s := SectorSlots(d[RootDirStart(b) + k])[i]; s[0] == UNUSED || Matches(s, name, ext)
    ensures var s := d[RootDirStart(b) + k][32 * i..32 * i + 32];
      && Lookup(Slots(b, d), name, ext, 0) == (if s[0] == UNUSED then None else Some(16 * k + i))
      && LocationOf(b, d, Lookup(Slots(b, d), name, ext, 0))
         == (if s[0] == UNUSED then None else Some(FileLocation(Location(RootDirStart(b) + k, 32 * i), Decode(s))))
  {
    SlotInSector(b, d, k, i);
    LookupSkips(Slots(b, d), name, ext, 0, 16 * k + i);
  }

  /** Lookup returns `i` exactly when `i` is the first match and no end-of-directory slot precedes it. */
  lemma {:induction false} LookupIsFirstMatch(slots: seq<SlotBytes>, name: FileName, ext: Extension, from: nat, i: nat)
    requires from <= i < |slots|
    ensures Lookup(slots, name, ext, from) == Some(i) <==>
              && Matches(slots[i], name, ext)
              && forall j :: from <= j < i ==> slots[j][0] != UNUSED && !Matches(slots[j], name, ext)
    decreases |slots| - from
  {
    if from == i {
    } else {
      LookupIsFirstMatch(slots, name, ext, from + 1, i);
    }
  }
}
