/** What a disk image means: the consistency of its tables and the files it holds. */
module Volume {
  import opened Basics
  import opened Bytes
  import opened Disk
  import opened Layout
  import opened FatTable
  import opened Chains
  import opened Directory
  import opened Arithmetic

  // ----- Contents of clusters and chains -----

  predicate AllOnDisk(b: Bpb, size: nat, ch: seq<nat>) {
    forall k :: 0 <= k < |ch| ==> OnDisk(b, size, ch[k])
  }

  function ClusterSectors(b: Bpb, d: Image, c: nat): (ss: seq<Sector>)
    requires Fits(b, |d|, c)
    ensures |ss| == b.sectorsPerCluster
  {
    d[ClusterToLba(b, c)..ClusterToLba(b, c) + b.sectorsPerCluster]
  }

  function ClusterBytes(b: Bpb, d: Image, c: nat): (bs: seq<byte>)
    requires Fits(b, |d|, c)
    ensures |bs| == BytesPerCluster(b)
  {
    Flatten(ClusterSectors(b, d, c))
  }

  lemma {:induction false} FlattenAt(ss: seq<Sector>, k: nat)
    requires k < 512 * |ss|
    ensures k / 512 < |ss| && Flatten(ss)[k] == ss[k / 512][k % 512]
  {
    if k < 512 {
    } else {
      FlattenAt(ss[1..], k - 512);
      assert (k - 512) / 512 == k / 512 - 1 && (k - 512) % 512 == k % 512;
    }
  }

  /** Where byte `k` of a cluster lies on the drive. */
  lemma ClusterIsRaw(b: Bpb, d: Image, c: nat, k: nat)
    requires Fits(b, |d|, c) && k < 512 * b.sectorsPerCluster
    ensures var lba := b.reservedSectors + b.fatCount * b.sectorsPerFat + (b.rootEntries * 32 + 511) / 512
                       + (c - 2) * b.sectorsPerCluster;
      && lba + k / 512 < |d| && k < |ClusterBytes(b, d, c)|
      && ClusterBytes(b, d, c)[k] == d[lba + k / 512][k % 512]
  {
    FlattenAt(ClusterSectors(b, d, c), k);
  }

  /** The bytes of a whole chain, slack included. */
  function ChainBytes(b: Bpb, d: Image, ch: seq<nat>): seq<byte>
    requires AllOnDisk(b, |d|, ch)
  {
    if ch == [] then []
    else ClusterBytes(b, d, ch[0]) + ChainBytes(b, d, ch[1..])
  }

  /** The first `size` bytes of a chain, or all of it if it is shorter. */
  function Stored(b: Bpb, d: Image, ch: seq<nat>, size: nat): (bs: seq<byte>)
    requires AllOnDisk(b, |d|, ch)
    ensures |bs| <= size
  {
    var all := ChainBytes(b, d, ch);
    all[..Min(size, |all|)]
  }

  lemma {:induction false} ChainBytesLength(b: Bpb, d: Image, ch: seq<nat>)
    requires AllOnDisk(b, |d|, ch)
    ensures |ChainBytes(b, d, ch)| == |ch| * BytesPerCluster(b)
  {
    if ch == [] {
    } else {
      ChainBytesLength(b, d, ch[1..]);
      MulNext(|ch| - 1, BytesPerCluster(b));
    }
  }

  lemma {:induction false} ChainBytesAppend(b: Bpb, d: Image, xs: seq<nat>, ys: seq<nat>)
    requires AllOnDisk(b, |d|, xs) && AllOnDisk(b, |d|, ys)
    ensures AllOnDisk(b, |d|, xs + ys)
    ensures ChainBytes(b, d, xs + ys) == ChainBytes(b, d, xs) + ChainBytes(b, d, ys)
  {
    if xs == [] {
      assert xs + ys == ys;
    } else {
      assert (xs + ys)[1..] == xs[1..] + ys;
      ChainBytesAppend(b, d, xs[1..], ys);
    }
  }

  lemma {:induction false} ChainBytesFrame(b: Bpb, d: Image, d': Image, ch: seq<nat>)
    requires |d'| == |d| && AllOnDisk(b, |d|, ch)
    requires forall k :: 0 <= k < |ch| ==> ClusterSectors(b, d', ch[k]) == ClusterSectors(b, d, ch[k])
    ensures ChainBytes(b, d', ch) == ChainBytes(b, d, ch)
  {
    if ch == [] {
    } else {
      ChainBytesFrame(b, d, d', ch[1..]);
    }
  }

  // ----- Consistency -----

  function SlotChain(fat: seq<u16>, s: SlotBytes): seq<nat> {
    ChainFrom(fat, Decode(s).clusterLow)
  }

  /** The start cluster of the slot heads a complete chain of clusters that the drive has. */
  predicate HasChain(b: Bpb, size: nat, fat: seq<u16>, s: SlotBytes) {
    Terminates(fat, Decode(s).clusterLow) && AllOnDisk(b, size, SlotChain(fat, s))
  }

  predicate Disjoint(xs: seq<nat>, ys: seq<nat>) {
    forall x :: x in xs ==> x !in ys
  }

  /** Every used slot owns a complete chain and no cluster is owned twice. */
  predicate Consistent(b: Bpb, size: nat, fat: seq<u16>, slots: seq<SlotBytes>) {
    && |fat| == ClusterCount(b) <= FIRST_END_MARK
    && |fat| >= 2 && fat[0] != FREE && fat[1] != FREE
    && (forall i :: 0 <= i < |slots| && !IsEmptySlot(slots[i]) ==> HasChain(b, size, fat, slots[i]))
    && (forall i, j :: 0 <= i < |slots| && 0 <= j < |slots| && i != j
          && !IsEmptySlot(slots[i]) && !IsEmptySlot(slots[j])
          ==> Disjoint(SlotChain(fat, slots[i]), SlotChain(fat, slots[j])))
  }

  predicate Inv(b: Bpb, d: Image) {
    MetadataFits(b, d) && Consistent(b, |d|, Fat(b, d), Slots(b, d))
  }

  // ----- The files of an image -----

  datatype File = Unused | Deleted | File(name: FileName, ext: Extension, data: seq<byte>)

  function SlotData(b: Bpb, d: Image, s: SlotBytes): seq<byte>
    requires MetadataFits(b, d) && HasChain(b, |d|, Fat(b, d), s)
  {
    Stored(b, d, SlotChain(Fat(b, d), s), Decode(s).fileSize)
  }

  function FileOf(b: Bpb, d: Image, s: SlotBytes): File
    requires MetadataFits(b, d)
    requires !IsEmptySlot(s) ==> HasChain(b, |d|, Fat(b, d), s)
  {
    if s[0] == UNUSED then Unused
    else if s[0] == DELETED then Deleted
    else File(s[0..8], s[8..11], SlotData(b, d, s))
  }

  /** The abstract state: the files in slot order. */
  function Files(b: Bpb, d: Image): (fs: seq<File>)
    requires Inv(b, d)
    ensures |fs| == SlotCount(b)
  {
    seq(SlotCount(b), i requires 0 <= i < SlotCount(b) => FileOf(b, d, Slots(b, d)[i]))
  }

  // ----- What a sequence of writes keeps -----

  /** The clusters with a non-free entry. */
  function Allocated(fat: seq<u16>): set<nat> {
    set c: nat | c < |fat| && fat[c] != FREE
  }

  /** `d` has the same boot region and directory as `d0`, and the same links and contents for the clusters in `keep`. */
  predicate Extends(b: Bpb, d0: Image, d: Image, keep: set<nat>) {
    && MetadataFits(b, d0) && |d| == |d0|
    && d[..b.reservedSectors] == d0[..b.reservedSectors]
    && Slots(b, d) == Slots(b, d0)
    && (forall c :: c in keep && c < ClusterCount(b) ==> Fat(b, d)[c] == Fat(b, d0)[c])
    && (forall c :: c in keep && OnDisk(b, |d|, c) ==> ClusterSectors(b, d, c) == ClusterSectors(b, d0, c))
  }

  /** A file whose clusters are all kept is unchanged. */
  lemma ExtendsKeepsFile(b: Bpb, d0: Image, d: Image, keep: set<nat>, s: SlotBytes)
    requires Extends(b, d0, d, keep) && HasChain(b, |d0|, Fat(b, d0), s)
    requires forall c :: c in SlotChain(Fat(b, d0), s) ==> c in keep
    ensures HasChain(b, |d|, Fat(b, d), s)
    ensures SlotChain(Fat(b, d), s) == SlotChain(Fat(b, d0), s)
    ensures SlotData(b, d, s) == SlotData(b, d0, s)
  {
    var fat0, fat := Fat(b, d0), Fat(b, d);
    var ch := SlotChain(fat0, s);
    assert ch[0] == Decode(s).clusterLow;
    ChainIsAllocated(fat0, ch);
    ChainFrame(fat0, fat, ch);
    assert forall k :: 0 <= k < |ch| ==> ch[k] in keep;
    ChainBytesFrame(b, d0, d, ch);
  }

  /** While only free clusters are written to, the volume stays consistent and every file reads as before. */
  lemma ExtendsKeepsFiles(b: Bpb, d0: Image, d: Image)
    requires Inv(b, d0) && Extends(b, d0, d, Allocated(Fat(b, d0)))
    ensures Inv(b, d) && Files(b, d) == Files(b, d0)
  {
    var fat0, fat, slots := Fat(b, d0), Fat(b, d), Slots(b, d0);
    forall i | 0 <= i < |slots| && !IsEmptySlot(slots[i])
      ensures HasChain(b, |d|, fat, slots[i]) && SlotChain(fat, slots[i]) == SlotChain(fat0, slots[i])
      ensures SlotData(b, d, slots[i]) == SlotData(b, d0, slots[i])
    {
      ChainIsAllocated(fat0, SlotChain(fat0, slots[i]));
      ExtendsKeepsFile(b, d0, d, Allocated(fat0), slots[i]);
    }
    assert fat[0] == fat0[0] && fat[1] == fat0[1] by {
      assert 0 in Allocated(fat0) && 1 in Allocated(fat0);
    }
  }

  // ----- One sector write at a time -----

  lemma SetFatKeepsRest(b: Bpb, d: Image, c: nat, v: u16)
    requires MetadataFits(b, d) && c < ClusterCount(b)
    ensures FatSector(b, c) < |d|
    ensures var d' := WithFatEntry(b, d, c, v);
      && Fat(b, d') == Fat(b, d)[c := v]
      && Slots(b, d') == Slots(b, d)
      && d'[..b.reservedSectors] == d[..b.reservedSectors]
      && forall x :: OnDisk(b, |d|, x) ==> ClusterSectors(b, d', x) == ClusterSectors(b, d, x)
  {
    FatBeforeRoot(b);
    FullFatFits(b, d);
    SetThenGet(b, d, ClusterCount(b), c, v);
    var d' := WithFatEntry(b, d, c, v);
    forall i | 0 <= i < SlotCount(b) ensures Slot(b, d', i) == Slot(b, d, i) {
      SetTouchesFatOnly(b, d, c, v, SlotSector(b, i));
    }
    forall x | OnDisk(b, |d|, x) ensures ClusterSectors(b, d', x) == ClusterSectors(b, d, x) {
      ClusterBehindMetadata(b, x);
    }
  }

  lemma SetFatExtends(b: Bpb, d0: Image, d: Image, keep: set<nat>, c: nat, v: u16)
    requires Extends(b, d0, d, keep) && c < ClusterCount(b) && c !in keep
    ensures FatSector(b, c) < |d| && Extends(b, d0, WithFatEntry(b, d, c, v), keep)
  {
    SetFatKeepsRest(b, d, c, v);
  }

  /** `d'` differs from `d` at most inside cluster `c`. */
  predicate OnlyCluster(b: Bpb, d: Image, d': Image, c: nat) {
    && OnDisk(b, |d|, c) && |d'| == |d|
    && forall lba :: 0 <= lba < |d| && !(ClusterToLba(b, c) <= lba < ClusterToLba(b, c) + b.sectorsPerCluster)
                     ==> d'[lba] == d[lba]
  }

  lemma ClusterWriteKeepsRest(b: Bpb, d: Image, d': Image, c: nat)
    requires MetadataFits(b, d) && OnlyCluster(b, d, d', c)
    ensures Fat(b, d') == Fat(b, d) && Slots(b, d') == Slots(b, d)
    ensures d'[..b.reservedSectors] == d[..b.reservedSectors]
    ensures forall x :: x != c && OnDisk(b, |d|, x) ==> ClusterSectors(b, d', x) == ClusterSectors(b, d, x)
  {
    FatBeforeRoot(b);
    ClusterBehindMetadata(b, c);
    FullFatFits(b, d);
    assert forall i :: 0 <= i < SlotCount(b) ==> Slot(b, d', i) == Slot(b, d, i);
    assert forall i :: 0 <= i < ClusterCount(b) ==> FatEntry(b, d', i) == FatEntry(b, d, i);
    forall x | x != c && OnDisk(b, |d|, x) ensures ClusterSectors(b, d', x) == ClusterSectors(b, d, x) {
      forall lba | ClusterToLba(b, x) <= lba < ClusterToLba(b, x) + b.sectorsPerCluster
        ensures d'[lba] == d[lba]
      {
        ClustersDisjoint(b, x, c, lba);
      }
    }
  }

  lemma ClusterWriteExtends(b: Bpb, d0: Image, d: Image, d': Image, keep: set<nat>, c: nat)
    requires Extends(b, d0, d, keep) && OnlyCluster(b, d, d', c) && c !in keep
    ensures Extends(b, d0, d', keep)
  {
    ClusterWriteKeepsRest(b, d, d', c);
  }

  lemma SlotWriteKeepsRest(b: Bpb, d: Image, i: nat, bytes: SlotBytes)
    requires MetadataFits(b, d) && i < SlotCount(b)
    ensures var d' := WithSlot(b, d, i, bytes);
      && Fat(b, d') == Fat(b, d)
      && Slots(b, d') == Slots(b, d)[i := bytes]
      && d'[..b.reservedSectors] == d[..b.reservedSectors]
      && forall x :: OnDisk(b, |d|, x) ==> ClusterSectors(b, d', x) == ClusterSectors(b, d, x)
  {
    FatBeforeRoot(b);
    FullFatFits(b, d);
    SlotUpdate(b, d, i, bytes);
    var d' := WithSlot(b, d, i, bytes);
    assert forall k :: 0 <= k < ClusterCount(b) ==> FatEntry(b, d', k) == FatEntry(b, d, k);
    forall x | OnDisk(b, |d|, x) ensures ClusterSectors(b, d', x) == ClusterSectors(b, d, x) {
      ClusterBehindMetadata(b, x);
    }
  }

  // ----- Replacing the entry of one slot -----

  function Blank(): SlotBytes {
    seq(SLOT_SIZE, _ => 0)
  }

  /** Consistency of everything but slot `i`. */
  ghost predicate InvBut(b: Bpb, d: Image, i: nat) {
    && MetadataFits(b, d) && i < SlotCount(b)
    && Consistent(b, |d|, Fat(b, d), Slots(b, d)[i := Blank()])
  }

  /** `ch` shares no cluster with the chain of any used slot other than `i`. */
  ghost predicate OwnedBy(fat: seq<u16>, slots: seq<SlotBytes>, i: nat, ch: seq<nat>) {
    forall j :: 0 <= j < |slots| && j != i && !IsEmptySlot(slots[j]) ==>
      Disjoint(SlotChain(fat, slots[j]), ch) && Disjoint(ch, SlotChain(fat, slots[j]))
  }

  /** An entry that names a chain of its own may take slot `i`. */
  lemma Republish(b: Bpb, size: nat, fat: seq<u16>, slots: seq<SlotBytes>, i: nat, bytes: SlotBytes)
    requires i < |slots| && Consistent(b, size, fat, slots[i := Blank()])
    requires IsEmptySlot(bytes) || (HasChain(b, size, fat, bytes) && OwnedBy(fat, slots, i, SlotChain(fat, bytes)))
    ensures Consistent(b, size, fat, slots[i := bytes])
  {
    var blanked, slots' := slots[i := Blank()], slots[i := bytes];
    forall j | 0 <= j < |slots| && !IsEmptySlot(slots'[j]) ensures HasChain(b, size, fat, slots'[j]) {
      assert j == i || slots'[j] == blanked[j];
    }
    forall j, k | 0 <= j < |slots| && 0 <= k < |slots| && j != k && !IsEmptySlot(slots'[j]) && !IsEmptySlot(slots'[k])
      ensures Disjoint(SlotChain(fat, slots'[j]), SlotChain(fat, slots'[k]))
    {
      assert j == i || slots'[j] == blanked[j] == slots[j];
      assert k == i || slots'[k] == blanked[k] == slots[k];
    }
  }

  /** Writing such an entry gives a consistent image in which only slot `i` changed. */
  lemma PublishSlot(b: Bpb, d: Image, i: nat, bytes: SlotBytes)
    requires InvBut(b, d, i)
    requires IsEmptySlot(bytes) || (HasChain(b, |d|, Fat(b, d), bytes)
                                    && OwnedBy(Fat(b, d), Slots(b, d), i, SlotChain(Fat(b, d), bytes)))
    ensures var d' := WithSlot(b, d, i, bytes);
      Inv(b, d') && Files(b, d')[i] == FileOf(b, d, bytes)
    ensures forall j :: 0 <= j < SlotCount(b) && j != i ==>
              && (!IsEmptySlot(Slots(b, d)[j]) ==> HasChain(b, |d|, Fat(b, d), Slots(b, d)[j]))
              && Files(b, WithSlot(b, d, i, bytes))[j] == FileOf(b, d, Slots(b, d)[j])
  {
    var fat, slots, d' := Fat(b, d), Slots(b, d), WithSlot(b, d, i, bytes);
    Republish(b, |d|, fat, slots, i, bytes);
    SlotWriteKeepsRest(b, d, i, bytes);
    forall s: SlotBytes | !IsEmptySlot(s) && HasChain(b, |d|, fat, s)
      ensures SlotData(b, d', s) == SlotData(b, d, s)
    {
      ChainBytesFrame(b, d, d', SlotChain(fat, s));
    }
    forall j | 0 <= j < SlotCount(b) && j != i
      ensures (!IsEmptySlot(slots[j]) ==> HasChain(b, |d|, fat, slots[j]))
              && Files(b, d')[j] == FileOf(b, d, slots[j])
    {
      assert slots[j] == slots[i := Blank()][j] == Slots(b, d')[j];
    }
  }

  /** If the clusters of all other slots are kept, those slots stay consistent and read as before. */
  lemma ExtendsKeepsOthers(b: Bpb, d0: Image, d: Image, keep: set<nat>, i: nat)
    requires Inv(b, d0) && Extends(b, d0, d, keep) && i < SlotCount(b) && 0 in keep && 1 in keep
    requires forall j :: 0 <= j < SlotCount(b) && j != i && !IsEmptySlot(Slots(b, d0)[j]) ==>
               forall c :: c in SlotChain(Fat(b, d0), Slots(b, d0)[j]) ==> c in keep
    ensures InvBut(b, d, i)
    ensures forall j :: 0 <= j < SlotCount(b) && j != i && !IsEmptySlot(Slots(b, d)[j]) ==>
              SlotChain(Fat(b, d), Slots(b, d)[j]) == SlotChain(Fat(b, d0), Slots(b, d0)[j])
    ensures forall j :: 0 <= j < SlotCount(b) && j != i ==>
              && (!IsEmptySlot(Slots(b, d)[j]) ==> HasChain(b, |d|, Fat(b, d), Slots(b, d)[j]))
              && FileOf(b, d, Slots(b, d)[j]) == Files(b, d0)[j]
  {
    var fat0, fat, slots := Fat(b, d0), Fat(b, d), Slots(b, d0);
    var blanked := slots[i := Blank()];
    forall j | 0 <= j < |slots| && j != i && !IsEmptySlot(slots[j])
      ensures HasChain(b, |d|, fat, slots[j]) && SlotChain(fat, slots[j]) == SlotChain(fat0, slots[j])
      ensures SlotData(b, d, slots[j]) == SlotData(b, d0, slots[j])
    {
      ExtendsKeepsFile(b, d0, d, keep, slots[j]);
    }
    forall j, k | 0 <= j < |slots| && 0 <= k < |slots| && j != k && !IsEmptySlot(blanked[j]) && !IsEmptySlot(blanked[k])
      ensures Disjoint(SlotChain(fat, blanked[j]), SlotChain(fat, blanked[k]))
    {
      assert blanked[j] == slots[j] && blanked[k] == slots[k];
    }
  }
}
